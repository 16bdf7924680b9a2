/**
 * The PHP string built-ins the file layer relies on, restated on `seq<char>`:
 * truthiness, decimal conversion, `pathinfo`, `substr`, `strpos`, `explode`,
 * `implode`, `trim`, `str_replace` and ASCII lowercasing.
 */
module Php {

  /** PHP truthiness of a string: only "" and "0" are false. */
  predicate Truthy(s: string) {
    s != "" && s != "0"
  }

  predicate IsDigit(c: char) {
    '0' <= c <= '9'
  }

  predicate AllDigits(s: string) {
    forall i :: 0 <= i < |s| ==> IsDigit(s[i])
  }

  function DigitValue(c: char): nat
    requires IsDigit(c)
  {
    c as int - '0' as int
  }

  function DigitChar(d: nat): (c: char)
    requires d < 10
    ensures IsDigit(c) && DigitValue(c) == d
  {
    ('0' as int + d) as char
  }

  /** The value of a string of decimal digits (leading zeros allowed). */
  function DigitsValue(s: string): nat
    requires AllDigits(s)
  {
    if s == [] then 0 else DigitsValue(s[..|s| - 1]) * 10 + DigitValue(s[|s| - 1])
  }

  /** `(string) $n` for a non-negative integer. */
  function NatToString(n: nat): (s: string)
    ensures |s| >= 1 && AllDigits(s)
  {
    if n < 10 then [DigitChar(n)] else NatToString(n / 10) + [DigitChar(n % 10)]
  }

  /** Reading back the decimal form of `n` gives `n`. */
  lemma {:induction false} NatToStringRoundTrip(n: nat)
    ensures DigitsValue(NatToString(n)) == n
  {
    if n >= 10 {
      var s := NatToString(n);
      NatToStringRoundTrip(n / 10);
      assert s[..|s| - 1] == NatToString(n / 10);
    }
  }

  /** `(int)` reads the decimal form of `n` back as `n`; for `n > 0` that form is truthy. */
  lemma IntValOfNatToString(n: nat)
    ensures IntVal(NatToString(n)) == n
    ensures n > 0 ==> Truthy(NatToString(n))
  {
    NatToStringRoundTrip(n);
    IntValOfDigits(NatToString(n));
  }

  /** Distinct numbers have distinct decimal forms. */
  lemma NatToStringInjective(a: nat, b: nat)
    requires NatToString(a) == NatToString(b)
    ensures a == b
  {
    NatToStringRoundTrip(a);
    NatToStringRoundTrip(b);
  }

  /** The longest prefix of `s` made of digits. */
  function LeadingDigits(s: string): (d: string)
    ensures AllDigits(d) && |d| <= |s| && d == s[..|d|]
    ensures |d| < |s| ==> !IsDigit(s[|d|])
  {
    if s == [] || !IsDigit(s[0]) then [] else [s[0]] + LeadingDigits(s[1..])
  }

  /** `(int) $s` and `intval($s)` for strings without sign or leading blanks. */
  function IntVal(s: string): nat {
    DigitsValue(LeadingDigits(s))
  }

  /**
   * `(string) $n == $s` with PHP's loose comparison, for a string without
   * blanks, sign, decimal point or exponent: two numeric strings compare as
   * numbers, so leading zeros do not matter.
   */
  predicate LooseEqualsDecimal(s: string, n: nat) {
    s != [] && AllDigits(s) && DigitsValue(s) == n
  }

  /** A digit string is read back whole by `intval`. */
  lemma {:induction false} IntValOfDigits(s: string)
    requires AllDigits(s)
    ensures LeadingDigits(s) == s && IntVal(s) == DigitsValue(s)
    decreases |s|
  {
    if s != [] {
      IntValOfDigits(s[1..]);
      assert s == [s[0]] + s[1..];
    }
  }

  /** `10` to the power `k`. */
  function Pow10(k: nat): (r: nat)
    ensures r >= 1
  {
    if k == 0 then 1 else 10 * Pow10(k - 1)
  }

  lemma {:induction false} Pow10Monotone(a: nat, b: nat)
    requires a <= b
    ensures Pow10(a) <= Pow10(b)
    decreases b
  {
    if a < b {
      Pow10Monotone(a, b - 1);
    }
  }

  /** A number is below ten to the length of its decimal form. */
  lemma {:induction false} NatToStringBound(n: nat)
    ensures n < Pow10(|NatToString(n)|)
  {
    if n >= 10 {
      NatToStringBound(n / 10);
    }
  }

  /** `strrpos($s, $c)`, with -1 for `false`. */
  function LastIndexOf(s: string, c: char): (r: int)
    ensures -1 <= r < |s|
    ensures r >= 0 ==> s[r] == c && forall j :: r < j < |s| ==> s[j] != c
    ensures r == -1 ==> forall j :: 0 <= j < |s| ==> s[j] != c
  {
    if s == [] then -1
    else if s[|s| - 1] == c then |s| - 1
    else LastIndexOf(s[..|s| - 1], c)
  }

  /** `strpos($s, $c)` for one character, with -1 for `false`. */
  function IndexOf(s: string, c: char): (r: int)
    ensures -1 <= r < |s|
    ensures r >= 0 ==> s[r] == c && forall j :: 0 <= j < r ==> s[j] != c
    ensures r == -1 ==> forall j :: 0 <= j < |s| ==> s[j] != c
  {
    if s == [] then -1
    else if s[0] == c then 0
    else var r := IndexOf(s[1..], c); if r < 0 then -1 else r + 1
  }

  /** `substr($s, $start)` for `$start >= 0` ("" once past the end). */
  function Substr(s: string, start: nat): string {
    if start >= |s| then "" else s[start..]
  }

  /** `substr($s, 0, $n)`. */
  function Prefix(s: string, n: nat): string {
    if n >= |s| then s else s[..n]
  }

  predicate StartsWith(s: string, p: string) {
    |p| <= |s| && s[..|p|] == p
  }

  /** `p` occurs in `s` starting at index `i`. */
  predicate OccursAt(s: string, p: string, i: int) {
    0 <= i && i + |p| <= |s| && s[i..i + |p|] == p
  }

  /** `strpos($s, $p) !== false`. */
  predicate Contains(s: string, p: string) {
    exists i :: 0 <= i <= |s| - |p| && OccursAt(s, p, i)
  }

  /** `str_replace($pat, $rep, $s)`: every occurrence, scanning left to right. */
  function ReplaceAll(s: string, pat: string, rep: string): string
    requires pat != []
    decreases |s|
  {
    if |s| < |pat| then s
    else if s[..|pat|] == pat then rep + ReplaceAll(s[|pat|..], pat, rep)
    else [s[0]] + ReplaceAll(s[1..], pat, rep)
  }

  function LowerChar(c: char): char {
    if 'A' <= c <= 'Z' then (c as int + 32) as char else c
  }

  /** `Strings::lower`, on ASCII letters. */
  function Lower(s: string): (r: string)
    ensures |r| == |s|
  {
    seq(|s|, i requires 0 <= i < |s| => LowerChar(s[i]))
  }

  /** `explode($c, $s)` for a one-character separator. */
  function Split(s: string, c: char): (parts: seq<string>)
    ensures |parts| >= 1
    ensures forall k :: 0 <= k < |parts| ==> c !in parts[k]
    decreases |s|
  {
    var i := IndexOf(s, c);
    if i < 0 then [s] else [s[..i]] + Split(s[i + 1..], c)
  }

  /** `implode($sep, $parts)`. */
  function Join(sep: string, parts: seq<string>): string {
    if parts == [] then ""
    else if |parts| == 1 then parts[0]
    else parts[0] + sep + Join(sep, parts[1..])
  }

  /** `array_reverse`. */
  function Reversed<T>(s: seq<T>): (r: seq<T>)
    ensures |r| == |s| && forall i :: 0 <= i < |s| ==> r[i] == s[|s| - 1 - i]
  {
    if s == [] then [] else Reversed(s[1..]) + [s[0]]
  }

  lemma ReversedSnoc<T>(s: seq<T>, x: T)
    ensures Reversed(s + [x]) == [x] + Reversed(s)
  {
    var r, t := Reversed(s + [x]), [x] + Reversed(s);
    assert |r| == |t|;
    forall i | 0 <= i < |r| ensures r[i] == t[i] {
    }
  }

  /** Imploding one more part adds the separator and that part. */
  lemma {:induction false} JoinSnoc(sep: string, parts: seq<string>, last: string)
    requires parts != []
    ensures Join(sep, parts + [last]) == Join(sep, parts) + sep + last
    decreases |parts|
  {
    if |parts| == 1 {
      assert (parts + [last])[1..] == [last];
    } else {
      assert (parts + [last])[1..] == parts[1..] + [last];
      JoinSnoc(sep, parts[1..], last);
    }
  }

  /** Exploding a string with one more separated piece at its end gives one more part. */
  lemma {:induction false} SplitSnoc(s: string, c: char, t: string)
    requires c !in t
    ensures Split(s + [c] + t, c) == Split(s, c) + [t]
    decreases |s|
  {
    var i := IndexOf(s, c);
    if i < 0 {
      SplitCons(s, c, t);
    } else {
      var u := s + [c] + t;
      IndexOfExtended(s, c, [c] + t);
      assert u == s + ([c] + t);
      assert u[..i] == s[..i];
      assert u[i + 1..] == s[i + 1..] + [c] + t;
      SplitSnoc(s[i + 1..], c, t);
    }
  }

  /** Text appended after a separator does not move its first occurrence. */
  lemma IndexOfExtended(s: string, c: char, x: string)
    requires IndexOf(s, c) >= 0
    ensures IndexOf(s + x, c) == IndexOf(s, c)
  {
    var i := IndexOf(s, c);
    assert (s + x)[i] == c;
    assert forall j :: 0 <= j < i ==> (s + x)[j] == s[j];
  }

  /** Exploding a string whose first piece holds no separator gives that piece, then the rest's parts. */
  lemma SplitCons(s: string, c: char, t: string)
    requires c !in s
    ensures Split(s + [c] + t, c) == [s] + Split(t, c)
  {
    var u := s + [c] + t;
    assert IndexOf(u, c) == |s| by {
      assert u[|s|] == c;
      assert forall j :: 0 <= j < |s| ==> u[j] == s[j];
    }
    assert u[..|s|] == s && u[|s| + 1..] == t;
  }

  /** A string with a separator in it explodes into at least two parts. */
  lemma SplitAtSeparator(s: string, c: char)
    requires c in s
    ensures |Split(s, c)| >= 2
  {
    var i :| 0 <= i < |s| && s[i] == c;
    assert IndexOf(s, c) >= 0;
  }

  /** Gluing what `explode` cut gives back the string. */
  lemma {:induction false} SplitJoin(s: string, c: char)
    ensures Join([c], Split(s, c)) == s
    decreases |s|
  {
    var i := IndexOf(s, c);
    if i >= 0 {
      SplitJoin(s[i + 1..], c);
      assert s == s[..i] + [c] + s[i + 1..];
      var tail := Split(s[i + 1..], c);
      if |tail| == 1 {
        assert Join([c], [s[..i]] + tail) == s[..i] + [c] + tail[0];
      } else {
        assert ([s[..i]] + tail)[1..] == tail;
      }
    }
  }

  /** `trim($s, $chars)`. */
  function Trim(s: string, chars: set<char>): (r: string)
    ensures |r| <= |s|
    ensures r != [] ==> r[0] !in chars && r[|r| - 1] !in chars
    decreases |s|
  {
    if s == [] then s
    else if s[0] in chars then Trim(s[1..], chars)
    else if s[|s| - 1] in chars then Trim(s[..|s| - 1], chars)
    else s
  }

  /** The last segment of a path (`basename`). */
  function Basename(p: string): (b: string)
    ensures '/' !in b
  {
    AfterLast(p, '/');
    p[LastIndexOf(p, '/') + 1..]
  }

  /** Nothing after the last occurrence of `c` is `c`. */
  lemma AfterLast(s: string, c: char)
    ensures c !in s[LastIndexOf(s, c) + 1..]
  {
    var i := LastIndexOf(s, c);
    var b := s[i + 1..];
    forall j | 0 <= j < |b|
      ensures b[j] != c
    {
      assert b[j] == s[i + 1 + j];
    }
  }

  /** `pathinfo($p, PATHINFO_EXTENSION)`: what follows the last dot of the basename. */
  function Extension(p: string): (e: string)
    ensures '.' !in e && '/' !in e
  {
    var b := Basename(p);
    var i := LastIndexOf(b, '.');
    if i < 0 then ""
    else
      var e := b[i + 1..];
      assert forall j :: 0 <= j < |e| ==> e[j] == b[i + 1 + j];
      e
  }

  /** `pathinfo($p, PATHINFO_FILENAME)`: the basename without its last dot and extension. */
  function FileName(p: string): (f: string)
    ensures '/' !in f
  {
    var b := Basename(p);
    var i := LastIndexOf(b, '.');
    if i < 0 then b
    else
      var f := b[..i];
      assert forall j :: 0 <= j < |f| ==> f[j] == b[j];
      f
  }

  /** `pathinfo` splits a dotted basename into its two parts and nothing more. */
  lemma PathInfoOfJoined(stem: string, ext: string)
    requires '/' !in stem && '/' !in ext && '.' !in ext
    ensures FileName(stem + "." + ext) == stem
    ensures Extension(stem + "." + ext) == ext
  {
    var s := stem + "." + ext;
    assert '/' !in s;
    assert LastIndexOf(s, '/') == -1;
    assert Basename(s) == s;
    var i := LastIndexOf(s, '.');
    assert s[|stem|] == '.';
    assert forall j :: |stem| < j < |s| ==> s[j] == ext[j - |stem| - 1];
    assert i == |stem|;
    assert s[..i] == stem;
    assert s[i + 1..] == ext;
  }
}
