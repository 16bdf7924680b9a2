/**
 * `suggestName` of `File` and `FileEntity` (the two are the same code): the
 * first basename, counting upwards in a trailing "-<number>" part, that is
 * taken neither in the public nor in the protected directory.
 */
module Naming {
  import Php
  import opened Storage

  /** `file_exists` answers yes for the basename in one of the two directories. */
  predicate Taken(t: Tree, pub: string, prot: string, b: string) {
    (pub + "/" + b) in t || (prot + "/" + b) in t
  }

  /** The file name without its extension, cut at every '-'. */
  function Parts(b: string): (parts: seq<string>)
    ensures |parts| >= 1
  {
    Php.Split(Php.FileName(b), '-')
  }

  /**
   * The name ends in a counter: there are at least two parts, and the last one
   * is truthy and equal, as PHP compares, to its own `intval`.
   */
  predicate CounterForm(b: string) {
    var parts := Parts(b);
    |parts| > 1 && Php.Truthy(parts[|parts| - 1]) &&
    Php.LooseEqualsDecimal(parts[|parts| - 1], Php.IntVal(parts[|parts| - 1]))
  }

  /** The value the counter of a name in counter form starts from. */
  function Start(b: string): nat {
    var parts := Parts(b);
    Php.IntVal(parts[|parts| - 1])
  }

  /** The file name parts `pre`, then the counter `n`, glued with '-', then the extension. */
  function Candidate(pre: seq<string>, n: nat, ext: string): string {
    Php.Join("-", pre + [Php.NatToString(n)]) + "." + ext
  }

  /** The candidate with counter `n` in place of the last part. */
  function Counted(b: string, n: nat): string {
    var parts := Parts(b);
    Candidate(parts[..|parts| - 1], n, Php.Extension(b))
  }

  /** The name tried when the basename carries no counter: "-1" added to the file name. */
  function Retry(b: string): string {
    Php.Join("-", Parts(b)) + "-1" + "." + Php.Extension(b)
  }

  /** Every candidate with a counter strictly between `lo` and `hi` is taken. */
  ghost predicate AllTaken(t: Tree, pub: string, prot: string, pre: seq<string>, lo: nat, hi: nat, ext: string) {
    forall j: nat :: lo < j < hi ==> Taken(t, pub, prot, Candidate(pre, j, ext))
  }

  /** `name` is the free candidate with the smallest counter above `start`. */
  ghost predicate FirstFreeAfter(t: Tree, pub: string, prot: string, pre: seq<string>, start: nat, ext: string, name: string) {
    exists n: nat ::
      n > start && name == Candidate(pre, n, ext) && !Taken(t, pub, prot, name) && AllTaken(t, pub, prot, pre, start, n, ext)
  }

  lemma AllTakenExtend(t: Tree, pub: string, prot: string, pre: seq<string>, lo: nat, hi: nat, ext: string)
    requires lo < hi && AllTaken(t, pub, prot, pre, lo, hi, ext) && Taken(t, pub, prot, Candidate(pre, hi, ext))
    ensures AllTaken(t, pub, prot, pre, lo, hi + 1, ext)
  { }

  /** `name` is the candidate with the smallest counter above `Start(b)` that is free. */
  ghost predicate FirstFree(t: Tree, pub: string, prot: string, b: string, name: string) {
    var parts := Parts(b);
    FirstFreeAfter(t, pub, prot, parts[..|parts| - 1], Start(b), Php.Extension(b), name)
  }

  /** The length of the longest path in `s`. */
  ghost function MaxLen(s: set<string>): (r: nat)
    ensures forall x :: x in s ==> |x| <= r
    decreases |s|
  {
    if s == {} then 0
    else
      var x :| x in s;
      var rest := MaxLen(s - {x});
      if |x| > rest then |x| else rest
  }

  /** A candidate counter that is taken is bounded by the size of the tree's paths. */
  lemma TakenBound(t: Tree, pub: string, prot: string, pre: seq<string>, n: nat, ext: string)
    requires pre != []
    requires Taken(t, pub, prot, Candidate(pre, n, ext))
    ensures n < Php.Pow10(MaxLen(t.Keys))
  {
    var s := Php.NatToString(n);
    Php.JoinSnoc("-", pre, s);
    var c := Candidate(pre, n, ext);
    var key := if (pub + "/" + c) in t then pub + "/" + c else prot + "/" + c;
    assert |key| >= |s|;
    Php.NatToStringBound(n);
    Php.Pow10Monotone(|s|, MaxLen(t.Keys));
  }

  /** The retried name carries the counter 1 after the old file name, and keeps the extension. */
  lemma RetryInCounterForm(b: string)
    ensures Parts(Retry(b)) == Parts(b) + ["1"]
    ensures Php.Extension(Retry(b)) == Php.Extension(b)
    ensures CounterForm(Retry(b)) && Start(Retry(b)) == 1
  {
    var stem := Php.FileName(b);
    var ext := Php.Extension(b);
    RetryPathInfo(b, stem, ext);
    RetryParts(stem);
    var p := Parts(Retry(b));
    assert p[|p| - 1] == "1";
    OneIsCounter();
  }

  lemma RetryParts(stem: string)
    ensures Php.Split(stem + "-1", '-') == Php.Split(stem, '-') + ["1"]
  {
    Php.SplitSnoc(stem, '-', "1");
    assert stem + "-1" == stem + ['-'] + "1";
  }

  lemma OneIsCounter()
    ensures Php.Truthy("1") && Php.IntVal("1") == 1 && Php.LooseEqualsDecimal("1", 1)
  {
    Php.IntValOfDigits("1");
  }

  lemma RetryPathInfo(b: string, stem: string, ext: string)
    requires stem == Php.FileName(b) && ext == Php.Extension(b)
    ensures Php.FileName(Retry(b)) == stem + "-1" && Php.Extension(Retry(b)) == ext
  {
    Php.SplitJoin(stem, '-');
    assert Retry(b) == (stem + "-1") + "." + ext;
    Php.PathInfoOfJoined(stem + "-1", ext);
  }

  /**
   * The name `suggestName` gives a new file: the basename itself when it is
   * free; for a basename ending in a counter, the first free candidate with a
   * higher counter; otherwise the basename with "-1" added to its file name
   * when that is free, and else the first free candidate from there on.
   */
  method SuggestName(t: Tree, pub: string, prot: string, basename: string) returns (name: string)
    ensures !Taken(t, pub, prot, name)
    ensures !Taken(t, pub, prot, basename) ==> name == basename
    ensures Taken(t, pub, prot, basename) && CounterForm(basename) ==> FirstFree(t, pub, prot, basename, name)
    ensures Taken(t, pub, prot, basename) && !CounterForm(basename) ==>
              if Taken(t, pub, prot, Retry(basename)) then FirstFree(t, pub, prot, Retry(basename), name)
              else name == Retry(basename)
    decreases if CounterForm(basename) then 0 else 1
  {
    if !Taken(t, pub, prot, basename) {
      return basename;
    }
    var fileExtension := Php.Extension(basename);
    var fileName := Php.Split(Php.FileName(basename), '-');
    assert fileName == Parts(basename);
    if |fileName| > 1 {
      var last := fileName[|fileName| - 1];
      var i := Php.IntVal(last);
      if Php.Truthy(last) && Php.LooseEqualsDecimal(last, i) {
        assert CounterForm(basename) && i == Start(basename);
        name := CountUp(t, pub, prot, fileName, i, fileExtension);
        return;
      }
    }
    assert !CounterForm(basename);
    var retry := Php.Join("-", fileName) + "-1" + "." + fileExtension;
    assert retry == Retry(basename);
    RetryInCounterForm(basename);
    name := SuggestName(t, pub, prot, retry);
  }

  lemma LastReplaced(parts: seq<string>, pre: seq<string>, d: string)
    requires |parts| == |pre| + 1 && parts[..|pre|] == pre
    ensures parts[|parts| - 1 := d] == pre + [d]
  {
    assert forall k :: 0 <= k < |pre| ==> parts[k] == pre[k];
  }

  /**
   * The `do … while` of `suggestName`: the counter in the last part goes up
   * by one until neither directory holds the candidate.
   */
  method CountUp(t: Tree, pub: string, prot: string, fileName: seq<string>, i: nat, ext: string) returns (file: string)
    requires |fileName| > 1
    ensures !Taken(t, pub, prot, file)
    ensures FirstFreeAfter(t, pub, prot, fileName[..|fileName| - 1], i, ext, file)
  {
    ghost var pre := fileName[..|fileName| - 1];
    var parts := fileName;
    var n := i + 1;
    var digits := Php.NatToString(n);
    LastReplaced(parts, pre, digits);
    parts := parts[|parts| - 1 := digits];
    file := Php.Join("-", parts) + "." + ext;
    ghost var bound := Php.Pow10(MaxLen(t.Keys));
    while Taken(t, pub, prot, file)
      invariant parts == pre + [digits] && digits == Php.NatToString(n)
      invariant file == Candidate(pre, n, ext) && n > i
      invariant AllTaken(t, pub, prot, pre, i, n, ext)
      decreases bound - n
    {
      TakenBound(t, pub, prot, pre, n, ext);
      AllTakenExtend(t, pub, prot, pre, i, n, ext);
      n := n + 1;
      digits := Php.NatToString(n);
      LastReplaced(parts, pre, digits);
      parts := parts[|parts| - 1 := digits];
      file := Php.Join("-", parts) + "." + ext;
    }
  }
}
