/**
 * The local filesystem the entities keep in step with: a map from absolute
 * path to what lies there. The PHP built-ins the file layer calls (`is_file`,
 * `is_dir`, `file_exists`, `unlink`, `rmdir`, `mkdir`, `rename`, `copy` and
 * `FileUpload::move`) become methods that change this map.
 */
module Storage {
  import Php

  datatype Kind = IsFile | IsDir

  type Tree = map<string, Kind>

  predicate IsFileAt(t: Tree, p: string) {
    p in t && t[p] == IsFile
  }

  predicate IsDirAt(t: Tree, p: string) {
    p in t && t[p] == IsDir
  }

  /** `q` lies strictly below the directory `p`. */
  predicate Below(q: string, p: string) {
    Php.StartsWith(q, p + "/")
  }

  /** `q` is `p` or lies below it. */
  predicate AtOrBelow(q: string, p: string) {
    q == p || Below(q, p)
  }

  /** `rmdir` at `p` can go ahead: an empty directory the process may change. */
  predicate Removable(t: Tree, locked: set<string>, p: string) {
    IsDirAt(t, p) && p !in locked && forall q :: q in t ==> !Below(q, p)
  }

  /** `r` holds the same entries as `t` everywhere except, perhaps, at `p`. */
  ghost predicate SameBut(t: Tree, r: Tree, p: string) {
    forall q :: q != p ==> (q in r <==> q in t) && (q in r ==> r[q] == t[q])
  }

  /** `unlink`: removes a file; a missing path, a directory or a locked path is left alone. */
  function Unlinked(t: Tree, locked: set<string>, p: string): (r: Tree)
    ensures SameBut(t, r, p)
    ensures p in r <==> p in t && !(IsFileAt(t, p) && p !in locked)
    ensures p in r ==> r[p] == t[p]
  {
    if IsFileAt(t, p) && p !in locked then t - {p} else t
  }

  /** `rmdir`: removes an empty directory only. */
  function Rmdired(t: Tree, locked: set<string>, p: string): (r: Tree)
    ensures SameBut(t, r, p)
    ensures p in r <==> p in t && !Removable(t, locked, p)
    ensures p in r ==> r[p] == t[p]
  {
    if Removable(t, locked, p) then t - {p} else t
  }

  /** `mkdir`: creates a directory where nothing lies yet (whether the parent exists is not modelled). */
  function Mkdired(t: Tree, locked: set<string>, p: string): (r: Tree)
    ensures SameBut(t, r, p)
    ensures p in t ==> p in r && r[p] == t[p]
    ensures p !in t ==> (p in r <==> p !in locked) && (p in r ==> r[p] == IsDir)
  {
    if p !in t && p !in locked then t[p := IsDir] else t
  }

  /** `copy`: a file's copy at `b`; a directory, a missing source or a locked target copies nothing. */
  function Copied(t: Tree, locked: set<string>, a: string, b: string): (r: Tree)
    ensures SameBut(t, r, b)
    ensures b in t ==> b in r
    ensures b in r && (b !in t || r[b] != t[b]) ==> IsFileAt(t, a) && b !in locked && !IsDirAt(t, b) && r[b] == t[a]
    ensures IsFileAt(t, a) && b !in locked && !IsDirAt(t, b) ==> IsFileAt(r, b)
  {
    if IsFileAt(t, a) && b !in locked && !IsDirAt(t, b) then t[b := IsFile] else t
  }

  /** Where `rename(a, b)` puts the entry at `q`: a directory carries what lies below it along. */
  function MoveKey(q: string, a: string, b: string, dir: bool): string {
    if q == a then b else if dir && Below(q, a) then b + q[|a|..] else q
  }

  /**
   * A rename from `a` to `b` can go ahead: a file may replace a file, and a
   * directory may replace an empty directory, as POSIX `rename` allows.
   */
  predicate CanRename(t: Tree, locked: set<string>, a: string, b: string) {
    && a in t && a !in locked && b !in locked && a != b
    && (if t[a] == IsFile then !IsDirAt(t, b)
        else !Below(b, a) && (b in t ==> t[b] == IsDir) && forall q :: q in t ==> !Below(q, b))
  }

  /** Two paths that both lie below `a` and `b` make one of `a`, `b` lie at or below the other. */
  lemma BelowBoth(q: string, a: string, b: string)
    requires Below(q, a) && Below(q, b)
    ensures AtOrBelow(a, b) || Below(b, a)
  {
    if |a| == |b| {
      assert a + "/" == q[..|a| + 1] == b + "/";
      assert a == (a + "/")[..|a|];
    } else if |a| < |b| {
      assert b[..|a| + 1] == (b + "/")[..|a| + 1] == q[..|a| + 1];
    } else {
      assert a[..|b| + 1] == (a + "/")[..|b| + 1] == q[..|b| + 1];
    }
  }

  lemma MovedBelow(q: string, a: string, b: string)
    requires Below(q, a)
    ensures Below(b + q[|a|..], b)
  {
    var k := b + q[|a|..];
    assert q[..|a| + 1] == a + "/";
    assert q[|a|] == '/';
    assert k[..|b| + 1] == b + "/";
  }

  lemma MoveKeyInjective(s: Tree, a: string, b: string, dir: bool, q1: string, q2: string)
    requires q1 in s && q2 in s
    requires b !in s
    requires dir ==> forall q :: q in s ==> !AtOrBelow(q, b)
    requires MoveKey(q1, a, b, dir) == MoveKey(q2, a, b, dir)
    ensures q1 == q2
  {
    var moved1 := q1 == a || (dir && Below(q1, a));
    var moved2 := q2 == a || (dir && Below(q2, a));
    if moved1 && moved2 {
      if q1 != a && q2 != a {
        assert q1 == a + q1[|a|..] && q2 == a + q2[|a|..];
        assert q1[|a|..] == (b + q1[|a|..])[|b|..];
      } else if q1 != a {
        MovedBelow(q1, a, b);
      } else if q2 != a {
        MovedBelow(q2, a, b);
      }
    } else if moved1 {
      if q1 != a {
        MovedBelow(q1, a, b);
      }
    } else if moved2 {
      if q2 != a {
        MovedBelow(q2, a, b);
      }
    }
  }

  /**
   * `rename(a, b)`: the entry at `a`, and everything under it when it is a
   * directory, moves to `b`; a file overwrites a file at `b`. When the rename
   * cannot go ahead nothing changes.
   */
  function Renamed(t: Tree, locked: set<string>, a: string, b: string): (r: Tree)
    ensures !CanRename(t, locked, a, b) ==> r == t
    ensures CanRename(t, locked, a, b) ==> a !in r && b in r && r[b] == t[a]
  {
    if !CanRename(t, locked, a, b) then t
    else
      var dir := t[a] == IsDir;
      var s := t - {b};
      assert forall q1, q2 | q1 in s && q2 in s && MoveKey(q1, a, b, dir) == MoveKey(q2, a, b, dir) :: q1 == q2 by {
        forall q1, q2 | q1 in s && q2 in s && MoveKey(q1, a, b, dir) == MoveKey(q2, a, b, dir) ensures q1 == q2 {
          MoveKeyInjective(s, a, b, dir, q1, q2);
        }
      }
      var r := map q | q in s :: MoveKey(q, a, b, dir) := s[q];
      assert a in s && MoveKey(a, a, b, dir) == b;
      assert a !in r by {
        if a in r {
          var q :| q in s && MoveKey(q, a, b, dir) == a;
          if dir && q != a && Below(q, a) {
            MovedBelow(q, a, b);
          }
        }
      }
      r
  }

  /** Renaming a directory carries every entry below it along, to the same place below the target. */
  lemma RenamedMovesSubtree(t: Tree, locked: set<string>, a: string, b: string, q: string)
    requires CanRename(t, locked, a, b) && t[a] == IsDir && q in t && Below(q, a)
    ensures b + q[|a|..] in Renamed(t, locked, a, b) && Renamed(t, locked, a, b)[b + q[|a|..]] == t[q]
  {
    var r := Renamed(t, locked, a, b);
    var s := t - {b};
    assert q in s && MoveKey(q, a, b, true) == b + q[|a|..];
    var q' :| q' in s && MoveKey(q', a, b, true) == b + q[|a|..] && r[b + q[|a|..]] == s[q'];
    MoveKeyInjective(s, a, b, true, q, q');
  }

  /** Renaming a directory empties its old place: nothing is left below the source. */
  lemma RenamedEmptiesSource(t: Tree, locked: set<string>, a: string, b: string, q: string)
    requires CanRename(t, locked, a, b) && t[a] == IsDir && Below(q, a)
    ensures q !in Renamed(t, locked, a, b)
  {
    var r := Renamed(t, locked, a, b);
    var s := t - {b};
    if q in r {
      var q' :| q' in s && MoveKey(q', a, b, true) == q;
      if q' != a {
        MovedBelow(q', a, b);
        BelowBoth(q, a, b);
      }
    }
  }

  /** Every entry after a rename is an entry from before, other than the target, put where `MoveKey` sends it. */
  lemma RenamedOnlyMoves(t: Tree, locked: set<string>, a: string, b: string, q: string)
    requires CanRename(t, locked, a, b) && q in Renamed(t, locked, a, b)
    ensures exists q' :: q' in t && q' != b && MoveKey(q', a, b, t[a] == IsDir) == q && Renamed(t, locked, a, b)[q] == t[q']
  {
    var r := Renamed(t, locked, a, b);
    var s := t - {b};
    var q' :| q' in s && MoveKey(q', a, b, t[a] == IsDir) == q && r[q] == s[q'];
  }

  /** A rename leaves every entry that is neither the source, below a moved directory, nor the target where it was. */
  lemma RenamedKeepsRest(t: Tree, locked: set<string>, a: string, b: string, q: string)
    requires CanRename(t, locked, a, b) && q in t && q != b && !(q == a || (t[a] == IsDir && Below(q, a)))
    ensures q in Renamed(t, locked, a, b) && Renamed(t, locked, a, b)[q] == t[q]
  {
    var r := Renamed(t, locked, a, b);
    var s := t - {b};
    var dir := t[a] == IsDir;
    assert q in s && MoveKey(q, a, b, dir) == q;
    var q' :| q' in s && MoveKey(q', a, b, dir) == q && r[q] == s[q'];
    MoveKeyInjective(s, a, b, dir, q, q');
  }

  /**
   * The part of the filesystem the model follows. `locked` holds the paths the
   * process has no right to change: every mutation aimed at one of them
   * silently leaves the disk as it was, so the checks after each step can fail.
   */
  class Disk {
    var entries: Tree
    const locked: set<string>

    constructor (initial: Tree, readOnly: set<string>)
      ensures entries == initial && locked == readOnly
    {
      entries := initial;
      locked := readOnly;
    }

    method Unlink(p: string)
      modifies this
      ensures entries == Unlinked(old(entries), locked, p)
    {
      entries := Unlinked(entries, locked, p);
    }

    method Rmdir(p: string)
      modifies this
      ensures entries == Rmdired(old(entries), locked, p)
    {
      entries := Rmdired(entries, locked, p);
    }

    method Mkdir(p: string)
      modifies this
      ensures entries == Mkdired(old(entries), locked, p)
    {
      entries := Mkdired(entries, locked, p);
    }

    method Copy(a: string, b: string)
      modifies this
      ensures entries == Copied(old(entries), locked, a, b)
    {
      entries := Copied(entries, locked, a, b);
    }

    method Rename(a: string, b: string)
      modifies this
      ensures entries == Renamed(old(entries), locked, a, b)
    {
      entries := Renamed(entries, locked, a, b);
    }

    /**
     * `FileUpload::move`: the uploaded temporary file lands at `dest`, or the
     * call throws `InvalidStateException` (reported as `ok == false`). The
     * temporary file itself lies outside the model.
     */
    method MoveUpload(dest: string) returns (ok: bool)
      modifies this
      ensures ok <==> dest !in locked && !IsDirAt(old(entries), dest)
      ensures entries == if ok then old(entries)[dest := IsFile] else old(entries)
    {
      ok := dest !in locked && !IsDirAt(entries, dest);
      if ok {
        entries := entries[dest := IsFile];
      }
    }
  }
}
