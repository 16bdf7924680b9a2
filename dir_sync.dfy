/**
 * The disk side of a directory. `Dir` creates its two directories (one under
 * the protected root, one under the public root) after it is persisted,
 * renames them after an update, and removes them bottom-up before it is
 * removed, with a check before and after every step. Its older twin
 * `DirEntity` does the same with the built-ins called bare.
 */
module DirSync {
  import opened Wrappers
  import opened Errors
  import opened Nodes
  import opened Forest
  import opened Walks
  import opened Storage
  import opened Entities
  import opened Sweeps
  import FileSync
  import FileEntitySync
  import Cache
  import Steps

  /** A directory's place under the protected root (`protected`) or the public root. */
  function DirPath(e: Node, protected: bool): string {
    FileSync.FilePathBy(e.roots, protected, e.path)
  }

  /** The same place for the path the directory had before (`oldPath`). */
  function OldDirPath(e: Node, protected: bool): string
    requires e.history.oldPath.Some?
  {
    FileSync.FilePathBy(e.roots, protected, e.history.oldPath.value)
  }

  /** What the removal of entity `x`, as it was in `e`, takes off the disk: both directories, or the file. */
  predicate Gone(e: Node, x: Key, t: Tree) {
    if x.D? then DirPath(e, true) !in t && DirPath(e, false) !in t else FileSync.FilePath(e) !in t
  }

  /** The exceptions a directory's removal may end with. */
  predicate RemovalError(e: Error) {
    e.PermissionDenied? || e.RemoveFile? || e.RemoveDirectory?
  }

  /** Every entity the walk from `c` reaches is marked removed in `m` and gone from `t`. */
  ghost predicate Swept(links: Links, depth: map<Key, nat>, m0: map<Key, Node>, m: map<Key, Node>, t: Tree, c: Key)
    requires Ranked(links, depth)
  {
    forall x :: x in links && Within(links, depth, x, c) && Live(links, depth, m0, x, c) ==>
      x in m0 && x in m && m[x].removed && Gone(m0[x], x, t)
  }

  /** `Swept` on the branches of `k` in `done`. */
  ghost predicate SweptBranches(links: Links, depth: map<Key, nat>, m0: map<Key, Node>, m: map<Key, Node>, t: Tree,
                                k: Key, done: set<Key>)
    requires Ranked(links, depth) && k in links
  {
    forall x :: x in links && Within(links, depth, x, k) && x != k && Branch(links, depth, x, k) in done && Live(links, depth, m0, x, k) ==>
      x in m0 && x in m && m[x].removed && Gone(m0[x], x, t)
  }

  /** A whole child's sweep, after the sweeps of the children in `done`, extends `done`. */
  lemma SweptStep(links: Links, depth: map<Key, nat>, m0: map<Key, Node>, m1: map<Key, Node>, m2: map<Key, Node>,
                  t1: Tree, t2: Tree, k: Key, done: set<Key>, c: Key)
    requires Ranked(links, depth) && k in links && c in links && links[c] == Some(k) && c !in done
    requires Untouched(links, depth, m0, m1, k, done) && SweptBranches(links, depth, m0, m1, t1, k, done)
    requires Outside(links, depth, m1, m2, c) && Swept(links, depth, m1, m2, t2, c) && Shrunk(t1, t2)
    ensures SweptBranches(links, depth, m0, m2, t2, k, done + {c})
  {
    UntouchedAgree(links, depth, m0, m1, k, done, c);
    forall x | x in links && Within(links, depth, x, k) && x != k && Branch(links, depth, x, k) in done + {c} && Live(links, depth, m0, x, k)
      ensures x in m0 && x in m2 && m2[x].removed && Gone(m0[x], x, t2)
    {
      BranchOf(links, depth, x, k, c);
      if Branch(links, depth, x, k) == c {
        LiveBelow(links, depth, m0, x, k, c);
        LiveAgree(links, depth, m0, m1, x, c);
      }
    }
  }

  /** Once every child is swept and the directory itself is gone, the whole subtree is swept. */
  lemma SweptFinish(links: Links, depth: map<Key, nat>, m0: map<Key, Node>, m: map<Key, Node>, t1: Tree, t2: Tree,
                    k: Key, done: set<Key>)
    requires Ranked(links, depth) && k in links && k in m0 && k in m
    requires SweptBranches(links, depth, m0, m, t1, k, done) && Shrunk(t1, t2)
    requires forall c :: c in links && links[c] == Some(k) ==> c in done
    requires m[k].removed && Gone(m0[k], k, t2)
    ensures Swept(links, depth, m0, m, t2, k)
  {
  }

  /** A walk stopped at its guard sweeps vacuously. */
  lemma SweptDead(links: Links, depth: map<Key, nat>, m0: map<Key, Node>, m: map<Key, Node>, t: Tree, k: Key)
    requires Ranked(links, depth) && k in m0 && m0[k].removed
    ensures Swept(links, depth, m0, m, t, k)
  {
    forall x | x in links ensures !Live(links, depth, m0, x, k) {
      DeadRoot(links, depth, m0, x, k);
    }
  }

  /** A file's own removal sweeps the one entity below it. */
  lemma FileSwept(links: Links, depth: map<Key, nat>, m1: map<Key, Node>, m2: map<Key, Node>, t: Tree, c: Key)
    requires Ranked(links, depth) && c in links && c.F? && c in m1
    requires !m1[c].removed ==> c in m2 && m2[c].removed && Gone(m1[c], c, t)
    ensures Swept(links, depth, m1, m2, t, c)
  {
    forall x | x in links && Within(links, depth, x, c) ensures x == c {
      WithinFile(links, depth, x, c);
    }
  }

  /** The disk entries the removal of `x`, as it was in `e`, takes away: both directories, or the file. */
  function Owned(e: Node, x: Key): set<string> {
    if x.D? then {DirPath(e, true), DirPath(e, false)} else {FileSync.FilePath(e)}
  }

  /** The walk from `k` reaches `y` in `m0`, and the removal of `y` may take the entry `q`. */
  ghost predicate Takes(links: Links, depth: map<Key, nat>, m0: map<Key, Node>, k: Key, y: Key, q: string)
    requires Ranked(links, depth)
  {
    y in links && Within(links, depth, y, k) && Live(links, depth, m0, y, k) && q in Owned(m0[y], y)
  }

  /** Between `t0` and `t` the walk from `k` removed only entries that some entity it reaches takes. */
  ghost predicate Confined(links: Links, depth: map<Key, nat>, m0: map<Key, Node>, t0: Tree, t: Tree, k: Key)
    requires Ranked(links, depth)
  {
    forall q :: q in t0 && q !in t ==> exists y :: Takes(links, depth, m0, k, y, q)
  }

  /** `Confined` to the branches of `k` in `done`. */
  ghost predicate Kept(links: Links, depth: map<Key, nat>, m0: map<Key, Node>, t0: Tree, t: Tree, k: Key, done: set<Key>)
    requires Ranked(links, depth) && k in links
  {
    forall q :: q in t0 && q !in t ==>
      exists y :: Takes(links, depth, m0, k, y, q) && y != k && Branch(links, depth, y, k) in done
  }

  /**
   * The removal of `y`, as it is in `e`, can succeed on `t`: a file may be
   * read and lies at its path unlocked; a directory's protected and public
   * directories are two unlocked directories.
   */
  predicate Ready(e: Node, y: Key, t: Tree, locked: set<string>) {
    if y.D? then
      var prot, pub := DirPath(e, true), DirPath(e, false);
      prot != pub && IsDirAt(t, prot) && IsDirAt(t, pub) && prot !in locked && pub !in locked
    else
      ReadAllowed(e) && IsFileAt(t, FileSync.FilePath(e)) && FileSync.FilePath(e) !in locked
  }

  /** `q` lies below the protected or the public directory of `e`. */
  predicate Inside(e: Node, q: string) {
    Below(q, DirPath(e, true)) || Below(q, DirPath(e, false))
  }

  /** The entry `q` below the directory `y` is taken by an entity below `y` that the walk from `k` reaches. */
  ghost predicate Covers(links: Links, depth: map<Key, nat>, m0: map<Key, Node>, k: Key, y: Key, z: Key, q: string)
    requires Ranked(links, depth)
  {
    Takes(links, depth, m0, k, z, q) && z != y && Within(links, depth, z, y)
  }

  /** The walk from `k` reaches `y` in `m0`. */
  ghost predicate Reached(links: Links, depth: map<Key, nat>, m0: map<Key, Node>, k: Key, y: Key)
    requires Ranked(links, depth)
  {
    y in links && Within(links, depth, y, k) && Live(links, depth, m0, y, k)
  }

  /**
   * A removal from `k` that cannot fail: every entity it reaches is `Ready`,
   * no disk entry is taken by two of them, and whatever lies below a reached
   * directory is taken by a reached entity below it.
   */
  ghost predicate Sweepable(links: Links, depth: map<Key, nat>, m0: map<Key, Node>, t0: Tree, locked: set<string>, k: Key)
    requires Ranked(links, depth)
  {
    && (forall y :: Reached(links, depth, m0, k, y) ==> Ready(m0[y], y, t0, locked))
    && (forall y, z, q :: Takes(links, depth, m0, k, y, q) && Takes(links, depth, m0, k, z, q) ==> y == z)
    && (forall y, q :: Reached(links, depth, m0, k, y) && y.D? && q in t0 && Inside(m0[y], q) ==>
          exists z :: Covers(links, depth, m0, k, y, z, q))
  }

  lemma {:induction false} WithinTrans(links: Links, depth: map<Key, nat>, z: Key, y: Key, c: Key)
    requires Ranked(links, depth) && z in links && y in links
    requires Within(links, depth, z, y) && Within(links, depth, y, c)
    ensures Within(links, depth, z, c)
    decreases depth[z]
  {
    if z != y {
      WithinTrans(links, depth, links[z].value, y, c);
    }
  }

  /** Reached from the child `c` of a live `k`, an entity is reached from `k`. */
  lemma {:induction false} LiveAbove(links: Links, depth: map<Key, nat>, m0: map<Key, Node>, y: Key, k: Key, c: Key)
    requires Ranked(links, depth) && y in links && c in links && links[c] == Some(k)
    requires k in m0 && !m0[k].removed
    requires Within(links, depth, y, c) && Live(links, depth, m0, y, c)
    ensures Live(links, depth, m0, y, k)
    decreases depth[y]
  {
    if y != c {
      LiveAbove(links, depth, m0, links[y].value, k, c);
    }
  }

  /** What the walk from the child `c` reaches in `m1`, the walk from a live `k` reaches in `m0`, unchanged. */
  lemma ReachedLift(links: Links, depth: map<Key, nat>, m0: map<Key, Node>, m1: map<Key, Node>, k: Key, c: Key, y: Key)
    requires Ranked(links, depth) && k in links && c in links && links[c] == Some(k)
    requires k in m0 && !m0[k].removed && AgreeBelow(links, depth, m0, m1, c)
    requires Reached(links, depth, m1, c, y)
    ensures Reached(links, depth, m0, k, y) && y != k && Branch(links, depth, y, k) == c && m1[y] == m0[y]
  {
    LiveAgree(links, depth, m0, m1, y, c);
    LiveAbove(links, depth, m0, y, k, c);
    BranchOf(links, depth, y, k, c);
  }

  /** An entity below the child `c` that the walk from `k` reaches, the walk from `c` reaches as well. */
  lemma ReachedDown(links: Links, depth: map<Key, nat>, m0: map<Key, Node>, m1: map<Key, Node>, k: Key, c: Key, z: Key)
    requires Ranked(links, depth) && k in links && c in links && links[c] == Some(k)
    requires AgreeBelow(links, depth, m0, m1, c)
    requires Reached(links, depth, m0, k, z) && Within(links, depth, z, c)
    ensures Reached(links, depth, m1, c, z) && m1[z] == m0[z]
  {
    LiveBelow(links, depth, m0, z, k, c);
    LiveAgree(links, depth, m0, m1, z, c);
  }

  /**
   * A removal from `k` that cannot fail still cannot fail from a child `c`
   * not yet visited, once the children in `done` are swept: the entries of
   * the branch of `c` are all still there.
   */
  lemma ChildSweepable(links: Links, depth: map<Key, nat>, m0: map<Key, Node>, m1: map<Key, Node>, t0: Tree, t1: Tree,
                       locked: set<string>, k: Key, done: set<Key>, c: Key)
    requires Ranked(links, depth) && k in links && c in links && links[c] == Some(k) && c !in done
    requires k in m0 && !m0[k].removed
    requires Untouched(links, depth, m0, m1, k, done) && Shrunk(t0, t1) && Kept(links, depth, m0, t0, t1, k, done)
    ensures Sweepable(links, depth, m0, t0, locked, k) ==> Sweepable(links, depth, m1, t1, locked, c)
  {
    if Sweepable(links, depth, m0, t0, locked, k) {
      UntouchedAgree(links, depth, m0, m1, k, done, c);
      forall y | Reached(links, depth, m1, c, y) ensures Ready(m1[y], y, t1, locked) {
        ReachedLift(links, depth, m0, m1, k, c, y);
        forall q | q in Owned(m0[y], y) ensures q in t1 {
          assert Takes(links, depth, m0, k, y, q);
        }
      }
      forall y, z, q | Takes(links, depth, m1, c, y, q) && Takes(links, depth, m1, c, z, q) ensures y == z {
        ReachedLift(links, depth, m0, m1, k, c, y);
        ReachedLift(links, depth, m0, m1, k, c, z);
        assert Takes(links, depth, m0, k, y, q) && Takes(links, depth, m0, k, z, q);
      }
      forall y, q | Reached(links, depth, m1, c, y) && y.D? && q in t1 && Inside(m1[y], q)
        ensures exists z :: Covers(links, depth, m1, c, y, z, q)
      {
        ReachedLift(links, depth, m0, m1, k, c, y);
        var z :| Covers(links, depth, m0, k, y, z, q);
        WithinTrans(links, depth, z, y, c);
        ReachedDown(links, depth, m0, m1, k, c, z);
        assert Covers(links, depth, m1, c, y, z, q);
      }
    }
  }

  lemma KeptMono(links: Links, depth: map<Key, nat>, m0: map<Key, Node>, t0: Tree, t: Tree, k: Key,
                 done: set<Key>, done': set<Key>)
    requires Ranked(links, depth) && k in links && done <= done'
    requires Kept(links, depth, m0, t0, t, k, done)
    ensures Kept(links, depth, m0, t0, t, k, done')
  {
    forall q | q in t0 && q !in t
      ensures exists y :: Takes(links, depth, m0, k, y, q) && y != k && Branch(links, depth, y, k) in done'
    {
      var y :| Takes(links, depth, m0, k, y, q) && y != k && Branch(links, depth, y, k) in done;
    }
  }

  /** A child's sweep, confined to what its walk reaches, keeps the walk from `k` confined to its visited branches. */
  lemma KeptStep(links: Links, depth: map<Key, nat>, m0: map<Key, Node>, m1: map<Key, Node>, t0: Tree, t1: Tree, t2: Tree,
                 k: Key, done: set<Key>, c: Key)
    requires Ranked(links, depth) && k in links && c in links && links[c] == Some(k)
    requires k in m0 && !m0[k].removed && AgreeBelow(links, depth, m0, m1, c)
    requires Kept(links, depth, m0, t0, t1, k, done) && Confined(links, depth, m1, t1, t2, c)
    ensures Kept(links, depth, m0, t0, t2, k, done + {c})
  {
    forall q | q in t0 && q !in t2
      ensures exists y :: Takes(links, depth, m0, k, y, q) && y != k && Branch(links, depth, y, k) in done + {c}
    {
      if q in t1 {
        var y :| Takes(links, depth, m1, c, y, q);
        ReachedLift(links, depth, m0, m1, k, c, y);
        assert Takes(links, depth, m0, k, y, q);
      } else {
        var y :| Takes(links, depth, m0, k, y, q) && y != k && Branch(links, depth, y, k) in done;
      }
    }
  }

  /** The end of the walk from a live `k` removes only its own directories, which keeps the walk confined. */
  lemma OwnConfined(links: Links, depth: map<Key, nat>, m0: map<Key, Node>, t0: Tree, t1: Tree, t2: Tree,
                    k: Key, done: set<Key>)
    requires Ranked(links, depth) && k in links && k in m0 && !m0[k].removed
    requires Kept(links, depth, m0, t0, t1, k, done)
    requires forall q :: q in t1 && q !in t2 ==> q in Owned(m0[k], k)
    ensures Confined(links, depth, m0, t0, t2, k)
  {
    forall q | q in t0 && q !in t2 ensures exists y :: Takes(links, depth, m0, k, y, q) {
      if q in t1 {
        assert Takes(links, depth, m0, k, k, q);
      } else {
        var y :| Takes(links, depth, m0, k, y, q) && y != k && Branch(links, depth, y, k) in done;
      }
    }
  }

  /**
   * Once every branch of a live `k` is swept, a removal that cannot fail
   * finds both its directories removable in turn: they are still there, and
   * whatever lay below them is gone.
   */
  lemma OwnRemovable(links: Links, depth: map<Key, nat>, m0: map<Key, Node>, m: map<Key, Node>, t0: Tree, t1: Tree,
                     locked: set<string>, k: Key, done: set<Key>)
    requires Ranked(links, depth) && k in links && k.D? && k in m0 && !m0[k].removed
    requires Shrunk(t0, t1) && Kept(links, depth, m0, t0, t1, k, done)
    requires SweptBranches(links, depth, m0, m, t1, k, done)
    requires forall c :: c in links && links[c] == Some(k) ==> c in done
    requires Sweepable(links, depth, m0, t0, locked, k)
    ensures Removable(t1, locked, DirPath(m0[k], true)) && Removable(t1 - {DirPath(m0[k], true)}, locked, DirPath(m0[k], false))
  {
    assert Reached(links, depth, m0, k, k);
    OwnPresent(links, depth, m0, t0, t1, locked, k, done);
    OwnEmptied(links, depth, m0, m, t0, t1, locked, k, done);
    DirsRemovable(m0[k], k, t0, t1, locked);
  }

  /** Whatever lay below the directories of a live `k` is gone once every branch is swept, when the removal cannot fail. */
  lemma OwnEmptied(links: Links, depth: map<Key, nat>, m0: map<Key, Node>, m: map<Key, Node>, t0: Tree, t1: Tree,
                   locked: set<string>, k: Key, done: set<Key>)
    requires Ranked(links, depth) && k in links && k.D? && k in m0 && !m0[k].removed
    requires SweptBranches(links, depth, m0, m, t1, k, done)
    requires forall c :: c in links && links[c] == Some(k) ==> c in done
    requires Sweepable(links, depth, m0, t0, locked, k)
    ensures forall q :: q in t0 && Inside(m0[k], q) ==> q !in t1
  {
    assert Reached(links, depth, m0, k, k);
    forall q | q in t0 && Inside(m0[k], q) ensures q !in t1 {
      var z :| Covers(links, depth, m0, k, k, z, q);
      assert Branch(links, depth, z, k) in done;
    }
  }

  /** A directory `Ready` on `t0` whose directories are still on `t1` with nothing left below them can be removed. */
  lemma DirsRemovable(e: Node, k: Key, t0: Tree, t1: Tree, locked: set<string>)
    requires k.D? && Ready(e, k, t0, locked) && Shrunk(t0, t1)
    requires forall q :: q in Owned(e, k) && q in t0 ==> q in t1
    requires forall q :: q in t0 && Inside(e, q) ==> q !in t1
    ensures Removable(t1, locked, DirPath(e, true)) && Removable(t1 - {DirPath(e, true)}, locked, DirPath(e, false))
  {
    assert DirPath(e, true) in Owned(e, k) && DirPath(e, false) in Owned(e, k);
  }

  /** Both directories of a live `k` outlast the sweeps of its branches when no other reached entity takes them. */
  lemma OwnPresent(links: Links, depth: map<Key, nat>, m0: map<Key, Node>, t0: Tree, t1: Tree,
                   locked: set<string>, k: Key, done: set<Key>)
    requires Ranked(links, depth) && k in links && k in m0 && !m0[k].removed
    requires Kept(links, depth, m0, t0, t1, k, done)
    requires Sweepable(links, depth, m0, t0, locked, k)
    ensures forall q :: q in Owned(m0[k], k) && q in t0 ==> q in t1
  {
    forall q | q in Owned(m0[k], k) && q in t0 ensures q in t1 {
      assert Takes(links, depth, m0, k, k, q);
    }
  }

  /** A live directory without children, `Ready` and with nothing below its directories, can always be removed. */
  lemma EmptySweepable(links: Links, depth: map<Key, nat>, m0: map<Key, Node>, t0: Tree, locked: set<string>, k: Key)
    requires Ranked(links, depth) && k in links && k.D? && k in m0 && !m0[k].removed
    requires forall c :: c in links ==> links[c] != Some(k)
    requires Ready(m0[k], k, t0, locked) && forall q :: q in t0 ==> !Inside(m0[k], q)
    ensures Sweepable(links, depth, m0, t0, locked, k)
  {
    forall y | y in links && Within(links, depth, y, k) ensures y == k {
      if y != k {
        var b := Branch(links, depth, y, k);
      }
    }
    assert Reached(links, depth, m0, k, k);
  }

  /** A file's removal takes at most its own file, and when it cannot fail the file is `Ready`. */
  lemma FileStep(links: Links, depth: map<Key, nat>, m1: map<Key, Node>, t1: Tree, t2: Tree, locked: set<string>, c: Key)
    requires Ranked(links, depth) && c in links && c.F? && c in m1
    requires forall q :: q in t1 && q !in t2 ==> !m1[c].removed && q == FileSync.FilePath(m1[c])
    ensures Confined(links, depth, m1, t1, t2, c)
    ensures Sweepable(links, depth, m1, t1, locked, c) && !m1[c].removed ==> Ready(m1[c], c, t1, locked)
  {
    forall q | q in t1 && q !in t2 ensures exists y :: Takes(links, depth, m1, c, y, q) {
      assert Takes(links, depth, m1, c, c, q);
    }
    if !m1[c].removed {
      assert Reached(links, depth, m1, c, c);
    }
  }

  /**
   * `Dir::preRemove`: a directory already marked removed is skipped;
   * otherwise it is marked, its child directories and then its files are
   * removed, and then its protected and its public directory are removed.
   * The first exception ends the walk. When none is thrown, every entity the
   * walk reached is marked removed and its directories or file are gone.
   */
  method PreRemove(st: Store, dk: Disk, k: Key) returns (r: Outcome<Error>)
    requires st.Valid() && k in st.nodes && k.D?
    modifies st`nodes, dk
    ensures st.Valid() && LinksOf(st.nodes) == LinksOf(old(st.nodes))
    ensures Consistent(old(st.nodes), st.webalize) ==> Consistent(st.nodes, st.webalize)
    ensures Outside(LinksOf(st.nodes), st.depth, old(st.nodes), st.nodes, k)
    ensures Shrunk(old(dk.entries), dk.entries)
    ensures old(st.nodes[k]).removed ==> r == Pass && st.nodes == old(st.nodes) && dk.entries == old(dk.entries)
    ensures !old(st.nodes[k]).removed ==> st.nodes[k] == old(st.nodes[k]).(removed := true)
    ensures r.Fail? ==> RemovalError(r.error)
    ensures r.Pass? ==> Swept(LinksOf(st.nodes), st.depth, old(st.nodes), st.nodes, dk.entries, k)
    ensures Confined(LinksOf(st.nodes), st.depth, old(st.nodes), old(dk.entries), dk.entries, k)
    ensures Sweepable(LinksOf(st.nodes), st.depth, old(st.nodes), old(dk.entries), dk.locked, k) ==> r.Pass?
    decreases st.bound - st.depth[k], 3
  {
    var e := st.nodes[k];
    if e.removed {
      SweptDead(LinksOf(st.nodes), st.depth, st.nodes, st.nodes, dk.entries, k);
      return Pass;
    }
    ghost var links := LinksOf(st.nodes);
    ghost var m0 := st.nodes;
    ghost var t0 := dk.entries;
    st.Put(k, e.(removed := true));
    OutsideAt(links, st.depth, m0, st.nodes, k);
    r := RemoveChildren(st, dk, k, links, m0, t0);
    ghost var all := st.Children(k, true) + st.Children(k, false);
    ghost var t1 := dk.entries;
    if r.Fail? {
      OwnConfined(links, st.depth, m0, t0, t1, t1, k, all);
      return;
    }
    if Sweepable(links, st.depth, m0, t0, dk.locked, k) {
      OwnRemovable(links, st.depth, m0, st.nodes, t0, t1, dk.locked, k, all);
    }
    r := RemoveOwn(dk, e);
    OwnConfined(links, st.depth, m0, t0, t1, dk.entries, k, all);
    if r.Pass? {
      SweptFinish(links, st.depth, m0, st.nodes, t1, dk.entries, k, all);
    }
  }

  /** The end of `Dir::preRemove`: `remove` of the protected, then of the public directory. */
  method RemoveOwn(dk: Disk, e: Node) returns (r: Outcome<Error>)
    modifies dk
    ensures Shrunk(old(dk.entries), dk.entries)
    ensures var prot, pub := DirPath(e, true), DirPath(e, false);
      && (r.Pass? <==> Removable(old(dk.entries), dk.locked, prot) && Removable(old(dk.entries) - {prot}, dk.locked, pub))
      && (r.Fail? ==> r.error.RemoveDirectory?)
      && (r.Pass? ==> dk.entries == old(dk.entries) - {prot, pub} && prot !in dk.entries && pub !in dk.entries)
    ensures forall q :: q in old(dk.entries) && q !in dk.entries ==> q == DirPath(e, true) || q == DirPath(e, false)
  {
    var prot, pub := DirPath(e, true), DirPath(e, false);
    r := Steps.RmdirChecked(dk, prot);
    if r.Fail? {
      return;
    }
    r := Steps.RmdirChecked(dk, pub);
  }

  /** The two loops of `Dir::preRemove`: the child directories, then the files. */
  method RemoveChildren(st: Store, dk: Disk, k: Key, ghost links: Links, ghost m0: map<Key, Node>, ghost t0: Tree)
    returns (r: Outcome<Error>)
    requires st.Valid() && LinksOf(st.nodes) == links && k in links
    requires Untouched(links, st.depth, m0, st.nodes, k, {}) && Shrunk(t0, dk.entries)
    requires Consistent(m0, st.webalize) ==> Consistent(st.nodes, st.webalize)
    requires k in m0 && !m0[k].removed && Kept(links, st.depth, m0, t0, dk.entries, k, {})
    modifies st`nodes, dk
    ensures st.Valid() && LinksOf(st.nodes) == links && st.nodes[k] == old(st.nodes[k])
    ensures Consistent(m0, st.webalize) ==> Consistent(st.nodes, st.webalize)
    ensures Outside(links, st.depth, m0, st.nodes, k) && Shrunk(t0, dk.entries)
    ensures r.Fail? ==> RemovalError(r.error)
    ensures r.Pass? ==> forall c :: c in links && links[c] == Some(k) ==> c in st.Children(k, true) + st.Children(k, false)
    ensures r.Pass? ==> SweptBranches(links, st.depth, m0, st.nodes, dk.entries, k, st.Children(k, true) + st.Children(k, false))
    ensures Kept(links, st.depth, m0, t0, dk.entries, k, st.Children(k, true) + st.Children(k, false))
    ensures Sweepable(links, st.depth, m0, t0, dk.locked, k) ==> r.Pass?
    decreases st.bound - st.depth[k], 2
  {
    var dirs := st.Children(k, true);
    r := RemoveAll(st, dk, k, dirs, links, {}, m0, t0);
    if r.Fail? {
      KeptMono(links, st.depth, m0, t0, dk.entries, k, dirs, dirs + st.Children(k, false));
      return;
    }
    var files := st.Children(k, false);
    r := RemoveAll(st, dk, k, files, links, dirs, m0, t0);
  }

  /** One loop of `Dir::preRemove` over the children `todo` of `k`. */
  method RemoveAll(st: Store, dk: Disk, k: Key, todo: set<Key>, ghost links: Links, ghost done: set<Key>,
                   ghost m0: map<Key, Node>, ghost t0: Tree) returns (r: Outcome<Error>)
    requires st.Valid() && LinksOf(st.nodes) == links && k in links
    requires forall c :: c in todo ==> c in links && links[c] == Some(k) && c !in done
    requires Untouched(links, st.depth, m0, st.nodes, k, done) && Shrunk(t0, dk.entries)
    requires SweptBranches(links, st.depth, m0, st.nodes, dk.entries, k, done)
    requires Consistent(m0, st.webalize) ==> Consistent(st.nodes, st.webalize)
    requires k in m0 && !m0[k].removed && Kept(links, st.depth, m0, t0, dk.entries, k, done)
    modifies st`nodes, dk
    ensures st.Valid() && LinksOf(st.nodes) == links && st.nodes[k] == old(st.nodes[k])
    ensures Consistent(m0, st.webalize) ==> Consistent(st.nodes, st.webalize)
    ensures Outside(links, st.depth, m0, st.nodes, k) && Shrunk(t0, dk.entries)
    ensures r.Fail? ==> RemovalError(r.error)
    ensures r.Pass? ==> Untouched(links, st.depth, m0, st.nodes, k, done + todo)
    ensures r.Pass? ==> SweptBranches(links, st.depth, m0, st.nodes, dk.entries, k, done + todo)
    ensures Kept(links, st.depth, m0, t0, dk.entries, k, done + todo)
    ensures Sweepable(links, st.depth, m0, t0, dk.locked, k) ==> r.Pass?
    decreases st.bound - st.depth[k], 1
  {
    ghost var finished := done;
    var rest := todo;
    r := Pass;
    while rest != {}
      invariant st.Valid() && LinksOf(st.nodes) == links && st.nodes[k] == old(st.nodes[k])
      invariant Consistent(m0, st.webalize) ==> Consistent(st.nodes, st.webalize)
      invariant r == Pass && rest <= todo && finished == done + (todo - rest)
      invariant Untouched(links, st.depth, m0, st.nodes, k, finished) && Shrunk(t0, dk.entries)
      invariant SweptBranches(links, st.depth, m0, st.nodes, dk.entries, k, finished)
      invariant Kept(links, st.depth, m0, t0, dk.entries, k, finished)
      decreases |rest|
    {
      var c :| c in rest;
      MoveOne(finished, done, todo, rest, c);
      r := RemoveChild(st, dk, k, c, links, finished, m0, t0);
      if r.Fail? {
        KeptMono(links, st.depth, m0, t0, dk.entries, k, finished + {c}, done + todo);
        return;
      }
      rest := rest - {c};
      finished := finished + {c};
    }
  }

  /** One child's `preRemove` inside the loops of `Dir::preRemove`. */
  method RemoveChild(st: Store, dk: Disk, k: Key, c: Key, ghost links: Links, ghost done: set<Key>,
                     ghost m0: map<Key, Node>, ghost t0: Tree) returns (r: Outcome<Error>)
    requires st.Valid() && LinksOf(st.nodes) == links && k in links
    requires c in links && links[c] == Some(k) && c !in done
    requires Untouched(links, st.depth, m0, st.nodes, k, done) && Shrunk(t0, dk.entries)
    requires SweptBranches(links, st.depth, m0, st.nodes, dk.entries, k, done)
    requires Consistent(m0, st.webalize) ==> Consistent(st.nodes, st.webalize)
    requires k in m0 && !m0[k].removed && Kept(links, st.depth, m0, t0, dk.entries, k, done)
    modifies st`nodes, dk
    ensures st.Valid() && LinksOf(st.nodes) == links && st.nodes[k] == old(st.nodes[k])
    ensures Consistent(m0, st.webalize) ==> Consistent(st.nodes, st.webalize)
    ensures Untouched(links, st.depth, m0, st.nodes, k, done + {c}) && Shrunk(t0, dk.entries)
    ensures r.Fail? ==> RemovalError(r.error)
    ensures r.Pass? ==> SweptBranches(links, st.depth, m0, st.nodes, dk.entries, k, done + {c})
    ensures Kept(links, st.depth, m0, t0, dk.entries, k, done + {c})
    ensures Sweepable(links, st.depth, m0, t0, dk.locked, k) ==> r.Pass?
    decreases st.bound - st.depth[k], 0
  {
    ghost var m1 := st.nodes;
    ghost var t1 := dk.entries;
    assert st.depth[k] < st.depth[c] <= st.bound;
    ChildSweepable(links, st.depth, m0, m1, t0, t1, dk.locked, k, done, c);
    if c.D? {
      r := PreRemove(st, dk, c);
    } else {
      r := SweepFile(st, dk, c);
    }
    ChildRemoved(links, st.depth, m0, m1, st.nodes, t0, t1, dk.entries, k, done, c, r.Pass?);
  }

  /** `File::preRemove` as a child's removal: only the file changes, and on success it is swept. */
  method SweepFile(st: Store, dk: Disk, c: Key) returns (r: Outcome<Error>)
    requires st.Valid() && c in st.nodes && c.F?
    modifies st`nodes, dk
    ensures st.Valid() && LinksOf(st.nodes) == LinksOf(old(st.nodes))
    ensures Consistent(old(st.nodes), st.webalize) ==> Consistent(st.nodes, st.webalize)
    ensures Outside(LinksOf(st.nodes), st.depth, old(st.nodes), st.nodes, c) && Shrunk(old(dk.entries), dk.entries)
    ensures r.Fail? ==> RemovalError(r.error)
    ensures r.Pass? ==> Swept(LinksOf(st.nodes), st.depth, old(st.nodes), st.nodes, dk.entries, c)
    ensures Confined(LinksOf(st.nodes), st.depth, old(st.nodes), old(dk.entries), dk.entries, c)
    ensures Sweepable(LinksOf(st.nodes), st.depth, old(st.nodes), old(dk.entries), dk.locked, c) ==> r.Pass?
  {
    ghost var links := LinksOf(st.nodes);
    ghost var m1 := st.nodes;
    ghost var t1 := dk.entries;
    r := FileSync.PreRemove(st, dk, c);
    OutsideAt(links, st.depth, m1, st.nodes, c);
    FileStep(links, st.depth, m1, t1, dk.entries, dk.locked, c);
    if r.Pass? {
      FileSwept(links, st.depth, m1, st.nodes, dk.entries, c);
    }
  }

  /** The bookkeeping after one child's removal: the visited set grows by `c`. */
  lemma ChildRemoved(links: Links, depth: map<Key, nat>, m0: map<Key, Node>, m1: map<Key, Node>, m2: map<Key, Node>,
                     t0: Tree, t1: Tree, t2: Tree, k: Key, done: set<Key>, c: Key, pass: bool)
    requires Ranked(links, depth) && k in links && c in links && links[c] == Some(k) && c !in done
    requires k in m1 && k in m2
    requires Untouched(links, depth, m0, m1, k, done) && Shrunk(t0, t1) && SweptBranches(links, depth, m0, m1, t1, k, done)
    requires Outside(links, depth, m1, m2, c) && Shrunk(t1, t2) && (pass ==> Swept(links, depth, m1, m2, t2, c))
    requires k in m0 && !m0[k].removed && Kept(links, depth, m0, t0, t1, k, done) && Confined(links, depth, m1, t1, t2, c)
    ensures m2[k] == m1[k] && Untouched(links, depth, m0, m2, k, done + {c}) && Shrunk(t0, t2)
    ensures pass ==> SweptBranches(links, depth, m0, m2, t2, k, done + {c})
    ensures Kept(links, depth, m0, t0, t2, k, done + {c})
  {
    WithinDeeper(links, depth, k, c);
    UntouchedStep(links, depth, m0, m1, m2, k, done, c);
    ShrunkTrans(t0, t1, t2);
    UntouchedAgree(links, depth, m0, m1, k, done, c);
    KeptStep(links, depth, m0, m1, t0, t1, t2, k, done, c);
    if pass {
      SweptStep(links, depth, m0, m1, m2, t1, t2, k, done, c);
    }
  }

  /** `@unlink` left the file of `e` on the disk only where it could not touch it. */
  predicate FileCleared(e: Node, t: Tree, locked: set<string>) {
    IsFileAt(t, FileSync.FilePath(e)) ==> FileSync.FilePath(e) in locked
  }

  /** Every file below `c` may be read and is off the disk unless locked. */
  ghost predicate Cleared(links: Links, depth: map<Key, nat>, m0: map<Key, Node>, t: Tree, locked: set<string>, c: Key)
    requires Ranked(links, depth)
  {
    forall x :: x in links && Within(links, depth, x, c) && x.F? ==> x in m0 && ReadAllowed(m0[x]) && FileCleared(m0[x], t, locked)
  }

  /** `Cleared` on the branches of `k` in `done`. */
  ghost predicate ClearedBranches(links: Links, depth: map<Key, nat>, m0: map<Key, Node>, t: Tree, locked: set<string>,
                                  k: Key, done: set<Key>)
    requires Ranked(links, depth) && k in links
  {
    forall x :: x in links && Within(links, depth, x, k) && x != k && Branch(links, depth, x, k) in done && x.F? ==>
      x in m0 && ReadAllowed(m0[x]) && FileCleared(m0[x], t, locked)
  }

  /** Every file below `c` passes its read check. */
  ghost predicate Readable(links: Links, depth: map<Key, nat>, m0: map<Key, Node>, c: Key)
    requires Ranked(links, depth)
  {
    forall x :: x in links && Within(links, depth, x, c) && x.F? ==> x in m0 && ReadAllowed(m0[x])
  }

  /** A child not yet visited has as readable a subtree as it had at the start. */
  lemma ReadableBelow(links: Links, depth: map<Key, nat>, m0: map<Key, Node>, m1: map<Key, Node>,
                      k: Key, done: set<Key>, c: Key)
    requires Ranked(links, depth) && k in links && c in links && links[c] == Some(k) && c !in done
    requires Untouched(links, depth, m0, m1, k, done) && Readable(links, depth, m0, k)
    ensures Readable(links, depth, m1, c)
  {
    UntouchedAgree(links, depth, m0, m1, k, done, c);
    forall x | x in links && Within(links, depth, x, c) && x.F? ensures x in m1 && ReadAllowed(m1[x]) {
      BranchOf(links, depth, x, k, c);
    }
  }

  /** The bookkeeping after one child's `DirEntity`/`FileEntity` removal. */
  lemma ChildCleared(links: Links, depth: map<Key, nat>, m0: map<Key, Node>, m1: map<Key, Node>, m2: map<Key, Node>,
                     t0: Tree, t1: Tree, t2: Tree, locked: set<string>, k: Key, done: set<Key>, c: Key, pass: bool)
    requires Ranked(links, depth) && k in links && c in links && links[c] == Some(k) && c !in done
    requires k in m1 && k in m2
    requires Untouched(links, depth, m0, m1, k, done) && Shrunk(t0, t1) && ClearedBranches(links, depth, m0, t1, locked, k, done)
    requires Outside(links, depth, m1, m2, c) && Shrunk(t1, t2) && (pass ==> Cleared(links, depth, m1, t2, locked, c))
    ensures m2[k] == m1[k] && Untouched(links, depth, m0, m2, k, done + {c}) && Shrunk(t0, t2)
    ensures pass ==> ClearedBranches(links, depth, m0, t2, locked, k, done + {c})
  {
    WithinDeeper(links, depth, k, c);
    UntouchedStep(links, depth, m0, m1, m2, k, done, c);
    ShrunkTrans(t0, t1, t2);
    if pass {
      UntouchedAgree(links, depth, m0, m1, k, done, c);
      forall x | x in links && Within(links, depth, x, k) && x != k && Branch(links, depth, x, k) in done + {c} && x.F?
        ensures x in m0 && ReadAllowed(m0[x]) && FileCleared(m0[x], t2, locked)
      {
        BranchOf(links, depth, x, k, c);
      }
    }
  }

  /** Once every child is cleared, the whole subtree is. */
  lemma ClearedFinish(links: Links, depth: map<Key, nat>, m0: map<Key, Node>, t1: Tree, t2: Tree, locked: set<string>,
                      k: Key, done: set<Key>)
    requires Ranked(links, depth) && k in links && k.D?
    requires ClearedBranches(links, depth, m0, t1, locked, k, done) && Shrunk(t1, t2)
    requires forall c :: c in links && links[c] == Some(k) ==> c in done
    ensures Cleared(links, depth, m0, t2, locked, k)
  {
  }

  /** The files `Purge` leaves were all there before. */
  lemma PurgeShrinks(t: Tree, locked: set<string>, dir: string, name: string)
    ensures Shrunk(t, Cache.Purged(t, locked, dir, name))
  {
    Cache.PurgedConfined(t, locked, dir, name);
  }

  /**
   * `DirEntity::preRemove`: no guard against a second call; the child
   * directories and then the files are removed, and then both directories
   * are `@rmdir`ed, failures ignored. Only a file's read check can throw,
   * so the walk completes exactly when every file below may be read, and
   * then every such file is off the disk unless it is locked.
   */
  method EntityPreRemove(st: Store, dk: Disk, k: Key) returns (r: Outcome<Error>)
    requires st.Valid() && k in st.nodes && k.D?
    modifies st`nodes, dk
    ensures st.Valid() && LinksOf(st.nodes) == LinksOf(old(st.nodes)) && st.nodes[k] == old(st.nodes[k])
    ensures Consistent(old(st.nodes), st.webalize) ==> Consistent(st.nodes, st.webalize)
    ensures Outside(LinksOf(st.nodes), st.depth, old(st.nodes), st.nodes, k) && Shrunk(old(dk.entries), dk.entries)
    ensures r.Fail? ==> r.error == PermissionDenied
    ensures Readable(LinksOf(st.nodes), st.depth, old(st.nodes), k) ==> r.Pass?
    ensures r.Pass? ==> Cleared(LinksOf(st.nodes), st.depth, old(st.nodes), dk.entries, dk.locked, k)
    decreases st.bound - st.depth[k], 3
  {
    ghost var links := LinksOf(st.nodes);
    ghost var m0 := st.nodes;
    ghost var t0 := dk.entries;
    r := EntityRemoveChildren(st, dk, k, links, m0, t0);
    if r.Fail? {
      return;
    }
    ghost var t1 := dk.entries;
    var e := st.nodes[k];
    dk.Rmdir(DirPath(e, true));
    dk.Rmdir(DirPath(e, false));
    ClearedFinish(links, st.depth, m0, t1, dk.entries, dk.locked, k, st.Children(k, true) + st.Children(k, false));
  }

  /** The two loops of `DirEntity::preRemove`: the child directories, then the files. */
  method EntityRemoveChildren(st: Store, dk: Disk, k: Key, ghost links: Links, ghost m0: map<Key, Node>, ghost t0: Tree)
    returns (r: Outcome<Error>)
    requires st.Valid() && LinksOf(st.nodes) == links && k in links
    requires st.nodes == m0 && dk.entries == t0
    modifies st`nodes, dk
    ensures st.Valid() && LinksOf(st.nodes) == links && st.nodes[k] == old(st.nodes[k])
    ensures Consistent(m0, st.webalize) ==> Consistent(st.nodes, st.webalize)
    ensures Outside(links, st.depth, m0, st.nodes, k) && Shrunk(t0, dk.entries)
    ensures r.Fail? ==> r.error == PermissionDenied
    ensures Readable(links, st.depth, m0, k) ==> r.Pass?
    ensures r.Pass? ==> forall c :: c in links && links[c] == Some(k) ==> c in st.Children(k, true) + st.Children(k, false)
    ensures r.Pass? ==> ClearedBranches(links, st.depth, m0, dk.entries, dk.locked, k, st.Children(k, true) + st.Children(k, false))
    decreases st.bound - st.depth[k], 2
  {
    var dirs := st.Children(k, true);
    r := EntityRemoveAll(st, dk, k, dirs, links, {}, m0, t0);
    if r.Fail? {
      return;
    }
    var files := st.Children(k, false);
    r := EntityRemoveAll(st, dk, k, files, links, dirs, m0, t0);
  }

  /** One loop of `DirEntity::preRemove` over the children `todo` of `k`. */
  method EntityRemoveAll(st: Store, dk: Disk, k: Key, todo: set<Key>, ghost links: Links, ghost done: set<Key>,
                         ghost m0: map<Key, Node>, ghost t0: Tree) returns (r: Outcome<Error>)
    requires st.Valid() && LinksOf(st.nodes) == links && k in links
    requires forall c :: c in todo ==> c in links && links[c] == Some(k) && c !in done
    requires Untouched(links, st.depth, m0, st.nodes, k, done) && Shrunk(t0, dk.entries)
    requires ClearedBranches(links, st.depth, m0, dk.entries, dk.locked, k, done)
    requires Consistent(m0, st.webalize) ==> Consistent(st.nodes, st.webalize)
    modifies st`nodes, dk
    ensures st.Valid() && LinksOf(st.nodes) == links && st.nodes[k] == old(st.nodes[k])
    ensures Consistent(m0, st.webalize) ==> Consistent(st.nodes, st.webalize)
    ensures Outside(links, st.depth, m0, st.nodes, k) && Shrunk(t0, dk.entries)
    ensures r.Fail? ==> r.error == PermissionDenied
    ensures Readable(links, st.depth, m0, k) ==> r.Pass?
    ensures r.Pass? ==> Untouched(links, st.depth, m0, st.nodes, k, done + todo)
    ensures r.Pass? ==> ClearedBranches(links, st.depth, m0, dk.entries, dk.locked, k, done + todo)
    decreases st.bound - st.depth[k], 1
  {
    ghost var finished := done;
    var rest := todo;
    r := Pass;
    while rest != {}
      invariant st.Valid() && LinksOf(st.nodes) == links && st.nodes[k] == old(st.nodes[k])
      invariant Consistent(m0, st.webalize) ==> Consistent(st.nodes, st.webalize)
      invariant r == Pass && rest <= todo && finished == done + (todo - rest)
      invariant Untouched(links, st.depth, m0, st.nodes, k, finished) && Shrunk(t0, dk.entries)
      invariant ClearedBranches(links, st.depth, m0, dk.entries, dk.locked, k, finished)
      decreases |rest|
    {
      var c :| c in rest;
      MoveOne(finished, done, todo, rest, c);
      r := EntityRemoveChild(st, dk, k, c, links, finished, m0, t0);
      if r.Fail? {
        return;
      }
      rest := rest - {c};
      finished := finished + {c};
    }
  }

  /** One child's `preRemove` inside the loops of `DirEntity::preRemove`. */
  method EntityRemoveChild(st: Store, dk: Disk, k: Key, c: Key, ghost links: Links, ghost done: set<Key>,
                           ghost m0: map<Key, Node>, ghost t0: Tree) returns (r: Outcome<Error>)
    requires st.Valid() && LinksOf(st.nodes) == links && k in links
    requires c in links && links[c] == Some(k) && c !in done
    requires Untouched(links, st.depth, m0, st.nodes, k, done) && Shrunk(t0, dk.entries)
    requires ClearedBranches(links, st.depth, m0, dk.entries, dk.locked, k, done)
    requires Consistent(m0, st.webalize) ==> Consistent(st.nodes, st.webalize)
    modifies st`nodes, dk
    ensures st.Valid() && LinksOf(st.nodes) == links && st.nodes[k] == old(st.nodes[k])
    ensures Consistent(m0, st.webalize) ==> Consistent(st.nodes, st.webalize)
    ensures Untouched(links, st.depth, m0, st.nodes, k, done + {c}) && Shrunk(t0, dk.entries)
    ensures r.Fail? ==> r.error == PermissionDenied
    ensures Readable(links, st.depth, m0, k) ==> r.Pass?
    ensures r.Pass? ==> ClearedBranches(links, st.depth, m0, dk.entries, dk.locked, k, done + {c})
    decreases st.bound - st.depth[k], 0
  {
    ghost var m1 := st.nodes;
    ghost var t1 := dk.entries;
    assert st.depth[k] < st.depth[c] <= st.bound;
    if Readable(links, st.depth, m0, k) {
      ReadableBelow(links, st.depth, m0, m1, k, done, c);
    }
    if c.D? {
      r := EntityPreRemove(st, dk, c);
    } else {
      r := EntitySweepFile(st, dk, c);
    }
    ChildCleared(links, st.depth, m0, m1, st.nodes, t0, t1, dk.entries, dk.locked, k, done, c, r.Pass?);
  }

  /** `FileEntity::preRemove` as a child's removal: only the file changes, and on success it is cleared. */
  method EntitySweepFile(st: Store, dk: Disk, c: Key) returns (r: Outcome<Error>)
    requires st.Valid() && c in st.nodes && c.F?
    modifies st`nodes, dk
    ensures st.Valid() && LinksOf(st.nodes) == LinksOf(old(st.nodes))
    ensures Consistent(old(st.nodes), st.webalize) ==> Consistent(st.nodes, st.webalize)
    ensures Outside(LinksOf(st.nodes), st.depth, old(st.nodes), st.nodes, c) && Shrunk(old(dk.entries), dk.entries)
    ensures r.Fail? ==> r.error == PermissionDenied
    ensures Readable(LinksOf(st.nodes), st.depth, old(st.nodes), c) ==> r.Pass?
    ensures r.Pass? ==> Cleared(LinksOf(st.nodes), st.depth, old(st.nodes), dk.entries, dk.locked, c)
  {
    ghost var links := LinksOf(st.nodes);
    ghost var m1 := st.nodes;
    ghost var t1 := dk.entries;
    var e := st.nodes[c];
    r := FileEntitySync.PreRemove(st, dk, c);
    OutsideAt(links, st.depth, m1, st.nodes, c);
    ghost var t2 := Unlinked(t1, dk.locked, FileSync.FilePath(e));
    PurgeShrinks(t2, dk.locked, Cache.CacheDir(e.roots.publicDir), e.name);
    forall x | x in links && Within(links, st.depth, x, c) ensures x == c {
      WithinFile(links, st.depth, x, c);
    }
  }

  /**
   * `Dir::postPersist`: `create` of the protected, then of the public
   * directory; each must not be a directory before and must be one after.
   */
  method PostPersist(dk: Disk, e: Node) returns (r: Outcome<Error>)
    modifies dk
    ensures var prot, pub, t0 := DirPath(e, true), DirPath(e, false), old(dk.entries);
      && (prot in t0 || prot in dk.locked ==>
            r == Fail(CreateDirectory(prot, if IsDirAt(t0, prot) then Present else Missing)) && dk.entries == t0)
      && (prot !in t0 && prot !in dk.locked ==>
            var t1 := t0[prot := IsDir];
            && (r.Pass? <==> pub !in t1 && pub !in dk.locked)
            && (r.Fail? ==> r == Fail(CreateDirectory(pub, if IsDirAt(t1, pub) then Present else Missing)))
            && dk.entries == if r.Pass? then t1[pub := IsDir] else t1)
    ensures r.Pass? ==> IsDirAt(dk.entries, DirPath(e, true)) && IsDirAt(dk.entries, DirPath(e, false))
  {
    r := Steps.MkdirChecked(dk, DirPath(e, true));
    if r.Fail? {
      return;
    }
    r := Steps.MkdirChecked(dk, DirPath(e, false));
  }

  /** The guards of `Dir::rename` let `rename(a, b)` go ahead and find it done: a file at `a`, nothing at `b`, neither locked. */
  predicate FileRenamable(t: Tree, locked: set<string>, a: string, b: string) {
    IsFileAt(t, a) && b !in t && a !in locked && b !in locked
  }

  /**
   * `Dir::postUpdate` as written: with a previous path, `rename` from the
   * old to the new protected directory, then the same for the public one.
   * `Dir::rename` guards with `is_file`, so it accepts only files, and the
   * directory of a renamed or moved `Dir` is never renamed.
   */
  method PostUpdate(dk: Disk, e: Node) returns (r: Outcome<Error>)
    modifies dk
    ensures !TruthyOpt(e.history.oldPath) ==> r == Pass && dk.entries == old(dk.entries)
    ensures TruthyOpt(e.history.oldPath) ==>
      var a1, b1, a2, b2 := OldDirPath(e, true), DirPath(e, true), OldDirPath(e, false), DirPath(e, false);
      var t0 := old(dk.entries);
      var t1 := (t0 - {a1})[b1 := IsFile];
      && (!IsFileAt(t0, a1) ==> r == Fail(RenameDirectory(a1, Missing)))
      && (r.Pass? <==> FileRenamable(t0, dk.locked, a1, b1) && FileRenamable(t1, dk.locked, a2, b2))
      && dk.entries == if r.Pass? then (t1 - {a2})[b2 := IsFile] else if FileRenamable(t0, dk.locked, a1, b1) then t1 else t0
  {
    if !TruthyOpt(e.history.oldPath) {
      return Pass;
    }
    r := Steps.RenameChecked(dk, OldDirPath(e, true), DirPath(e, true), (p, w) => RenameDirectory(p, w));
    if r.Fail? {
      return;
    }
    r := Steps.RenameChecked(dk, OldDirPath(e, false), DirPath(e, false), (p, w) => RenameDirectory(p, w));
  }

  /** As written, `postUpdate` refuses a directory that `rename` could move. */
  lemma PostUpdateRefusesDirectory()
    ensures var t := map["/p/a" := IsDir];
      && IsDirAt(t, "/p/a") && !IsFileAt(t, "/p/a") && !FileRenamable(t, {}, "/p/a", "/p/b")
      && CanRename(t, {}, "/p/a", "/p/b")
  {
    var t := map["/p/a" := IsDir];
    assert !Below("/p/b", "/p/a") by {
      assert ("/p/b")[3] != ("/p/a" + "/")[3];
    }
    assert !AtOrBelow("/p/a", "/p/b") by {
      assert ("/p/a")[3] != ("/p/b" + "/")[3];
    }
  }

  /**
   * `Dir::rename` with the guards `is_dir` that its callers need: a
   * directory at `a` before; the directory gone from `a` and present at `b`
   * after.
   */
  method RenameDirChecked(dk: Disk, a: string, b: string) returns (r: Outcome<Error>)
    modifies dk
    ensures r.Pass? <==> IsDirAt(old(dk.entries), a) && !IsDirAt(old(dk.entries), b) && CanRename(old(dk.entries), dk.locked, a, b)
    ensures !IsDirAt(old(dk.entries), a) ==> r == Fail(RenameDirectory(a, Missing))
    ensures IsDirAt(old(dk.entries), a) && IsDirAt(old(dk.entries), b) ==> r == Fail(RenameDirectory(b, Present))
    ensures r.Fail? ==> r.error.RenameDirectory?
    ensures dk.entries == if r.Pass? then Renamed(old(dk.entries), dk.locked, a, b) else old(dk.entries)
  {
    if !IsDirAt(dk.entries, a) {
      return Fail(RenameDirectory(a, Missing));
    }
    if IsDirAt(dk.entries, b) {
      return Fail(RenameDirectory(b, Present));
    }
    dk.Rename(a, b);
    if IsDirAt(dk.entries, a) {
      return Fail(RenameDirectory(a, Present));
    }
    if !IsDirAt(dk.entries, b) {
      return Fail(RenameDirectory(b, Missing));
    }
    r := Pass;
  }

  /** A directory at `a` that `rename` can move to `b`, where no directory lies yet. */
  predicate DirRenamable(t: Tree, locked: set<string>, a: string, b: string) {
    IsDirAt(t, a) && !IsDirAt(t, b) && CanRename(t, locked, a, b)
  }

  /**
   * `Dir::postUpdate` with the corrected guards: both directories, and
   * everything in them, move from the old path to the new one.
   */
  method PostUpdateCorrected(dk: Disk, e: Node) returns (r: Outcome<Error>)
    modifies dk
    ensures !TruthyOpt(e.history.oldPath) ==> r == Pass && dk.entries == old(dk.entries)
    ensures TruthyOpt(e.history.oldPath) ==>
      var a1, b1, a2, b2 := OldDirPath(e, true), DirPath(e, true), OldDirPath(e, false), DirPath(e, false);
      var t0 := old(dk.entries);
      var t1 := Renamed(t0, dk.locked, a1, b1);
      && (!IsDirAt(t0, a1) ==> r == Fail(RenameDirectory(a1, Missing)))
      && (r.Pass? <==> DirRenamable(t0, dk.locked, a1, b1) && DirRenamable(t1, dk.locked, a2, b2))
      && dk.entries == if r.Pass? then Renamed(t1, dk.locked, a2, b2) else if DirRenamable(t0, dk.locked, a1, b1) then t1 else t0
  {
    if !TruthyOpt(e.history.oldPath) {
      return Pass;
    }
    r := RenameDirChecked(dk, OldDirPath(e, true), DirPath(e, true));
    if r.Fail? {
      return;
    }
    r := RenameDirChecked(dk, OldDirPath(e, false), DirPath(e, false));
  }

  /**
   * `DirEntity::preUpdate`: with a previous path, each old directory that
   * exists is renamed to the new one; without, each directory that does not
   * exist is created (`@mkdir`, failures ignored).
   */
  method EntityPreUpdate(dk: Disk, e: Node)
    modifies dk
    ensures var prot, pub, t0 := DirPath(e, true), DirPath(e, false), old(dk.entries);
      && (TruthyOpt(e.history.oldPath) ==>
            dk.entries == Renamed(Renamed(t0, dk.locked, OldDirPath(e, true), prot), dk.locked, OldDirPath(e, false), pub))
      && (!TruthyOpt(e.history.oldPath) ==> dk.entries == Mkdired(Mkdired(t0, dk.locked, prot), dk.locked, pub))
    ensures !TruthyOpt(e.history.oldPath) ==>
      && (forall q :: q in old(dk.entries) ==> q in dk.entries && dk.entries[q] == old(dk.entries)[q])
      && (DirPath(e, true) !in dk.locked ==> DirPath(e, true) in dk.entries)
      && (DirPath(e, false) !in dk.locked ==> DirPath(e, false) in dk.entries)
  {
    var prot, pub := DirPath(e, true), DirPath(e, false);
    if TruthyOpt(e.history.oldPath) {
      var oldProt, oldPub := OldDirPath(e, true), OldDirPath(e, false);
      if oldProt in dk.entries {
        dk.Rename(oldProt, prot);
      }
      if oldPub in dk.entries {
        dk.Rename(oldPub, pub);
      }
      return;
    }
    if prot !in dk.entries {
      dk.Mkdir(prot);
    }
    if pub !in dk.entries {
      dk.Mkdir(pub);
    }
  }
}
