/**
 * Facts about the bottom-up removal walks (`Dir::preRemove`,
 * `DirEntity::preRemove`): a walk over the children of a directory changes
 * nothing but the subtrees of the children it has visited, a disk that only
 * loses entries, and the `removed` flags that stop `Dir::preRemove` from
 * descending twice.
 */
module Sweeps {
  import opened Wrappers
  import opened Nodes
  import opened Forest
  import opened Storage

  /** The disk `t` results from `t0` by deletions only. */
  ghost predicate Shrunk(t0: Tree, t: Tree) {
    t.Keys <= t0.Keys && forall q :: q in t ==> t[q] == t0[q]
  }

  lemma ShrunkTrans(t0: Tree, t1: Tree, t2: Tree)
    requires Shrunk(t0, t1) && Shrunk(t1, t2)
    ensures Shrunk(t0, t2)
  {
  }

  /**
   * Between `m0` and `m` only `k` and the subtrees of its children in `done`
   * may have changed.
   */
  ghost predicate Untouched(links: Links, depth: map<Key, nat>, m0: map<Key, Node>, m: map<Key, Node>, k: Key, done: set<Key>)
    requires Ranked(links, depth) && k in links
  {
    && Outside(links, depth, m0, m, k)
    && forall x :: x in links && Within(links, depth, x, k) && x != k && Branch(links, depth, x, k) !in done ==>
         x in m0 && x in m && m[x] == m0[x]
  }

  /** `m0` and `m` agree on the whole subtree of `c`. */
  ghost predicate AgreeBelow(links: Links, depth: map<Key, nat>, m0: map<Key, Node>, m: map<Key, Node>, c: Key)
    requires Ranked(links, depth)
  {
    forall y :: y in links && Within(links, depth, y, c) ==> y in m0 && y in m && m[y] == m0[y]
  }

  /** A child not yet visited still holds its subtree as it was. */
  lemma UntouchedAgree(links: Links, depth: map<Key, nat>, m0: map<Key, Node>, m1: map<Key, Node>,
                       k: Key, done: set<Key>, c: Key)
    requires Ranked(links, depth) && k in links && c in links && links[c] == Some(k) && c !in done
    requires Untouched(links, depth, m0, m1, k, done)
    ensures AgreeBelow(links, depth, m0, m1, c)
  {
    forall y | y in links && Within(links, depth, y, c) ensures y in m0 && y in m1 && m1[y] == m0[y] {
      BranchOf(links, depth, y, k, c);
    }
  }

  /** Visiting one more child, with changes confined to its subtree, extends the visited set. */
  lemma UntouchedStep(links: Links, depth: map<Key, nat>, m0: map<Key, Node>, m1: map<Key, Node>, m2: map<Key, Node>,
                      k: Key, done: set<Key>, c: Key)
    requires Ranked(links, depth) && k in links && c in links && links[c] == Some(k) && c !in done
    requires Untouched(links, depth, m0, m1, k, done) && Outside(links, depth, m1, m2, c)
    ensures Untouched(links, depth, m0, m2, k, done + {c})
  {
    OutsideStep(links, depth, m0, m1, m2, k, c);
    forall x | x in links && Within(links, depth, x, k) && x != k && Branch(links, depth, x, k) !in done + {c}
      ensures x in m0 && x in m2 && m2[x] == m0[x]
    {
      BranchOf(links, depth, x, k, c);
    }
  }

  /**
   * `x` is reached by `Dir::preRemove` started at `k`: neither `x` nor any
   * directory between `k` and `x` was already marked removed, so the walk
   * descends all the way and does not stop at its guard.
   */
  ghost predicate Live(links: Links, depth: map<Key, nat>, m0: map<Key, Node>, x: Key, k: Key)
    requires Ranked(links, depth) && x in links
    decreases depth[x]
  {
    x in m0 && !m0[x].removed && (x == k || (links[x].Some? && Live(links, depth, m0, links[x].value, k)))
  }

  /** Reached from `k`, a node below the child `c` is reached from `c`. */
  lemma {:induction false} LiveBelow(links: Links, depth: map<Key, nat>, m0: map<Key, Node>, x: Key, k: Key, c: Key)
    requires Ranked(links, depth) && x in links && c in links && links[c] == Some(k)
    requires Within(links, depth, x, c)
    ensures Live(links, depth, m0, x, k) ==> Live(links, depth, m0, x, c)
    decreases depth[x]
  {
    WithinDeeper(links, depth, x, c);
    if x != c {
      LiveBelow(links, depth, m0, links[x].value, k, c);
    }
  }

  /** Being reached from `c` depends only on the subtree of `c`. */
  lemma {:induction false} LiveAgree(links: Links, depth: map<Key, nat>, m0: map<Key, Node>, m1: map<Key, Node>, x: Key, c: Key)
    requires Ranked(links, depth) && x in links && Within(links, depth, x, c)
    requires AgreeBelow(links, depth, m0, m1, c)
    ensures Live(links, depth, m0, x, c) == Live(links, depth, m1, x, c)
    decreases depth[x]
  {
    if x != c {
      LiveAgree(links, depth, m0, m1, links[x].value, c);
    }
  }

  /** A walk that starts at an entity already marked removed reaches nothing. */
  lemma {:induction false} DeadRoot(links: Links, depth: map<Key, nat>, m0: map<Key, Node>, x: Key, k: Key)
    requires Ranked(links, depth) && x in links && k in m0 && m0[k].removed
    ensures !Live(links, depth, m0, x, k)
    decreases depth[x]
  {
    if x != k && links[x].Some? {
      DeadRoot(links, depth, m0, links[x].value, k);
    }
  }

  /** Below a file there is nothing but the file. */
  lemma WithinFile(links: Links, depth: map<Key, nat>, x: Key, c: Key)
    requires Ranked(links, depth) && x in links && c.F? && Within(links, depth, x, c)
    ensures x == c
  {
    WithinDeeper(links, depth, x, c);
  }
}
