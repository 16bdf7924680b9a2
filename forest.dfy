/**
 * The directory tree formed by the entities' parent pointers, and the facts
 * about top-down traversals (`Dir::generatePath`,
 * `Dir::setPermissionRecursively`) that the store's recursive methods use.
 *
 * A ghost depth ranks every entity strictly below its parent; this is what
 * makes a walk up the parent chain and a walk down the children terminate.
 */
module Forest {
  import opened Wrappers
  import opened Nodes

  type Links = map<Key, Option<Key>>

  /** The parent pointer of every entity. */
  function LinksOf(m: map<Key, Node>): (l: Links)
    ensures l.Keys == m.Keys
    ensures forall k :: k in m ==> l[k] == m[k].parent
  {
    map k | k in m :: m[k].parent
  }

  lemma LinksOfUpdate(m: map<Key, Node>, k: Key, e: Node)
    ensures LinksOf(m[k := e]) == LinksOf(m)[k := e.parent]
  {
  }

  /** Replacing an entity by one with the same parent leaves the links as they were. */
  lemma SameLinks(m: map<Key, Node>, k: Key, e: Node)
    requires k in m && e.parent == m[k].parent
    ensures LinksOf(m[k := e]) == LinksOf(m)
  {
    LinksOfUpdate(m, k, e);
  }

  /** A second replacement of the same entity overrides the first. */
  lemma Overwrite(m0: map<Key, Node>, m1: map<Key, Node>, k: Key, e: Node)
    requires k in m0 && m1.Keys == m0.Keys && forall x :: x in m0 && x != k ==> m1[x] == m0[x]
    ensures m1[k := e] == m0[k := e]
  {
  }

  /** Every parent is a directory of the forest, ranked strictly shallower than its child. */
  ghost predicate Ranked(links: Links, depth: map<Key, nat>) {
    && links.Keys <= depth.Keys
    && forall k :: k in links ==>
      (links[k].Some? ==> links[k].value in links && links[k].value.D? && depth[links[k].value] < depth[k])
  }

  ghost predicate Bounded(links: Links, depth: map<Key, nat>, bound: nat) {
    forall k :: k in links && k in depth ==> depth[k] <= bound
  }

  /** `x` is `k` or lies somewhere below it. */
  ghost predicate Within(links: Links, depth: map<Key, nat>, x: Key, k: Key)
    requires Ranked(links, depth) && x in links
    decreases depth[x]
  {
    x == k || (links[x].Some? && Within(links, depth, links[x].value, k))
  }

  /** The child of `k` on the way from `k` down to `x`. */
  ghost function Branch(links: Links, depth: map<Key, nat>, x: Key, k: Key): (b: Key)
    requires Ranked(links, depth) && x in links && Within(links, depth, x, k) && x != k
    ensures b in links && links[b] == Some(k) && Within(links, depth, x, b)
    decreases depth[x]
  {
    if links[x] == Some(k) then x else Branch(links, depth, links[x].value, k)
  }

  lemma {:induction false} WithinDeeper(links: Links, depth: map<Key, nat>, x: Key, k: Key)
    requires Ranked(links, depth) && x in links
    ensures Within(links, depth, x, k) ==> k in links && depth[k] <= depth[x]
    ensures Within(links, depth, x, k) && x != k ==> k.D? && depth[k] < depth[x]
    decreases depth[x]
  {
    if x != k && links[x].Some? {
      WithinDeeper(links, depth, links[x].value, k);
    }
  }

  /** Whatever lies below a child of `k` lies below `k`, on that child's branch. */
  lemma {:induction false} BranchOf(links: Links, depth: map<Key, nat>, x: Key, k: Key, c: Key)
    requires Ranked(links, depth) && x in links && c in links && links[c] == Some(k)
    ensures Within(links, depth, x, c) ==>
      Within(links, depth, x, k) && x != k && Branch(links, depth, x, k) == c
    decreases depth[x]
  {
    if x != c && links[x].Some? {
      var p := links[x].value;
      BranchOf(links, depth, p, k, c);
      WithinDeeper(links, depth, p, k);
    }
  }

  /** A node's parent, when it has one that is part of the map. */
  function ParentNode(m: map<Key, Node>, x: Key): Option<Node> {
    if x in m && m[x].parent.Some? && m[x].parent.value in m then Some(m[m[x].parent.value]) else None
  }

  /** Nothing outside the subtree of `k` differs between `m0` and `m`. */
  ghost predicate Outside(links: Links, depth: map<Key, nat>, m0: map<Key, Node>, m: map<Key, Node>, k: Key)
    requires Ranked(links, depth)
  {
    forall x :: x in links && !Within(links, depth, x, k) ==> x in m0 && x in m && m[x] == m0[x]
  }

  /** Changes confined below a child of `k`, after changes confined below `k`, stay below `k`. */
  lemma OutsideStep(links: Links, depth: map<Key, nat>, m0: map<Key, Node>, m1: map<Key, Node>, m2: map<Key, Node>,
                    k: Key, c: Key)
    requires Ranked(links, depth) && c in links && links[c] == Some(k)
    requires Outside(links, depth, m0, m1, k) && Outside(links, depth, m1, m2, c)
    ensures Outside(links, depth, m0, m2, k)
  {
    forall x | x in links && !Within(links, depth, x, k) ensures x in m0 && x in m2 && m2[x] == m0[x] {
      BranchOf(links, depth, x, k, c);
    }
  }

  lemma OutsideTrans(links: Links, depth: map<Key, nat>, m0: map<Key, Node>, m1: map<Key, Node>, m2: map<Key, Node>, k: Key)
    requires Ranked(links, depth)
    requires Outside(links, depth, m0, m1, k) && Outside(links, depth, m1, m2, k)
    ensures Outside(links, depth, m0, m2, k)
  {
  }

  /** Changing `k` alone changes nothing outside its subtree. */
  lemma OutsideAt(links: Links, depth: map<Key, nat>, m0: map<Key, Node>, m1: map<Key, Node>, k: Key)
    requires Ranked(links, depth) && k in links && LinksOf(m0) == links && LinksOf(m1) == links
    requires forall x :: x in m0 && x != k ==> m1[x] == m0[x]
    ensures Outside(links, depth, m0, m1, k)
  {
  }

  /**
   * `m` results from applying `f` top-down to everything below `k` (and to
   * `k` itself when `self` holds), each node being transformed from its value
   * in `m0` and its parent's value in `m`; nothing else changed.
   */
  ghost predicate Done(links: Links, depth: map<Key, nat>, m0: map<Key, Node>, m: map<Key, Node>,
                       k: Key, f: (Node, Option<Node>) -> Node, self: bool)
    requires Ranked(links, depth) && k in links
  {
    && LinksOf(m0) == links && LinksOf(m) == links
    && Outside(links, depth, m0, m, k)
    && m[k] == (if self then f(m0[k], ParentNode(m, k)) else m0[k])
    && (forall x :: x in links && Within(links, depth, x, k) && x != k ==> m[x] == f(m0[x], ParentNode(m, x)))
  }

  /** `Done` under equal names for its arguments. */
  lemma DoneSame(links: Links, links': Links, depth: map<Key, nat>, m0: map<Key, Node>, m0': map<Key, Node>, m: map<Key, Node>,
                 k: Key, f: (Node, Option<Node>) -> Node, self: bool)
    requires Ranked(links, depth) && k in links && links' == links && m0' == m0
    requires Done(links, depth, m0, m, k, f, self)
    ensures Done(links', depth, m0', m, k, f, self)
  {
  }

  /** `Done` for the branches of `k` in `done`; the other branches are untouched. */
  ghost predicate Progress(links: Links, depth: map<Key, nat>, m0: map<Key, Node>, m: map<Key, Node>,
                           k: Key, done: set<Key>, f: (Node, Option<Node>) -> Node, self: bool)
    requires Ranked(links, depth) && k in links
  {
    && LinksOf(m0) == links && LinksOf(m) == links
    && Outside(links, depth, m0, m, k)
    && m[k] == (if self then f(m0[k], ParentNode(m, k)) else m0[k])
    && (forall x :: x in links && Within(links, depth, x, k) && x != k ==>
          m[x] == if Branch(links, depth, x, k) in done then f(m0[x], ParentNode(m, x)) else m0[x])
  }

  /** Where a walk over the children of `k` ended: all of `done` finished, or stopped with nothing outside `k` touched. */
  ghost predicate Walked(links: Links, depth: map<Key, nat>, m0: map<Key, Node>, m: map<Key, Node>,
                         k: Key, done: set<Key>, f: (Node, Option<Node>) -> Node, passed: bool)
    requires Ranked(links, depth) && k in links
  {
    if passed then Progress(links, depth, m0, m, k, done, f, false) else Outside(links, depth, m0, m, k)
  }

  lemma ProgressStart(links: Links, depth: map<Key, nat>, m0: map<Key, Node>, m1: map<Key, Node>,
                      k: Key, f: (Node, Option<Node>) -> Node, self: bool)
    requires Ranked(links, depth) && k in links && LinksOf(m0) == links && LinksOf(m1) == links
    requires m1 == if self then m0[k := f(m0[k], ParentNode(m0, k))] else m0
    ensures Progress(links, depth, m0, m1, k, {}, f, self)
  {
    if self {
      assert ParentNode(m1, k) == ParentNode(m0, k) by {
        if links[k].Some? {
          assert links[k].value != k;
        }
      }
    }
  }

  lemma ProgressStep(links: Links, depth: map<Key, nat>, m0: map<Key, Node>, m1: map<Key, Node>, m2: map<Key, Node>,
                     k: Key, done: set<Key>, c: Key, f: (Node, Option<Node>) -> Node, self: bool)
    requires Ranked(links, depth) && k in links && c in links && links[c] == Some(k) && c !in done
    requires Progress(links, depth, m0, m1, k, done, f, self)
    requires Done(links, depth, m1, m2, c, f, true)
    ensures Progress(links, depth, m0, m2, k, done + {c}, f, self)
  {
    BranchOf(links, depth, k, k, c);
    assert m2[k] == m1[k];
    if links[k].Some? {
      var p := links[k].value;
      WithinDeeper(links, depth, p, k);
      BranchOf(links, depth, p, k, c);
      assert m2[p] == m1[p];
    }
    assert ParentNode(m2, k) == ParentNode(m1, k);
    OutsideStep(links, depth, m0, m1, m2, k, c);
    forall x | x in links && Within(links, depth, x, k) && x != k
      ensures m2[x] == if Branch(links, depth, x, k) in done + {c} then f(m0[x], ParentNode(m2, x)) else m0[x]
    {
      ProgressStepAt(links, depth, m0, m1, m2, k, done, c, f, self, x);
    }
  }

  /** `ProgressStep` at one entity `x` below `k`. */
  lemma ProgressStepAt(links: Links, depth: map<Key, nat>, m0: map<Key, Node>, m1: map<Key, Node>, m2: map<Key, Node>,
                       k: Key, done: set<Key>, c: Key, f: (Node, Option<Node>) -> Node, self: bool, x: Key)
    requires Ranked(links, depth) && k in links && c in links && links[c] == Some(k) && c !in done
    requires Progress(links, depth, m0, m1, k, done, f, self)
    requires Done(links, depth, m1, m2, c, f, true)
    requires x in links && Within(links, depth, x, k) && x != k
    ensures m2[x] == if Branch(links, depth, x, k) in done + {c} then f(m0[x], ParentNode(m2, x)) else m0[x]
  {
    BranchOf(links, depth, x, k, c);
    var b := Branch(links, depth, x, k);
    if !Within(links, depth, x, c) {
      assert m2[x] == m1[x];
      if b in done {
        var p := links[x].value;
        if p != k {
          assert Within(links, depth, p, k);
          assert Branch(links, depth, p, k) == b;
          BranchOf(links, depth, p, k, c);
        }
        assert m2[p] == m1[p];
        assert ParentNode(m2, x) == ParentNode(m1, x);
      }
    }
  }

  lemma ProgressFinish(links: Links, depth: map<Key, nat>, m0: map<Key, Node>, m: map<Key, Node>,
                       k: Key, done: set<Key>, f: (Node, Option<Node>) -> Node, self: bool)
    requires Ranked(links, depth) && k in links
    requires Progress(links, depth, m0, m, k, done, f, self)
    requires forall c :: c in links && links[c] == Some(k) ==> c in done
    ensures Done(links, depth, m0, m, k, f, self)
  {
  }

  /** Nothing lies below a file, so transforming a file alone completes its traversal. */
  lemma FileDone(links: Links, depth: map<Key, nat>, m1: map<Key, Node>, m2: map<Key, Node>,
                 c: Key, f: (Node, Option<Node>) -> Node)
    requires Ranked(links, depth) && c in links && c.F?
    requires LinksOf(m1) == links && LinksOf(m2) == links
    requires m2 == m1[c := f(m1[c], ParentNode(m1, c))]
    ensures Done(links, depth, m1, m2, c, f, true)
  {
    forall x | x in links ensures Within(links, depth, x, c) ==> x == c {
      WithinDeeper(links, depth, x, c);
    }
    if links[c].Some? {
      assert links[c].value != c;
    }
    assert ParentNode(m2, c) == ParentNode(m1, c);
  }

  /** Transforming `d` and then everything below it is a traversal that includes `d`. */
  lemma SelfThenBelow(links: Links, depth: map<Key, nat>, m1: map<Key, Node>, m1': map<Key, Node>, m2: map<Key, Node>,
                      d: Key, f: (Node, Option<Node>) -> Node)
    requires Ranked(links, depth) && d in links
    requires LinksOf(m1) == links && m1' == m1[d := f(m1[d], ParentNode(m1, d))]
    requires Done(links, depth, m1', m2, d, f, false)
    ensures Done(links, depth, m1, m2, d, f, true)
  {
    if links[d].Some? {
      var p := links[d].value;
      WithinDeeper(links, depth, p, d);
      assert m2[p] == m1'[p] == m1[p];
    }
    assert ParentNode(m2, d) == ParentNode(m1, d);
  }

  /** A `depth` for the forest after `k` is moved below `p`: the moved subtree is shifted under `p`. */
  ghost function Shifted(links: Links, depth: map<Key, nat>, k: Key, p: Option<Key>): map<Key, nat>
    requires Ranked(links, depth) && k in links && (p.Some? ==> p.value in links)
  {
    var base := if p.Some? then depth[p.value] + 1 else 0;
    map x | x in depth :: if x in links && Within(links, depth, x, k) && depth[x] >= depth[k] then depth[x] - depth[k] + base else depth[x]
  }

  /** Moving `k` below a directory outside its own subtree keeps the forest ranked and bounded. */
  lemma Reparent(links: Links, depth: map<Key, nat>, bound: nat, k: Key, p: Option<Key>)
    requires Ranked(links, depth) && Bounded(links, depth, bound) && k in links
    requires p.Some? ==> p.value in links && p.value.D? && !Within(links, depth, p.value, k)
    ensures Ranked(links[k := p], Shifted(links, depth, k, p))
    ensures Bounded(links[k := p], Shifted(links, depth, k, p), bound + if p.Some? then depth[p.value] + 1 else 0)
  {
    var links', depth' := links[k := p], Shifted(links, depth, k, p);
    forall x | x in links' && links'[x].Some?
      ensures links'[x].value in links' && links'[x].value.D? && depth'[links'[x].value] < depth'[x]
    {
      var q := links'[x].value;
      WithinDeeper(links, depth, x, k);
      WithinDeeper(links, depth, q, k);
      if x != k {
        assert Within(links, depth, q, k) ==> Within(links, depth, x, k);
      }
    }
    forall x | x in links' && x in depth'
      ensures depth'[x] <= bound + if p.Some? then depth[p.value] + 1 else 0
    {
      WithinDeeper(links, depth, x, k);
    }
  }
}
