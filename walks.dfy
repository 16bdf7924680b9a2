/**
 * The two top-down walks of `Dir`: `generatePath`, which recomputes every
 * path below a directory, and `setPermissionRecursively`, which copies the
 * access fields down. Each is one per-entity transform handed to the
 * traversal predicates of `Forest`, with what the finished walk guarantees.
 */
module Walks {
  import opened Wrappers
  import opened Nodes
  import opened Forest

  /** `generatePath` for one entity whose parent currently is `p`. */
  function RegenFrom(e: Node, p: Option<Node>, w: string -> string): (r: Node)
    ensures r.path == PathUnder(if p.Some? then Some(p.value.path) else None, e.name, w)
    ensures r.parent == e.parent && r.name == e.name
  {
    Regenerated(e, if p.Some? then Some(p.value.path) else None, w)
  }

  /** How `Dir::generatePath` transforms each entity of the walk. */
  function RegenStep(w: string -> string): (Node, Option<Node>) -> Node {
    (e: Node, p: Option<Node>) => RegenFrom(e, p, w)
  }

  /** How `Dir::setPermissionRecursively` transforms each entity of the walk. */
  function CopyStep(): (Node, Option<Node>) -> Node {
    (e: Node, p: Option<Node>) => CopiedFrom(e, p)
  }

  /** `copyPermission` from the parent `p`, when there is one. */
  function CopiedFrom(e: Node, p: Option<Node>): Node {
    if p.Some? then e.(access := AccessCopied(e.access, p.value.access)) else e
  }

  lemma RegenStepApply(w: string -> string, e: Node, p: Option<Node>)
    ensures RegenStep(w)(e, p) == RegenFrom(e, p, w)
  {
  }

  lemma CopyStepApply(e: Node, p: Option<Node>)
    ensures CopyStep()(e, p) == CopiedFrom(e, p)
  {
  }

  /** Regenerating the entity right after its write check passed is one step of the walk. */
  lemma RegenAfterCheck(m0: map<Key, Node>, m1: map<Key, Node>, k: Key, w: string -> string)
    requires k in m0 && m1 == m0[k := m0[k].(writeCache := Some(true))]
    requires m0[k].parent.Some? ==> m0[k].parent.value != k
    ensures var m2 := m1[k := RegenFrom(m1[k], ParentNode(m1, k), w)];
      m2 == m0[k := RegenStep(w)(m0[k], ParentNode(m0, k))] && LinksOf(m2) == LinksOf(m0)
  {
    assert ParentNode(m1, k) == ParentNode(m0, k);
    assert RegenFrom(m1[k], ParentNode(m1, k), w) == RegenFrom(m0[k], ParentNode(m0, k), w);
    RegenStepApply(w, m0[k], ParentNode(m0, k));
    SameLinks(m0, k, RegenFrom(m0[k], ParentNode(m0, k), w));
  }

  /** `copyPermission` from the parent right after nothing else changed is one step of the walk. */
  lemma CopyAt(m0: map<Key, Node>, m1: map<Key, Node>, k: Key, p: Key)
    requires k in m0 && p in m0 && m0[k].parent == Some(p) && p != k
    requires m1 == m0[k := m0[k].(access := AccessCopied(m0[k].access, m0[p].access))]
    ensures m1 == m0[k := CopyStep()(m0[k], ParentNode(m0, k))] && LinksOf(m1) == LinksOf(m0)
  {
    CopyStepApply(m0[k], ParentNode(m0, k));
    SameLinks(m0, k, m1[k]);
  }

  /** The path an entity's parent has in `m`, if it has a parent there. */
  function ParentPath(m: map<Key, Node>, x: Key): Option<string> {
    var p := ParentNode(m, x);
    if p.Some? then Some(p.value.path) else None
  }

  /** Every entity's path is its parent's path, a slash and its webalized name. */
  ghost predicate Consistent(m: map<Key, Node>, w: string -> string) {
    forall x :: x in m ==> m[x].path == PathUnder(ParentPath(m, x), m[x].name, w)
  }

  /** `Consistent`, except perhaps at `k`. */
  ghost predicate ConsistentBut(m: map<Key, Node>, w: string -> string, k: Key) {
    forall x :: x in m && x != k ==> m[x].path == PathUnder(ParentPath(m, x), m[x].name, w)
  }

  /**
   * A completed `generatePath` walk from `k` repairs every path: whatever
   * changed at `k` (its name or its parent), afterwards all paths agree with
   * names and parents again.
   */
  lemma RegenRestores(links: Links, depth: map<Key, nat>, m0: map<Key, Node>, m: map<Key, Node>, k: Key, w: string -> string)
    requires Ranked(links, depth) && k in links
    requires Done(links, depth, m0, m, k, RegenStep(w), true)
    requires ConsistentBut(m0, w, k)
    ensures Consistent(m, w)
  {
    forall x | x in m ensures m[x].path == PathUnder(ParentPath(m, x), m[x].name, w) {
      if Within(links, depth, x, k) {
        RegenStepApply(w, m0[x], ParentNode(m, x));
      } else {
        if links[x].Some? {
          var p := links[x].value;
          assert !Within(links, depth, p, k);
        }
        assert ParentNode(m, x) == ParentNode(m0, x);
      }
    }
  }

  /**
   * After `setPermissionRecursively` on `k`, everything below `k` has `k`'s
   * protection and role lists.
   */
  lemma {:induction false} PropagationUniform(links: Links, depth: map<Key, nat>, m0: map<Key, Node>, m: map<Key, Node>,
                                              k: Key, x: Key)
    requires Ranked(links, depth) && k in links && x in links
    requires Done(links, depth, m0, m, k, CopyStep(), false)
    requires Within(links, depth, x, k) && x != k
    ensures m[x].access.protected == m[k].access.protected
    ensures m[x].access.readRoles == m[k].access.readRoles && m[x].access.writeRoles == m[k].access.writeRoles
    decreases depth[x]
  {
    var p := links[x].value;
    CopyStepApply(m0[x], ParentNode(m, x));
    assert ParentNode(m, x) == Some(m[p]);
    if p != k {
      WithinDeeper(links, depth, x, p);
      PropagationUniform(links, depth, m0, m, k, p);
    }
  }

  /** Changing an entity without touching its path keeps every other entity's path in agreement. */
  lemma TouchKeepsOthers(m: map<Key, Node>, w: string -> string, k: Key, e: Node)
    requires Consistent(m, w) && k in m && e.path == m[k].path
    ensures ConsistentBut(m[k := e], w, k)
  {
    var m' := m[k := e];
    forall x | x in m' && x != k ensures m'[x].path == PathUnder(ParentPath(m', x), m'[x].name, w) {
      assert ParentPath(m', x) == ParentPath(m, x);
    }
  }

  /** A change that keeps an entity's name, parent and path keeps every path in agreement. */
  lemma TouchKeepsConsistent(m: map<Key, Node>, w: string -> string, k: Key, e: Node)
    requires Consistent(m, w) && k in m
    requires e.path == m[k].path && e.name == m[k].name && e.parent == m[k].parent
    ensures Consistent(m[k := e], w)
  {
    var m' := m[k := e];
    forall x | x in m' ensures m'[x].path == PathUnder(ParentPath(m', x), m'[x].name, w) {
      assert ParentPath(m', x) == ParentPath(m, x);
    }
  }

  /** `TouchKeepsConsistent` for a state that may not have been consistent. */
  lemma TouchKeepsConsistentIf(m: map<Key, Node>, w: string -> string, k: Key, e: Node)
    requires k in m && e.path == m[k].path && e.name == m[k].name && e.parent == m[k].parent
    ensures Consistent(m, w) ==> Consistent(m[k := e], w)
  {
    if Consistent(m, w) {
      TouchKeepsConsistent(m, w, k, e);
    }
  }

  /** Regenerating an entity reads nothing of its parent but the parent's path. */
  lemma RegenFromPathOnly(e: Node, p: Node, q: Node, w: string -> string)
    requires p.path == q.path
    ensures RegenFrom(e, Some(p), w) == RegenFrom(e, Some(q), w)
  {
  }

  /** The timestamp bump after `generatePath` could equally have come before it. */
  lemma BumpCommutes(links: Links, depth: map<Key, nat>, m0: map<Key, Node>, m: map<Key, Node>, k: Key,
                     w: string -> string, u: nat)
    requires Ranked(links, depth) && k in links
    requires Done(links, depth, m0, m, k, RegenStep(w), true)
    ensures Done(links, depth, m0[k := m0[k].(updated := u)], m[k := m[k].(updated := u)], k, RegenStep(w), true)
  {
    var m0', m' := m0[k := m0[k].(updated := u)], m[k := m[k].(updated := u)];
    SameLinks(m0, k, m0'[k]);
    SameLinks(m, k, m'[k]);
    if links[k].Some? {
      assert links[k].value != k;
    }
    assert ParentNode(m', k) == ParentNode(m, k);
    RegenStepApply(w, m0[k], ParentNode(m, k));
    RegenStepApply(w, m0'[k], ParentNode(m', k));
    forall x | x in links && Within(links, depth, x, k) && x != k
      ensures m'[x] == RegenStep(w)(m0'[x], ParentNode(m', x))
    {
      BumpCommutesAt(links, depth, m0, m, k, w, u, x);
    }
  }

  lemma BumpCommutesAt(links: Links, depth: map<Key, nat>, m0: map<Key, Node>, m: map<Key, Node>, k: Key,
                       w: string -> string, u: nat, x: Key)
    requires Ranked(links, depth) && k in links
    requires Done(links, depth, m0, m, k, RegenStep(w), true)
    requires x in links && Within(links, depth, x, k) && x != k
    ensures var m0', m' := m0[k := m0[k].(updated := u)], m[k := m[k].(updated := u)];
      m'[x] == RegenStep(w)(m0'[x], ParentNode(m', x))
  {
    var m0', m' := m0[k := m0[k].(updated := u)], m[k := m[k].(updated := u)];
    RegenStepApply(w, m0[x], ParentNode(m, x));
    RegenStepApply(w, m0'[x], ParentNode(m', x));
    var p := links[x].value;
    if p == k {
      RegenFromPathOnly(m0[x], m[k], m'[k], w);
    } else {
      assert ParentNode(m', x) == ParentNode(m, x);
    }
  }

  /**
   * A change at `k` that keeps its path (a new name, a new parent), followed
   * by a completed `generatePath` walk from `k`, takes a state where all paths
   * agree with names and parents to another such state.
   */
  lemma ChangeThenRegenConsistent(links: Links, depth: map<Key, nat>, m0: map<Key, Node>, e: Node, m: map<Key, Node>,
                                  k: Key, w: string -> string)
    requires Ranked(links, depth) && k in links && k in m0 && e.path == m0[k].path
    requires Consistent(m0, w)
    requires Done(links, depth, m0[k := e], m, k, RegenStep(w), true)
    ensures Consistent(m, w)
  {
    TouchKeepsOthers(m0, w, k, e);
    RegenRestores(links, depth, m0[k := e], m, k, w);
  }
}
