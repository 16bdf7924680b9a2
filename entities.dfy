/**
 * The entity layer shared by `BaseFile` and `BaseFileEntity`: every entity of
 * the tree lives in one store, each setter replaces that entity's record, and
 * the directory overrides of `generatePath` and `setPermissionRecursively`
 * walk the subtree.
 */
module Entities {
  import opened Wrappers
  import opened Errors
  import opened Permissions
  import opened Nodes
  import opened Forest
  import opened Walks
  import Php

  lemma MoveOne<T>(finished: set<T>, done: set<T>, todo: set<T>, rest: set<T>, c: T)
    requires finished == done + (todo - rest) && c in rest && rest <= todo && c !in done
    ensures c !in finished && rest - {c} <= todo && |rest - {c}| < |rest|
    ensures finished + {c} == done + (todo - (rest - {c}))
  {
  }

  lemma AllMoved<T>(finished: set<T>, done: set<T>, todo: set<T>, rest: set<T>)
    requires finished == done + (todo - rest) && rest == {}
    ensures finished == done + todo
  {
  }

  /** The entity `k` renamed by `setName`, before the paths are regenerated. */
  ghost function Renaming(m: map<Key, Node>, k: Key, name: string): map<Key, Node>
    requires k in m
  {
    m[k := m[k].(name := name, writeCache := Some(true), updated := m[k].updated + 1)]
  }

  /** A walk that regenerated the renamed entity, once the timestamp is bumped, is a walk from `Renaming`. */
  lemma RenameDone(links: Links, links': Links, depth: map<Key, nat>, m0: map<Key, Node>, mc: map<Key, Node>,
                   m1: map<Key, Node>, m: map<Key, Node>, mf: map<Key, Node>, k: Key, name: string, u: nat,
                   w: string -> string)
    requires Ranked(links, depth) && k in links && k in m0 && links' == links
    requires mc == m0[k := m0[k].(writeCache := Some(true))]
    requires m1 == mc[k := mc[k].(name := name)]
    requires Done(links, depth, m1, m, k, RegenStep(w), true)
    requires u == m0[k].updated + 1 && mf == m[k := m[k].(updated := u)]
    ensures Done(links', depth, Renaming(m0, k, name), mf, k, RegenStep(w), true)
    ensures Consistent(m0, w) ==> Consistent(mf, w)
  {
    BumpCommutes(links, depth, m1, m, k, w, u);
    RenameThenBump(m0, mc, m1, k, name);
    if Consistent(m0, w) {
      ChangeThenRegenConsistent(links, depth, m0, Renaming(m0, k, name)[k], mf, k, w);
    }
  }

  /** The states `setName` passes through: write check, new name, then the timestamp bump. */
  lemma RenameThenBump(m0: map<Key, Node>, mc: map<Key, Node>, m1: map<Key, Node>, k: Key, name: string)
    requires k in m0
    requires mc == m0[k := m0[k].(writeCache := Some(true))]
    requires m1 == mc[k := mc[k].(name := name)]
    ensures m1[k := m1[k].(updated := m0[k].updated + 1)] ==
      m0[k := m0[k].(name := name, writeCache := Some(true), updated := m0[k].updated + 1)]
  {
  }

  /** The entity `k` moved below `p` by `setParent`, before the paths are regenerated. */
  ghost function Reparenting(m: map<Key, Node>, k: Key, p: Option<Key>): map<Key, Node>
    requires k in m
  {
    m[k := m[k].(parent := p, writeCache := Some(true))]
  }

  /** A walk that regenerated the moved entity is a walk from `Reparenting`, and it repairs every path. */
  lemma ReparentDone(links: Links, links': Links, depth: map<Key, nat>, m0: map<Key, Node>, mc: map<Key, Node>,
                     m1: map<Key, Node>, m: map<Key, Node>, k: Key, p: Option<Key>, w: string -> string)
    requires Ranked(links, depth) && k in links && k in m0 && links' == links
    requires mc == m0[k := m0[k].(writeCache := Some(true))]
    requires m1 == mc[k := mc[k].(parent := p)]
    requires Done(links, depth, m1, m, k, RegenStep(w), true)
    ensures Done(links', depth, Reparenting(m0, k, p), m, k, RegenStep(w), true)
    ensures Consistent(m0, w) ==> Consistent(m, w)
  {
    Overwrite(m0, mc, k, m1[k]);
    if Consistent(m0, w) {
      ChangeThenRegenConsistent(links, depth, m0, Reparenting(m0, k, p)[k], m, k, w);
    }
  }

  /** The names from the top of the tree down to `x`. */
  ghost function Lineage(m: map<Key, Node>, depth: map<Key, nat>, x: Key): (names: seq<string>)
    requires Ranked(LinksOf(m), depth) && x in m
    ensures names != [] && names[|names| - 1] == m[x].name
    decreases depth[x]
  {
    (if m[x].parent.Some? then Lineage(m, depth, m[x].parent.value) else []) + [m[x].name]
  }

  /** A directory's title is its parent's title, a slash and its own name. */
  lemma TitleOfChild(m: map<Key, Node>, depth: map<Key, nat>, x: Key)
    requires Ranked(LinksOf(m), depth) && x in m && m[x].parent.Some?
    ensures Php.Join("/", Lineage(m, depth, x)) ==
      Php.Join("/", Lineage(m, depth, m[x].parent.value)) + "/" + m[x].name
  {
    Php.JoinSnoc("/", Lineage(m, depth, m[x].parent.value), m[x].name);
  }

  /** Every write check in the subtree of `k` passes; `self` says whether `k`'s own check counts. */
  ghost predicate Writable(links: Links, depth: map<Key, nat>, m: map<Key, Node>, k: Key, self: bool)
    requires Ranked(links, depth)
  {
    forall x :: x in links && Within(links, depth, x, k) && (self || x != k) ==> x in m && WriteAllowed(m[x])
  }

  /** A child's branch that the walk has not visited yet is as writable as it was. */
  lemma UnvisitedWritable(links: Links, depth: map<Key, nat>, m0: map<Key, Node>, m: map<Key, Node>,
                          k: Key, done: set<Key>, c: Key, f: (Node, Option<Node>) -> Node)
    requires Ranked(links, depth) && k in links && c in links && links[c] == Some(k) && c !in done
    requires Progress(links, depth, m0, m, k, done, f, false)
    requires Writable(links, depth, m0, k, false)
    ensures Writable(links, depth, m, c, true)
  {
    forall x | x in links && Within(links, depth, x, c) ensures x in m && WriteAllowed(m[x]) {
      BranchOf(links, depth, x, k, c);
    }
  }

  /** Moving `k` elsewhere brings nothing new into its subtree. */
  lemma {:induction false} WithinMoved(links: Links, depth: map<Key, nat>, links': Links, depth': map<Key, nat>,
                                       k: Key, p: Option<Key>, x: Key)
    requires Ranked(links, depth) && Ranked(links', depth') && k in links && links' == links[k := p] && x in links'
    requires Within(links', depth', x, k)
    ensures Within(links, depth, x, k)
    decreases depth'[x]
  {
    if x != k {
      WithinMoved(links, depth, links', depth', k, p, links'[x].value);
    }
  }

  /** The store's invariant on its links: a ranked forest whose key numbers are all below `next`. */
  ghost predicate Sound(links: Links, depth: map<Key, nat>, bound: nat, next: nat) {
    && Ranked(links, depth)
    && Bounded(links, depth, bound)
    && (forall k :: k in links ==> k.n < next)
  }

  class Store {
    /** Every entity of the request, directories and files alike. */
    var nodes: map<Key, Node>
    /** Numbers not yet used for a key. */
    var next: nat
    /** `Strings::webalize($name, '.', false)`, a function the model does not look inside. */
    const webalize: string -> string
    ghost var depth: map<Key, nat>
    ghost var bound: nat

    ghost predicate Valid()
      reads this
    {
      Sound(LinksOf(nodes), depth, bound, next)
    }

    constructor (slug: string -> string)
      ensures Valid() && nodes == map[] && webalize == slug
    {
      nodes := map[];
      next := 0;
      webalize := slug;
      depth := map[];
      bound := 0;
    }

    /** `new Dir` / `new File`. */
    method Create(dir: bool) returns (k: Key)
      requires Valid()
      modifies this
      ensures Valid() && k !in old(nodes) && k.D? == dir
      ensures nodes == old(nodes)[k := Fresh()]
    {
      k := if dir then D(next) else F(next);
      LinksOfUpdate(nodes, k, Fresh());
      nodes := nodes[k := Fresh()];
      depth := depth[k := 0];
      next := next + 1;
    }

    /** `isAllowedToRead`: the cached answer, or the rule's, which is then cached. */
    method CheckRead(k: Key) returns (ok: bool)
      requires Valid() && k in nodes
      modifies this`nodes
      ensures Valid()
      ensures ok == ReadAllowed(old(nodes[k])) && LinksOf(nodes) == LinksOf(old(nodes))
      ensures nodes == old(nodes)[k := old(nodes[k]).(readCache := Some(ok))]
      ensures Consistent(old(nodes), webalize) ==> Consistent(nodes, webalize)
    {
      var e := nodes[k];
      var a := e.access;
      if e.readCache.Some? {
        ok := e.readCache.value;
      } else {
        ok := false;
        if !a.protected {
          ok := true;
        } else if a.user.Some? && InRole(a.user.value, Admin) {
          ok := true;
        } else if a.user.Some? {
          ok := AnyRoleHeld(a.user.value, a.readRoles);
        }
      }
      Put(k, e.(readCache := Some(ok)));
    }

    /** `isAllowedToWrite`: the cached answer, or the rule's, which is then cached. */
    method CheckWrite(k: Key) returns (ok: bool)
      requires Valid() && k in nodes
      modifies this`nodes
      ensures Valid()
      ensures ok == WriteAllowed(old(nodes[k])) && LinksOf(nodes) == LinksOf(old(nodes))
      ensures nodes == old(nodes)[k := old(nodes[k]).(writeCache := Some(ok))]
      ensures Consistent(old(nodes), webalize) ==> Consistent(nodes, webalize)
    {
      var e := nodes[k];
      var a := e.access;
      if e.writeCache.Some? {
        ok := e.writeCache.value;
      } else {
        ok := false;
        if a.author.None? {
          ok := true;
        } else if a.user.Some? {
          if a.user.value.identity == a.author {
            ok := true;
          } else if InRole(a.user.value, Admin) {
            ok := true;
          } else {
            ok := AnyRoleHeld(a.user.value, a.readRoles);
          }
        }
      }
      Put(k, e.(writeCache := Some(ok)));
    }

    /** A getter: the entity's fields behind the read check. */
    method Get(k: Key) returns (r: Result<Node, Error>)
      requires Valid() && k in nodes
      modifies this`nodes
      ensures Valid()
      ensures nodes == old(nodes)[k := old(nodes[k]).(readCache := Some(ReadAllowed(old(nodes[k]))))]
      ensures r == if ReadAllowed(old(nodes[k])) then Ok(nodes[k]) else Err(PermissionDenied)
    {
      var ok := CheckRead(k);
      if ok {
        r := Ok(nodes[k]);
      } else {
        r := Err(PermissionDenied);
      }
    }

    /** `BaseFile::generatePath` for this one entity. */
    method GeneratePathSelf(k: Key) returns (r: Outcome<Error>)
      requires Valid() && k in nodes
      modifies this`nodes
      ensures Valid() && LinksOf(nodes) == LinksOf(old(nodes))
      ensures WriteAllowed(old(nodes[k])) ==>
        r == Pass && nodes == old(nodes)[k := RegenStep(webalize)(old(nodes[k]), ParentNode(old(nodes), k))]
      ensures !WriteAllowed(old(nodes[k])) ==>
        r == Fail(PermissionDenied) && nodes == old(nodes)[k := old(nodes[k]).(writeCache := Some(false))]
    {
      assert LinksOf(nodes)[k] == nodes[k].parent;
      var ok := CheckWrite(k);
      if !ok {
        return Fail(PermissionDenied);
      }
      RegenAfterCheck(old(nodes), nodes, k, webalize);
      nodes := nodes[k := RegenFrom(nodes[k], ParentNode(nodes, k), webalize)];
      r := Pass;
    }

    /** The children of `k` that are directories (`kind`) or files (`!kind`). */
    function Children(k: Key, kind: bool): (cs: set<Key>)
      reads this
      ensures forall c :: c in cs <==> c in nodes && nodes[c].parent == Some(k) && c.D? == kind
    {
      set c | c in nodes && nodes[c].parent == Some(k) && c.D? == kind
    }

    /**
     * `generatePath` as each class defines it: a file regenerates itself; a
     * directory regenerates itself, then every child directory recursively,
     * then its files. The first refused write check stops the walk.
     */
    method GeneratePath(k: Key) returns (r: Outcome<Error>)
      requires Valid() && k in nodes
      modifies this`nodes
      ensures Valid() && LinksOf(nodes) == LinksOf(old(nodes))
      ensures Outside(LinksOf(nodes), depth, old(nodes), nodes, k)
      ensures r.Fail? ==> r.error == PermissionDenied
      ensures !WriteAllowed(old(nodes[k])) ==>
        r.Fail? && nodes == old(nodes)[k := old(nodes[k]).(writeCache := Some(false))]
      ensures k.F? && WriteAllowed(old(nodes[k])) ==> r.Pass?
      ensures Writable(LinksOf(old(nodes)), depth, old(nodes), k, true) ==> r.Pass?
      ensures r.Pass? ==> Done(LinksOf(nodes), depth, old(nodes), nodes, k, RegenStep(webalize), true)
      decreases bound - depth[k], 3
    {
      ghost var links := LinksOf(nodes);
      ghost var m0 := nodes;
      r := GeneratePathSelf(k);
      if r.Fail? || k.F? {
        OutsideAt(links, depth, m0, nodes, k);
        if r.Pass? {
          FileDone(links, depth, m0, nodes, k, RegenStep(webalize));
        }
        return;
      }
      ghost var m1 := nodes;
      assert Writable(links, depth, m0, k, true) ==> Writable(links, depth, m1, k, false);
      r := GeneratePathBelow(k, links);
      OutsideAt(links, depth, m0, m1, k);
      OutsideTrans(links, depth, m0, m1, nodes, k);
      if r.Pass? {
        SelfThenBelow(links, depth, m0, m1, nodes, k, RegenStep(webalize));
      }
    }

    /** The part of `Dir::generatePath` after the directory's own path: its child directories, then its files. */
    method GeneratePathBelow(k: Key, ghost links: Links) returns (r: Outcome<Error>)
      requires LinksOf(nodes) == links && Sound(links, depth, bound, next) && k in links
      modifies this`nodes
      ensures LinksOf(nodes) == links
      ensures Outside(links, depth, old(nodes), nodes, k)
      ensures r.Fail? ==> r.error == PermissionDenied
      ensures Writable(links, depth, old(nodes), k, false) ==> r.Pass?
      ensures r.Pass? ==> Done(links, depth, old(nodes), nodes, k, RegenStep(webalize), false)
      decreases bound - depth[k], 2
    {
      ghost var m0 := nodes;
      ProgressStart(links, depth, m0, nodes, k, RegenStep(webalize), false);
      var dirs := Children(k, true);
      r := GeneratePathOf(k, dirs, links, {}, m0);
      if r.Fail? {
        return;
      }
      var files := Children(k, false);
      r := GeneratePathOf(k, files, links, dirs, m0);
      if r.Pass? {
        ProgressFinish(links, depth, m0, nodes, k, dirs + files, RegenStep(webalize), false);
      }
    }

    /** The loops of `Dir::generatePath` over the children `todo` of `k`. */
    method GeneratePathOf(k: Key, todo: set<Key>, ghost links: Links, ghost done: set<Key>, ghost m0: map<Key, Node>)
      returns (r: Outcome<Error>)
      requires LinksOf(nodes) == links && Sound(links, depth, bound, next) && k in links
      requires forall c :: c in todo ==> c in links && links[c] == Some(k) && c !in done
      requires Progress(links, depth, m0, nodes, k, done, RegenStep(webalize), false)
      modifies this`nodes
      ensures LinksOf(nodes) == links
      ensures r.Fail? ==> r.error == PermissionDenied
      ensures Writable(links, depth, m0, k, false) ==> r.Pass?
      ensures Walked(links, depth, m0, nodes, k, done + todo, RegenStep(webalize), r.Pass?)
      decreases bound - depth[k], 1
    {
      ghost var finished := done;
      var rest := todo;
      r := Pass;
      while rest != {}
        invariant r == Pass && rest <= todo
        invariant finished == done + (todo - rest)
        invariant Progress(links, depth, m0, nodes, k, finished, RegenStep(webalize), false)
        decreases |rest|
      {
        var c :| c in rest;
        MoveOne(finished, done, todo, rest, c);
        r := GeneratePathOfChild(k, c, links, finished, m0);
        if r.Fail? {
          return;
        }
        rest := rest - {c};
        finished := finished + {c};
      }
      AllMoved(finished, done, todo, rest);
    }

    /** One child's `generatePath` call inside the loops of `Dir::generatePath`. */
    method GeneratePathOfChild(k: Key, c: Key, ghost links: Links, ghost done: set<Key>, ghost m0: map<Key, Node>)
      returns (r: Outcome<Error>)
      requires LinksOf(nodes) == links && Sound(links, depth, bound, next) && k in links
      requires c in links && links[c] == Some(k) && c !in done
      requires Progress(links, depth, m0, nodes, k, done, RegenStep(webalize), false)
      modifies this`nodes
      ensures LinksOf(nodes) == links
      ensures r.Fail? ==> r.error == PermissionDenied
      ensures Writable(links, depth, m0, k, false) ==> r.Pass?
      ensures Walked(links, depth, m0, nodes, k, done + {c}, RegenStep(webalize), r.Pass?)
      decreases bound - depth[k], 0
    {
      ghost var m1 := nodes;
      assert depth[k] < depth[c] <= bound;
      if Writable(links, depth, m0, k, false) {
        UnvisitedWritable(links, depth, m0, nodes, k, done, c, RegenStep(webalize));
      }
      r := GeneratePath(c);
      if r.Fail? {
        OutsideStep(links, depth, m0, m1, nodes, k, c);
      } else {
        ProgressStep(links, depth, m0, m1, nodes, k, done, c, RegenStep(webalize), false);
      }
    }
 
    /** `setName`: a new name (after the write check) regenerates the paths below, then bumps the timestamp. */
    method SetName(k: Key, name: string) returns (r: Outcome<Error>)
      requires Valid() && k in nodes
      modifies this`nodes
      ensures Valid() && LinksOf(nodes) == LinksOf(old(nodes))
      ensures r.Fail? ==> r.error == PermissionDenied
      ensures old(nodes[k]).name == name ==> r == Pass && nodes == old(nodes)
      ensures old(nodes[k]).name != name && !WriteAllowed(old(nodes[k])) ==>
        r.Fail? && nodes == old(nodes)[k := old(nodes[k]).(writeCache := Some(false))]
      ensures k.F? && WriteAllowed(old(nodes[k])) ==> r.Pass?
      ensures Writable(LinksOf(old(nodes)), depth, old(nodes), k, true) ==> r.Pass?
      ensures old(nodes[k]).name != name && r.Pass? ==>
        Done(LinksOf(nodes), depth, Renaming(old(nodes), k, name), nodes, k, RegenStep(webalize), true)
      ensures Consistent(old(nodes), webalize) && r.Pass? ==> Consistent(nodes, webalize)
    {
      if nodes[k].name == name {
        return Pass;
      }
      var ok := CheckWrite(k);
      if !ok {
        return Fail(PermissionDenied);
      }
      r := NameAndRegenerate(k, name, old(nodes));
    }

    /** `setName` once the write check of `k` passed: the new name, the paths below, the timestamp. */
    method NameAndRegenerate(k: Key, name: string, ghost m0: map<Key, Node>) returns (r: Outcome<Error>)
      requires Valid() && k in m0 && LinksOf(m0) == LinksOf(nodes)
      requires nodes == m0[k := m0[k].(writeCache := Some(true))]
      modifies this`nodes
      ensures Valid() && LinksOf(nodes) == LinksOf(m0)
      ensures r.Fail? ==> r.error == PermissionDenied
      ensures k.F? ==> r.Pass?
      ensures Writable(LinksOf(m0), depth, m0, k, false) ==> r.Pass?
      ensures r.Pass? ==> Done(LinksOf(nodes), depth, Renaming(m0, k, name), nodes, k, RegenStep(webalize), true)
      ensures Consistent(m0, webalize) && r.Pass? ==> Consistent(nodes, webalize)
    {
      ghost var links := LinksOf(nodes);
      var u := nodes[k].updated + 1;
      ghost var mc := nodes;
      Retitle(k, name);
      ghost var m1 := nodes;
      assert Writable(links, depth, m0, k, false) ==> Writable(links, depth, m1, k, true);
      r := GeneratePath(k);
      if r.Fail? {
        return;
      }
      ghost var m := nodes;
      Put(k, nodes[k].(updated := u));
      RenameDone(links, LinksOf(nodes), depth, m0, mc, m1, m, nodes, k, name, u, webalize);
    }

    /** The name of `k` becomes `name`; nothing else changes. */
    method Retitle(k: Key, name: string)
      requires Valid() && k in nodes
      modifies this`nodes
      ensures Valid() && LinksOf(nodes) == LinksOf(old(nodes))
      ensures nodes == old(nodes)[k := old(nodes[k]).(name := name)]
    {
      SameLinks(nodes, k, nodes[k].(name := name));
      nodes := nodes[k := nodes[k].(name := name)];
    }

    /** Replaces entity `k` by `e`, which keeps its name, parent and path. */
    method Put(k: Key, e: Node)
      requires Valid() && k in nodes
      requires e.parent == nodes[k].parent && e.name == nodes[k].name && e.path == nodes[k].path
      modifies this`nodes
      ensures Valid() && LinksOf(nodes) == LinksOf(old(nodes))
      ensures Consistent(old(nodes), webalize) ==> Consistent(nodes, webalize)
      ensures nodes == old(nodes)[k := e]
    {
      SameLinks(nodes, k, e);
      TouchKeepsConsistentIf(nodes, webalize, k, e);
      nodes := nodes[k := e];
    }

    /**
     * `setParent`: a different parent (after the write check) is recorded and
     * the paths of the moved subtree are regenerated. The new parent must not
     * lie inside the moved subtree.
     */
    method SetParent(k: Key, p: Option<Key>) returns (r: Outcome<Error>)
      requires Valid() && k in nodes
      requires p.Some? ==> p.value in nodes && p.value.D? && !Within(LinksOf(nodes), depth, p.value, k)
      modifies this`nodes, this`depth, this`bound
      ensures Valid()
      ensures r.Fail? ==> r.error == PermissionDenied
      ensures old(nodes[k]).parent == p ==> r == Pass && nodes == old(nodes)
      ensures old(nodes[k]).parent != p && !WriteAllowed(old(nodes[k])) ==>
        r.Fail? && nodes == old(nodes)[k := old(nodes[k]).(writeCache := Some(false))]
      ensures old(nodes[k]).parent != p && WriteAllowed(old(nodes[k])) ==> LinksOf(nodes) == LinksOf(old(nodes))[k := p]
      ensures k.F? && WriteAllowed(old(nodes[k])) ==> r.Pass?
      ensures Writable(LinksOf(old(nodes)), old(depth), old(nodes), k, true) ==> r.Pass?
      ensures old(nodes[k]).parent != p && r.Pass? ==>
        Done(LinksOf(nodes), depth, Reparenting(old(nodes), k, p), nodes, k, RegenStep(webalize), true)
      ensures Consistent(old(nodes), webalize) && r.Pass? ==> Consistent(nodes, webalize)
    {
      if nodes[k].parent == p {
        return Pass;
      }
      var ok := CheckWrite(k);
      if !ok {
        return Fail(PermissionDenied);
      }
      ghost var mc := nodes;
      ghost var links0, depth0 := LinksOf(nodes), depth;
      Attach(k, p);
      ghost var m1 := nodes;
      if Writable(links0, depth0, old(nodes), k, true) {
        forall x | x in LinksOf(m1) && Within(LinksOf(m1), depth, x, k) ensures x in m1 && WriteAllowed(m1[x]) {
          WithinMoved(links0, depth0, LinksOf(m1), depth, k, p, x);
        }
      }
      r := GeneratePath(k);
      if r.Pass? {
        ReparentDone(LinksOf(nodes), LinksOf(nodes), depth, old(nodes), mc, m1, nodes, k, p, webalize);
      }
    }

    /** The parent pointer of `k` becomes `p`; the ghost ranking follows. */
    method Attach(k: Key, p: Option<Key>)
      requires Valid() && k in nodes
      requires p.Some? ==> p.value in nodes && p.value.D? && !Within(LinksOf(nodes), depth, p.value, k)
      modifies this`nodes, this`depth, this`bound
      ensures Valid() && LinksOf(nodes) == LinksOf(old(nodes))[k := p]
      ensures nodes == old(nodes)[k := old(nodes[k]).(parent := p)]
    {
      ghost var links := LinksOf(nodes);
      Reparent(links, depth, bound, k, p);
      LinksOfUpdate(nodes, k, nodes[k].(parent := p));
      bound := bound + if p.Some? then depth[p.value] + 1 else 0;
      depth := Shifted(links, depth, k, p);
      nodes := nodes[k := nodes[k].(parent := p)];
    }

    /**
     * The pattern of the plain setters: the write check, then `k` becomes `e`
     * (with the granted check cached); a refused check changes only the cache.
     */
    method WriteChecked(k: Key, e: Node) returns (r: Outcome<Error>)
      requires Valid() && k in nodes
      requires e.parent == nodes[k].parent && e.name == nodes[k].name && e.path == nodes[k].path
      modifies this`nodes
      ensures Valid() && LinksOf(nodes) == LinksOf(old(nodes))
      ensures Consistent(old(nodes), webalize) ==> Consistent(nodes, webalize)
      ensures WriteAllowed(old(nodes[k])) ==> r == Pass && nodes == old(nodes)[k := e.(writeCache := Some(true))]
      ensures !WriteAllowed(old(nodes[k])) ==>
        r == Fail(PermissionDenied) && nodes == old(nodes)[k := old(nodes[k]).(writeCache := Some(false))]
    {
      var ok := CheckWrite(k);
      if !ok {
        return Fail(PermissionDenied);
      }
      Overwrite(old(nodes), nodes, k, e.(writeCache := Some(true)));
      Put(k, e.(writeCache := Some(true)));
      r := Pass;
    }

    /** `setInvisible`: a different flag (after the write check) is stored and the timestamp bumped. */
    method SetInvisible(k: Key, invisible: bool) returns (r: Outcome<Error>)
      requires Valid() && k in nodes
      modifies this`nodes
      ensures Valid() && LinksOf(nodes) == LinksOf(old(nodes))
      ensures Consistent(old(nodes), webalize) ==> Consistent(nodes, webalize)
      ensures old(nodes[k]).invisible == invisible ==> r == Pass && nodes == old(nodes)
      ensures old(nodes[k]).invisible != invisible && WriteAllowed(old(nodes[k])) ==>
        r == Pass && nodes == old(nodes)[k := old(nodes[k]).(writeCache := Some(true), invisible := invisible,
                                                              updated := old(nodes[k]).updated + 1)]
      ensures old(nodes[k]).invisible != invisible && !WriteAllowed(old(nodes[k])) ==>
        r == Fail(PermissionDenied) && nodes == old(nodes)[k := old(nodes[k]).(writeCache := Some(false))]
    {
      if nodes[k].invisible == invisible {
        return Pass;
      }
      r := WriteChecked(k, nodes[k].(invisible := invisible, updated := nodes[k].updated + 1));
    }

    /**
     * `setProtected`: a different flag (after the write check) is stored; the
     * first change remembers the flag it replaced. The timestamp stays.
     */
    method SetProtected(k: Key, protected: bool) returns (r: Outcome<Error>)
      requires Valid() && k in nodes
      modifies this`nodes
      ensures Valid() && LinksOf(nodes) == LinksOf(old(nodes))
      ensures Consistent(old(nodes), webalize) ==> Consistent(nodes, webalize)
      ensures old(nodes[k]).access.protected == protected ==> r == Pass && nodes == old(nodes)
      ensures old(nodes[k]).access.protected != protected && WriteAllowed(old(nodes[k])) ==>
        var e := old(nodes[k]);
        r == Pass && nodes == old(nodes)[k := e.(writeCache := Some(true), access := e.access.(protected := protected),
          history := e.history.(oldProtected := if e.history.oldProtected.None? then Some(e.access.protected) else e.history.oldProtected))]
      ensures old(nodes[k]).access.protected != protected && !WriteAllowed(old(nodes[k])) ==>
        r == Fail(PermissionDenied) && nodes == old(nodes)[k := old(nodes[k]).(writeCache := Some(false))]
    {
      var e := nodes[k];
      if e.access.protected == protected {
        return Pass;
      }
      var h := e.history;
      if h.oldProtected.None? {
        h := h.(oldProtected := Some(e.access.protected));
      }
      r := WriteChecked(k, e.(access := e.access.(protected := protected), history := h));
    }

    /** `addReadRole`: after the write check the role is appended to the read roles. */
    method AddReadRole(k: Key, role: string) returns (r: Outcome<Error>)
      requires Valid() && k in nodes
      modifies this`nodes
      ensures Valid() && LinksOf(nodes) == LinksOf(old(nodes))
      ensures Consistent(old(nodes), webalize) ==> Consistent(nodes, webalize)
      ensures WriteAllowed(old(nodes[k])) ==>
        var e := old(nodes[k]);
        r == Pass && nodes == old(nodes)[k := e.(writeCache := Some(true), access := e.access.(readRoles := e.access.readRoles + [role]))]
      ensures !WriteAllowed(old(nodes[k])) ==>
        r == Fail(PermissionDenied) && nodes == old(nodes)[k := old(nodes[k]).(writeCache := Some(false))]
    {
      var e := nodes[k];
      r := WriteChecked(k, e.(access := e.access.(readRoles := e.access.readRoles + [role])));
    }

    /** `addWriteRole`: after the write check the role is appended to the write roles. */
    method AddWriteRole(k: Key, role: string) returns (r: Outcome<Error>)
      requires Valid() && k in nodes
      modifies this`nodes
      ensures Valid() && LinksOf(nodes) == LinksOf(old(nodes))
      ensures Consistent(old(nodes), webalize) ==> Consistent(nodes, webalize)
      ensures WriteAllowed(old(nodes[k])) ==>
        var e := old(nodes[k]);
        r == Pass && nodes == old(nodes)[k := e.(writeCache := Some(true), access := e.access.(writeRoles := e.access.writeRoles + [role]))]
      ensures !WriteAllowed(old(nodes[k])) ==>
        r == Fail(PermissionDenied) && nodes == old(nodes)[k := old(nodes[k]).(writeCache := Some(false))]
    {
      var e := nodes[k];
      r := WriteChecked(k, e.(access := e.access.(writeRoles := e.access.writeRoles + [role])));
    }

    /** `setAuthor`: a different author (after the write check) is stored and the timestamp bumped. */
    method SetAuthor(k: Key, author: Option<UserId>) returns (r: Outcome<Error>)
      requires Valid() && k in nodes
      modifies this`nodes
      ensures Valid() && LinksOf(nodes) == LinksOf(old(nodes))
      ensures Consistent(old(nodes), webalize) ==> Consistent(nodes, webalize)
      ensures old(nodes[k]).access.author == author ==> r == Pass && nodes == old(nodes)
      ensures old(nodes[k]).access.author != author && WriteAllowed(old(nodes[k])) ==>
        var e := old(nodes[k]);
        r == Pass && nodes == old(nodes)[k := e.(writeCache := Some(true), access := e.access.(author := author), updated := e.updated + 1)]
      ensures old(nodes[k]).access.author != author && !WriteAllowed(old(nodes[k])) ==>
        r == Fail(PermissionDenied) && nodes == old(nodes)[k := old(nodes[k]).(writeCache := Some(false))]
    {
      var e := nodes[k];
      if e.access.author == author {
        return Pass;
      }
      r := WriteChecked(k, e.(access := e.access.(author := author), updated := e.updated + 1));
    }

    /**
     * `setUser`: no check. A different user is stored and both cached answers
     * are dropped; an entity without an author takes the user's identity as
     * its author, which bumps the timestamp.
     */
    method SetUser(k: Key, user: Principal)
      requires Valid() && k in nodes
      modifies this`nodes
      ensures Valid() && LinksOf(nodes) == LinksOf(old(nodes))
      ensures Consistent(old(nodes), webalize) ==> Consistent(nodes, webalize)
      ensures nodes == old(nodes)[k := WithUser(old(nodes[k]), user)]
    {
      var e := nodes[k];
      if e.access.user == Some(user) {
        Put(k, e);  // the same entity again: nothing changes
        return;
      }
      if e.access.author.None? && user.identity.Some? {
        e := e.(access := e.access.(author := user.identity), updated := e.updated + 1);
      }
      Put(k, e.(access := e.access.(user := Some(user)), readCache := None, writeCache := None));
    }

    /** `setProtectedDir`, `setPublicDir` and `setPublicUrl` together: the roots the listener injects. */
    method SetRoots(k: Key, roots: Roots)
      requires Valid() && k in nodes
      modifies this`nodes
      ensures Valid() && LinksOf(nodes) == LinksOf(old(nodes))
      ensures Consistent(old(nodes), webalize) ==> Consistent(nodes, webalize)
      ensures nodes == old(nodes)[k := old(nodes[k]).(roots := roots)]
    {
      Put(k, nodes[k].(roots := roots));
    }

    /** One of the `foreach ... add` loops of `copyPermission`: the roles of `from`, added one by one after `to`. */
    static method AddAll(to: seq<string>, from: seq<string>) returns (r: seq<string>)
      ensures r == to + from
    {
      r := to;
      for i := 0 to |from|
        invariant r == to + from[..i]
      {
        r := r + [from[i]];
      }
    }

    /**
     * The steps of `copyPermission` on the access fields, copying from `from`;
     * `same` says that `from` is the entity's own, which the clearing empties.
     */
    static method CopiedAccess(a: Access, from: Access, same: bool) returns (r: Access)
      requires same ==> from == a
      ensures r == if same then a.(readRoles := [], writeRoles := []) else AccessCopied(a, from)
    {
      var src := from;
      r := a;
      if r.user.None? {
        r := r.(user := src.user);
      }
      r := r.(protected := src.protected, readRoles := [], writeRoles := []);
      if same {
        src := r;
      }
      var rr := AddAll(r.readRoles, src.readRoles);
      var wr := AddAll(r.writeRoles, src.writeRoles);
      assert rr == src.readRoles && wr == src.writeRoles;
      r := r.(readRoles := rr, writeRoles := wr);
    }

    /**
     * `copyPermission(src)`: from `src`, or else the parent, and nothing
     * without either. No check is made. The user is taken over only when none
     * is set; protection and both role lists are replaced. The lists are
     * cleared before they are refilled, so copying from the entity itself
     * leaves them empty.
     */
    method CopyPermission(k: Key, src: Option<Key>)
      requires Valid() && k in nodes && (src.Some? ==> src.value in nodes)
      modifies this`nodes
      ensures Valid() && LinksOf(nodes) == LinksOf(old(nodes))
      ensures Consistent(old(nodes), webalize) ==> Consistent(nodes, webalize)
      ensures var s := if src.Some? then src else old(nodes[k]).parent;
        var e := old(nodes[k]);
        nodes == if s.None? then old(nodes)
                 else if s.value == k then old(nodes)[k := e.(access := e.access.(readRoles := [], writeRoles := []))]
                 else old(nodes)[k := e.(access := AccessCopied(e.access, old(nodes)[s.value].access))]
    {
      var s := if src.Some? then src else nodes[k].parent;
      if s.None? {
        return;
      }
      var e := nodes[k];
      var a := CopiedAccess(e.access, nodes[s.value].access, s.value == k);
      Put(k, e.(access := a));
    }

    /**
     * `Dir::setPermissionRecursively`: every child directory takes its
     * permissions from its parent and passes them on, then every file does.
     * The directory itself keeps its own.
     */
    method SetPermissionRecursively(k: Key)
      requires Valid() && k in nodes && k.D?
      modifies this`nodes
      ensures Valid() && LinksOf(nodes) == LinksOf(old(nodes))
      ensures Consistent(old(nodes), webalize) ==> Consistent(nodes, webalize)
      ensures Done(LinksOf(nodes), depth, old(nodes), nodes, k, CopyStep(), false)
      decreases bound - depth[k], 2
    {
      ghost var links := LinksOf(nodes);
      ghost var m0 := nodes;
      ProgressStart(links, depth, m0, nodes, k, CopyStep(), false);
      var dirs := Children(k, true);
      SetPermissionOf(k, dirs, links, {}, m0);
      var files := Children(k, false);
      SetPermissionOf(k, files, links, dirs, m0);
      ProgressFinish(links, depth, m0, nodes, k, dirs + files, CopyStep(), false);
    }

    /** The loops of `setPermissionRecursively` over the children `todo` of `k`. */
    method SetPermissionOf(k: Key, todo: set<Key>, ghost links: Links, ghost done: set<Key>, ghost m0: map<Key, Node>)
      requires LinksOf(nodes) == links && Sound(links, depth, bound, next) && k in links
      requires forall c :: c in todo ==> c in links && links[c] == Some(k) && c !in done
      requires Progress(links, depth, m0, nodes, k, done, CopyStep(), false)
      requires Consistent(m0, webalize) ==> Consistent(nodes, webalize)
      modifies this`nodes
      ensures LinksOf(nodes) == links && Sound(links, depth, bound, next)
      ensures Consistent(m0, webalize) ==> Consistent(nodes, webalize)
      ensures Progress(links, depth, m0, nodes, k, done + todo, CopyStep(), false)
      decreases bound - depth[k], 1
    {
      ghost var finished := done;
      var rest := todo;
      while rest != {}
        invariant rest <= todo && finished == done + (todo - rest)
        invariant Consistent(m0, webalize) ==> Consistent(nodes, webalize)
        invariant Progress(links, depth, m0, nodes, k, finished, CopyStep(), false)
        decreases |rest|
      {
        var c :| c in rest;
        MoveOne(finished, done, todo, rest, c);
        SetPermissionOfChild(k, c, links, finished, m0);
        rest := rest - {c};
        finished := finished + {c};
      }
      AllMoved(finished, done, todo, rest);
    }

    /** One child's turn in `setPermissionRecursively`: `copyPermission()`, and the recursion for a directory. */
    method SetPermissionOfChild(k: Key, c: Key, ghost links: Links, ghost done: set<Key>, ghost m0: map<Key, Node>)
      requires LinksOf(nodes) == links && Sound(links, depth, bound, next) && k in links
      requires c in links && links[c] == Some(k) && c !in done
      requires Progress(links, depth, m0, nodes, k, done, CopyStep(), false)
      requires Consistent(m0, webalize) ==> Consistent(nodes, webalize)
      modifies this`nodes
      ensures LinksOf(nodes) == links && Sound(links, depth, bound, next)
      ensures Consistent(m0, webalize) ==> Consistent(nodes, webalize)
      ensures Progress(links, depth, m0, nodes, k, done + {c}, CopyStep(), false)
      decreases bound - depth[k], 0
    {
      ghost var m1 := nodes;
      assert depth[k] < depth[c] <= bound;
      CopyPermission(c, None);
      CopyAt(m1, nodes, c, k);
      if c.D? {
        ghost var m1' := nodes;
        SetPermissionRecursively(c);
        SelfThenBelow(links, depth, m1, m1', nodes, c, CopyStep());
      } else {
        FileDone(links, depth, m1, nodes, c, CopyStep());
      }
      ProgressStep(links, depth, m0, m1, nodes, k, done, c, CopyStep(), false);
    }

    /** `Dir::__toString`: the names up the parent chain, collected bottom-up and imploded top-down with "/". */
    method Title(k: Key) returns (s: string)
      requires Valid() && k in nodes
      ensures s == Php.Join("/", Lineage(nodes, depth, k))
    {
      var ret: seq<string> := [];
      var cur: Option<Key> := Some(k);
      while cur.Some?
        invariant cur.Some? ==> cur.value in nodes
        invariant Lineage(nodes, depth, k) == (if cur.Some? then Lineage(nodes, depth, cur.value) else []) + Php.Reversed(ret)
        decreases if cur.Some? then depth[cur.value] + 1 else 0
      {
        var e := nodes[cur.value];
        Php.ReversedSnoc(ret, e.name);
        ret := ret + [e.name];
        cur := e.parent;
      }
      assert [] + Php.Reversed(ret) == Php.Reversed(ret);
      s := Php.Join("/", Php.Reversed(ret));
    }
  }
}
