/**
 * `FilesControl`: the side tree of directories and files. Keys name entities
 * as `d:<id>` and `f:<id>`; the session remembers which directories are
 * expanded; `getFiles` lists a directory's visible children, recursing into
 * the expanded ones; a drop moves an entity next to or into its target.
 *
 * The model identifies an entity's database id with its key number, and
 * takes the database's ordering of the rows by name as the sequence `order`.
 */
module FilesControls {
  import Php
  import opened Wrappers
  import opened Errors
  import opened Nodes
  import opened Forest
  import opened Walks
  import opened Entities

  /** One node of the tree the browser widget receives; a folder's children are present exactly when it is expanded. */
  datatype Item =
    | Folder(title: string, key: string, lazy: bool, children: Option<seq<Item>>)
    | Leaf(title: string, key: string)

  /** Every entity came from the database: its id is its key's number, and ids start at 1. */
  predicate Persisted(m: map<Key, Node>) {
    forall k :: k in m ==> k.n > 0 && m[k].id == Some(k.n)
  }

  /** `substr($key, 2)`: the key without its type prefix. */
  function Tail(key: string): string {
    Php.Substr(key, 2)
  }

  function DirKey(n: nat): string {
    "d:" + Php.NatToString(n)
  }

  function FileKey(n: nat): string {
    "f:" + Php.NatToString(n)
  }

  /** The session id `fileExpand` and `getFiles` derive from a key: `(int)` of its tail, 0 for an empty key. */
  function StateId(key: string): nat {
    Php.IntVal(if Php.Truthy(key) then Tail(key) else "")
  }

  /** The directory `getFiles` lists for a key: the top level when the key's tail is falsy. */
  function ParentOf(key: string): Option<Key> {
    var s := if Php.Truthy(key) then Tail(key) else "";
    if Php.Truthy(s) then Some(D(Php.IntVal(s))) else None
  }

  /** The key of a directory names it again: expanding it records its id, loading it lists its children. */
  lemma DirKeyRoundTrip(n: nat)
    requires n > 0
    ensures StateId(DirKey(n)) == n && ParentOf(DirKey(n)) == Some(D(n))
  {
    var k := DirKey(n);
    assert Tail(k) == Php.NatToString(n);
    Php.IntValOfNatToString(n);
  }

  /** The `onClick` filter: only a directory key forwards, with its tail. */
  function ClickTarget(key: string): (r: Option<string>)
    ensures r.Some? <==> Php.StartsWith(key, "d:")
    ensures r.Some? ==> key == "d:" + r.value
  {
    if Php.Prefix(key, 2) == "d:" then Some(Tail(key)) else None
  }

  /** A click on a directory forwards its id; a click on a file does nothing. */
  lemma ClickTargets(n: nat)
    ensures ClickTarget(DirKey(n)) == Some(Php.NatToString(n))
    ensures ClickTarget(FileKey(n)) == None
  {
    assert DirKey(n)[..2] == "d:";
    assert FileKey(n)[..2] == "f:";
  }

  /** What the listing reads of an entity: name, parent, visibility and whether the read check passes. */
  datatype Row = Row(name: string, parent: Option<Key>, invisible: bool, readable: bool)

  type Rows = map<Key, Row>

  function View(m: map<Key, Node>): (v: Rows)
    ensures v.Keys == m.Keys
  {
    map k | k in m :: Row(m[k].name, m[k].parent, m[k].invisible, ReadAllowed(m[k]))
  }

  function RowLinks(v: Rows): (l: Links)
    ensures l.Keys == v.Keys && forall k :: k in v ==> l[k] == v[k].parent
  {
    map k | k in v :: v[k].parent
  }

  lemma ViewLinks(m: map<Key, Node>)
    ensures RowLinks(View(m)) == LinksOf(m)
  {
  }

  /**
   * `m` differs from `m0` only in read checks answered since: an entity is
   * as it was, or has cached the answer it gave.
   */
  ghost predicate Cached(m0: map<Key, Node>, m: map<Key, Node>) {
    m.Keys == m0.Keys && forall k :: k in m0 ==> CachedAt(m0[k], m[k])
  }

  /** `e` is `e0`, or `e0` with its read check answered and cached. */
  ghost predicate CachedAt(e0: Node, e: Node) {
    e == e0 || e == e0.(readCache := Some(ReadAllowed(e0)))
  }

  lemma CachedAtTrans(e0: Node, e1: Node, e2: Node)
    requires CachedAt(e0, e1) && CachedAt(e1, e2)
    ensures CachedAt(e0, e2) && ReadAllowed(e2) == ReadAllowed(e0)
  {
  }

  lemma CachedView(m0: map<Key, Node>, m: map<Key, Node>)
    requires Cached(m0, m)
    ensures View(m) == View(m0) && LinksOf(m) == LinksOf(m0)
    ensures Persisted(m0) ==> Persisted(m)
  {
    CachedRows(m0, m);
    CachedLinks(m0, m);
    if Persisted(m0) {
      CachedIds(m0, m);
    }
  }

  lemma CachedRows(m0: map<Key, Node>, m: map<Key, Node>)
    requires Cached(m0, m)
    ensures View(m) == View(m0)
  {
    forall k | k in m
      ensures View(m)[k] == View(m0)[k]
    {
      CachedAtTrans(m0[k], m[k], m[k]);
    }
  }

  lemma CachedLinks(m0: map<Key, Node>, m: map<Key, Node>)
    requires Cached(m0, m)
    ensures LinksOf(m) == LinksOf(m0)
  {
    forall k | k in m
      ensures LinksOf(m)[k] == LinksOf(m0)[k]
    {
      assert CachedAt(m0[k], m[k]);
    }
  }

  lemma CachedIds(m0: map<Key, Node>, m: map<Key, Node>)
    requires Cached(m0, m) && Persisted(m0)
    ensures Persisted(m)
  {
    forall k | k in m
      ensures k.n > 0 && m[k].id == Some(k.n)
    {
      assert CachedAt(m0[k], m[k]);
    }
  }

  lemma CachedTrans(m0: map<Key, Node>, m1: map<Key, Node>, m2: map<Key, Node>)
    requires Cached(m0, m1) && Cached(m1, m2)
    ensures Cached(m0, m2)
  {
    forall k | k in m0
      ensures CachedAt(m0[k], m2[k])
    {
      CachedAtTrans(m0[k], m1[k], m2[k]);
    }
  }

  lemma CachedOne(m: map<Key, Node>, k: Key)
    requires k in m
    ensures Cached(m, m[k := m[k].(readCache := Some(ReadAllowed(m[k])))])
  {
  }

  /** The entity is one of the listing's rows: of the kind asked for, visible and below `p`. */
  predicate Shown(v: Rows, k: Key, p: Option<Key>, dirs: bool) {
    k in v && k.D? == dirs && !v[k].invisible && v[k].parent == p
  }

  /** A repository query: the rows of `order` that are shown, in that order. */
  function Select(v: Rows, order: seq<Key>, p: Option<Key>, dirs: bool): (r: seq<Key>)
    ensures forall k :: k in r <==> k in order && Shown(v, k, p, dirs)
    ensures forall i :: 0 <= i < |r| ==> Shown(v, r[i], p, dirs)
    decreases |order|
  {
    if order == [] then []
    else (if Shown(v, order[0], p, dirs) then [order[0]] else []) + Select(v, order[1..], p, dirs)
  }

  /** `count($page->children) > 0 || count($page->files) > 0`: any child, visible or not. */
  predicate HasChildren(v: Rows, c: Key) {
    exists x :: x in v && v[x].parent == Some(c)
  }

  /** `getState($id)`. */
  predicate Lookup(state: map<nat, bool>, id: nat) {
    id in state && state[id]
  }

  /** The recursion measure: directories deeper in the forest are lower; the top level is highest. */
  function Measure(depth: map<Key, nat>, bound: nat, p: Option<Key>): nat {
    if p.Some? && p.value in depth && depth[p.value] <= bound then bound - depth[p.value] else bound + 1
  }

  /** Items of one query, then items of the next, unless the first failed. */
  function Then(a: Result<seq<Item>, Error>, b: Result<seq<Item>, Error>): Result<seq<Item>, Error> {
    if a.Err? then a else if b.Err? then b else Ok(a.value + b.value)
  }

  ghost predicate Tree(v: Rows, depth: map<Key, nat>, bound: nat) {
    Ranked(RowLinks(v), depth) && Bounded(RowLinks(v), depth, bound)
  }

  /**
   * What `getFiles` answers for the directory `p` (the top level for None),
   * on a session `state` in which `p` is already marked expanded: the shown
   * directories, then the shown files, the first unreadable name failing
   * the whole answer.
   */
  ghost function Listing(v: Rows, depth: map<Key, nat>, bound: nat, state: map<nat, bool>, order: seq<Key>,
                         p: Option<Key>): Result<seq<Item>, Error>
    requires Tree(v, depth, bound)
    decreases Measure(depth, bound, p), 1, 0
  {
    Then(Folders(v, depth, bound, state, order, p, Select(v, order, p, true)),
         Leaves(v, Select(v, order, p, false)))
  }

  /** The directories `cs` of the listing of `p`, in order; the first failure ends it. */
  ghost function Folders(v: Rows, depth: map<Key, nat>, bound: nat, state: map<nat, bool>, order: seq<Key>,
                         p: Option<Key>, cs: seq<Key>): Result<seq<Item>, Error>
    requires Tree(v, depth, bound)
    requires forall i :: 0 <= i < |cs| ==> Shown(v, cs[i], p, true)
    decreases Measure(depth, bound, p), 0, |cs|
  {
    if cs == [] then Ok([])
    else
      var it := FolderOf(v, depth, bound, state, order, p, cs[0]);
      if it.Err? then Err(it.error)
      else Then(Ok([it.value]), Folders(v, depth, bound, state, order, p, cs[1..]))
  }

  /**
   * One directory's item: its name behind the read check, its key, whether
   * it has any child, and its own listing when the session has it expanded.
   */
  ghost function FolderOf(v: Rows, depth: map<Key, nat>, bound: nat, state: map<nat, bool>, order: seq<Key>,
                          p: Option<Key>, c: Key): Result<Item, Error>
    requires Tree(v, depth, bound) && Shown(v, c, p, true)
    decreases Measure(depth, bound, p), 0, 0
  {
    if !v[c].readable then Err(PermissionDenied)
    else
      var e := Expansion(v, depth, bound, state, order, c);
      if e.Err? then Err(e.error)
      else Ok(Folder(v[c].name, DirKey(c.n), HasChildren(v, c), e.value))
  }

  /** A directory's children in the tree: its listing when the session has it expanded, else none. */
  ghost function Expansion(v: Rows, depth: map<Key, nat>, bound: nat, state: map<nat, bool>, order: seq<Key>,
                           c: Key): Result<Option<seq<Item>>, Error>
    requires Tree(v, depth, bound)
    decreases Measure(depth, bound, Some(c)), 2, 0
  {
    if !Lookup(state, c.n) then Ok(None)
    else
      var sub := Listing(v, depth, bound, state, order, Some(c));
      if sub.Err? then Err(sub.error) else Ok(Some(sub.value))
  }

  ghost function Leaves(v: Rows, fs: seq<Key>): Result<seq<Item>, Error>
    requires forall i :: 0 <= i < |fs| ==> fs[i] in v
    decreases |fs|
  {
    if fs == [] then Ok([])
    else if !v[fs[0]].readable then Err(PermissionDenied)
    else Then(Ok([Leaf(v[fs[0]].name, FileKey(fs[0].n))]), Leaves(v, fs[1..]))
  }

  /** Every row is readable. */
  ghost predicate AllReadable(v: Rows) {
    forall k :: k in v ==> v[k].readable
  }

  /** The file part of a listing: one leaf per file, titled by its name and keyed `f:<id>`. */
  lemma {:induction false} LeavesShape(v: Rows, fs: seq<Key>)
    requires forall i :: 0 <= i < |fs| ==> fs[i] in v
    ensures var r := Leaves(v, fs);
      && (r.Err? ==> r.error == PermissionDenied && exists i :: 0 <= i < |fs| && !v[fs[i]].readable)
      && (r.Ok? ==> |r.value| == |fs| && forall i :: 0 <= i < |fs| ==> r.value[i] == Leaf(v[fs[i]].name, FileKey(fs[i].n)))
      && ((forall i :: 0 <= i < |fs| ==> v[fs[i]].readable) ==> r.Ok?)
    decreases |fs|
  {
    if fs != [] {
      LeavesShape(v, fs[1..]);
      var r := Leaves(v, fs);
      if v[fs[0]].readable && Leaves(v, fs[1..]).Err? {
        var i :| 0 <= i < |fs[1..]| && !v[fs[1..][i]].readable;
        assert !v[fs[i + 1]].readable;
      }
    }
  }

  /** The item of directory `c`: titled by its name, keyed `d:<id>`, lazy iff it has a child, expanded iff its state is set. */
  ghost predicate FolderRow(v: Rows, state: map<nat, bool>, c: Key, it: Item)
    requires c in v
  {
    && it.Folder? && it.title == v[c].name && it.key == DirKey(c.n)
    && it.lazy == HasChildren(v, c) && (it.children.Some? <==> Lookup(state, c.n))
  }

  /** The directory part of a listing: one folder per directory, lazy iff it has children, expanded iff its state says so. */
  lemma {:induction false} FoldersShape(v: Rows, depth: map<Key, nat>, bound: nat, state: map<nat, bool>, order: seq<Key>,
                                        p: Option<Key>, cs: seq<Key>)
    requires Tree(v, depth, bound)
    requires forall i :: 0 <= i < |cs| ==> Shown(v, cs[i], p, true)
    ensures var r := Folders(v, depth, bound, state, order, p, cs);
      && (r.Err? ==> r.error == PermissionDenied)
      && (r.Ok? ==> |r.value| == |cs| && forall i :: 0 <= i < |cs| ==> FolderRow(v, state, cs[i], r.value[i]))
      && (r.Ok? ==> forall i :: 0 <= i < |cs| ==> v[cs[i]].readable)
    decreases Measure(depth, bound, p), 0, |cs|
  {
    if cs != [] {
      FolderOfShape(v, depth, bound, state, order, p, cs[0]);
      if v[cs[0]].readable {
        FoldersShape(v, depth, bound, state, order, p, cs[1..]);
      }
    }
  }

  /** One directory's item: titled and keyed after it, lazy iff it has children, expanded iff its state says so. */
  lemma {:induction false} FolderOfShape(v: Rows, depth: map<Key, nat>, bound: nat, state: map<nat, bool>, order: seq<Key>,
                                         p: Option<Key>, c: Key)
    requires Tree(v, depth, bound) && Shown(v, c, p, true)
    ensures var r := FolderOf(v, depth, bound, state, order, p, c);
      && (r.Err? ==> r.error == PermissionDenied)
      && (r.Ok? ==> v[c].readable && FolderRow(v, state, c, r.value))
      && (!v[c].readable ==> r.Err?)
      && (AllReadable(v) ==> r.Ok?)
    decreases Measure(depth, bound, p), 0, 0
  {
    if v[c].readable && Lookup(state, c.n) {
      MeasureDrops(v, depth, bound, p, c);
      ListingErrors(v, depth, bound, state, order, Some(c));
      if AllReadable(v) {
        ListingSucceeds(v, depth, bound, state, order, Some(c));
      }
    }
  }

  /** A listing fails only with `PermissionDenied`. */
  lemma {:induction false} ListingErrors(v: Rows, depth: map<Key, nat>, bound: nat, state: map<nat, bool>, order: seq<Key>,
                                         p: Option<Key>)
    requires Tree(v, depth, bound)
    ensures var r := Listing(v, depth, bound, state, order, p); r.Err? ==> r.error == PermissionDenied
    decreases Measure(depth, bound, p), 1, 0
  {
    FoldersShape(v, depth, bound, state, order, p, Select(v, order, p, true));
    LeavesShape(v, Select(v, order, p, false));
  }

  /**
   * `getFiles`' answer: the shown directories of the query, in its order,
   * then its shown files; folders keyed `d:<id>`, lazy iff they have any
   * child, expanded iff their state is set; leaves keyed `f:<id>`. When
   * every entity may be read, the answer is never a failure.
   */
  lemma ListingShape(v: Rows, depth: map<Key, nat>, bound: nat, state: map<nat, bool>, order: seq<Key>, p: Option<Key>)
    requires Tree(v, depth, bound)
    ensures var r := Listing(v, depth, bound, state, order, p);
      var dirs := Select(v, order, p, true);
      var files := Select(v, order, p, false);
      && (r.Err? ==> r.error == PermissionDenied)
      && (r.Ok? ==> |r.value| == |dirs| + |files|)
      && (r.Ok? ==> forall i :: 0 <= i < |dirs| ==> FolderRow(v, state, dirs[i], r.value[i]))
      && (r.Ok? ==> forall j :: 0 <= j < |files| ==> r.value[|dirs| + j] == Leaf(v[files[j]].name, FileKey(files[j].n)))
  {
    var dirs := Select(v, order, p, true);
    var files := Select(v, order, p, false);
    var folders := Folders(v, depth, bound, state, order, p, dirs);
    var leaves := Leaves(v, files);
    FoldersShape(v, depth, bound, state, order, p, dirs);
    LeavesShape(v, files);
    ThenParts(folders, leaves);
    var r := Listing(v, depth, bound, state, order, p);
    assert r == Then(folders, leaves);
    if r.Ok? {
      forall i | 0 <= i < |dirs|
        ensures r.value[i] == folders.value[i]
      {
      }
      forall j | 0 <= j < |files|
        ensures r.value[|dirs| + j] == leaves.value[j]
      {
      }
    }
  }

  lemma ThenParts(a: Result<seq<Item>, Error>, b: Result<seq<Item>, Error>)
    ensures var r := Then(a, b);
      && (r.Ok? <==> a.Ok? && b.Ok?)
      && (r.Err? ==> r.error == if a.Err? then a.error else b.error)
      && (r.Ok? ==> r.value == a.value + b.value)
  {
  }

  /** With every entity readable, `getFiles` answers. */
  lemma {:induction false} ListingSucceeds(v: Rows, depth: map<Key, nat>, bound: nat, state: map<nat, bool>, order: seq<Key>,
                                           p: Option<Key>)
    requires Tree(v, depth, bound) && AllReadable(v)
    ensures Listing(v, depth, bound, state, order, p).Ok?
    decreases Measure(depth, bound, p), 1, 0
  {
    FoldersSucceed(v, depth, bound, state, order, p, Select(v, order, p, true));
    LeavesShape(v, Select(v, order, p, false));
  }

  lemma {:induction false} FoldersSucceed(v: Rows, depth: map<Key, nat>, bound: nat, state: map<nat, bool>, order: seq<Key>,
                                          p: Option<Key>, cs: seq<Key>)
    requires Tree(v, depth, bound) && AllReadable(v)
    requires forall i :: 0 <= i < |cs| ==> Shown(v, cs[i], p, true)
    ensures Folders(v, depth, bound, state, order, p, cs).Ok?
    decreases Measure(depth, bound, p), 0, |cs|
  {
    if cs != [] {
      FolderOfShape(v, depth, bound, state, order, p, cs[0]);
      FoldersSucceed(v, depth, bound, state, order, p, cs[1..]);
    }
  }

  /** The items produced for `cs[..i]` followed by those for the rest, as the loop of `getFiles` builds them. */
  function Prepend(data: seq<Item>, rest: Result<seq<Item>, Error>): Result<seq<Item>, Error> {
    if rest.Err? then rest else Ok(data + rest.value)
  }
  /** `Folders` from the `i`-th directory on: that directory's item, then the rest. */
  lemma FoldersAt(v: Rows, depth: map<Key, nat>, bound: nat, state: map<nat, bool>, order: seq<Key>,
                  p: Option<Key>, cs: seq<Key>, i: nat)
    requires Tree(v, depth, bound) && i < |cs|
    requires forall j :: 0 <= j < |cs| ==> Shown(v, cs[j], p, true)
    ensures var it := FolderOf(v, depth, bound, state, order, p, cs[i]);
      Folders(v, depth, bound, state, order, p, cs[i..]) ==
        if it.Err? then Err(it.error) else Then(Ok([it.value]), Folders(v, depth, bound, state, order, p, cs[i + 1..]))
  {
    assert cs[i..][1..] == cs[i + 1..];
  }

  /** The directory loop of `getFiles` has built `data` from the first `i` directories of `cs`. */
  ghost predicate Building(v: Rows, depth: map<Key, nat>, bound: nat, state: map<nat, bool>, order: seq<Key>,
                           p: Option<Key>, cs: seq<Key>, i: nat, data: seq<Item>) {
    && Tree(v, depth, bound) && i <= |cs|
    && (forall j :: 0 <= j < |cs| ==> Shown(v, cs[j], p, true))
    && FoldersRest(v, depth, bound, state, order, p, cs, i, data)
  }

  /** `data` followed by the items of the directories from the `i`-th on is the whole directory part of the listing. */
  ghost predicate FoldersRest(v: Rows, depth: map<Key, nat>, bound: nat, state: map<nat, bool>, order: seq<Key>,
                              p: Option<Key>, cs: seq<Key>, i: nat, data: seq<Item>)
    requires Tree(v, depth, bound) && i <= |cs|
    requires forall j :: 0 <= j < |cs| ==> Shown(v, cs[j], p, true)
  {
    Folders(v, depth, bound, state, order, p, cs) == Prepend(data, Folders(v, depth, bound, state, order, p, cs[i..]))
  }

  lemma BuildingStart(v: Rows, depth: map<Key, nat>, bound: nat, state: map<nat, bool>, order: seq<Key>,
                      p: Option<Key>, cs: seq<Key>)
    requires Tree(v, depth, bound) && forall j :: 0 <= j < |cs| ==> Shown(v, cs[j], p, true)
    ensures Building(v, depth, bound, state, order, p, cs, 0, [])
  {
    assert cs[0..] == cs;
    PrependNil(Folders(v, depth, bound, state, order, p, cs));
  }

  lemma BuildingDone(v: Rows, depth: map<Key, nat>, bound: nat, state: map<nat, bool>, order: seq<Key>,
                     p: Option<Key>, cs: seq<Key>, data: seq<Item>)
    requires Building(v, depth, bound, state, order, p, cs, |cs|, data)
    ensures Folders(v, depth, bound, state, order, p, cs) == Ok(data)
  {
    assert cs[|cs|..] == [];
    PrependAll(data);
  }

  /** One turn of the directory loop: a failed item ends the listing, a good one joins what is built. */
  lemma BuildingStep(v: Rows, depth: map<Key, nat>, bound: nat, state: map<nat, bool>, order: seq<Key>,
                     p: Option<Key>, cs: seq<Key>, i: nat, data: seq<Item>, item: Result<Item, Error>)
    requires Building(v, depth, bound, state, order, p, cs, i, data) && i < |cs|
    requires item == FolderOf(v, depth, bound, state, order, p, cs[i])
    ensures item.Err? ==> Folders(v, depth, bound, state, order, p, cs) == Err(item.error)
    ensures item.Ok? ==> Building(v, depth, bound, state, order, p, cs, i + 1, data + [item.value])
  {
    FoldersAt(v, depth, bound, state, order, p, cs, i);
    if item.Ok? {
      PrependSnoc(data, item.value, Folders(v, depth, bound, state, order, p, cs[i + 1..]));
    }
  }

  /** `Leaves` from the `i`-th file on: that file's leaf, then the rest. */
  lemma LeavesAt(v: Rows, fs: seq<Key>, i: nat)
    requires i < |fs| && forall j :: 0 <= j < |fs| ==> fs[j] in v
    ensures Leaves(v, fs[i..]) ==
      if !v[fs[i]].readable then Err(PermissionDenied) else Then(Ok([Leaf(v[fs[i]].name, FileKey(fs[i].n))]), Leaves(v, fs[i + 1..]))
  {
    assert fs[i..][1..] == fs[i + 1..];
  }

  /** The file loop of `getFiles` has built `data` from the first `i` files of `fs`. */
  ghost predicate Gathering(v: Rows, fs: seq<Key>, i: nat, data: seq<Item>) {
    && i <= |fs| && (forall j :: 0 <= j < |fs| ==> fs[j] in v)
    && LeavesRest(v, fs, i, data)
  }

  /** `data` followed by the leaves of the files from the `i`-th on is the whole file part of the listing. */
  ghost predicate LeavesRest(v: Rows, fs: seq<Key>, i: nat, data: seq<Item>)
    requires i <= |fs| && forall j :: 0 <= j < |fs| ==> fs[j] in v
  {
    Leaves(v, fs) == Prepend(data, Leaves(v, fs[i..]))
  }

  lemma GatheringStart(v: Rows, fs: seq<Key>)
    requires forall j :: 0 <= j < |fs| ==> fs[j] in v
    ensures Gathering(v, fs, 0, [])
  {
    assert fs[0..] == fs;
    PrependNil(Leaves(v, fs));
  }

  lemma GatheringDone(v: Rows, fs: seq<Key>, data: seq<Item>)
    requires Gathering(v, fs, |fs|, data)
    ensures Leaves(v, fs) == Ok(data)
  {
    assert fs[|fs|..] == [];
    PrependAll(data);
  }

  /** One turn of the file loop. */
  lemma GatheringStep(v: Rows, fs: seq<Key>, i: nat, data: seq<Item>, name: Result<string, Error>)
    requires Gathering(v, fs, i, data) && i < |fs|
    requires name == if v[fs[i]].readable then Ok(v[fs[i]].name) else Err(PermissionDenied)
    ensures name.Err? ==> Leaves(v, fs) == Err(PermissionDenied)
    ensures name.Ok? ==> Gathering(v, fs, i + 1, data + [Leaf(name.value, FileKey(fs[i].n))])
  {
    LeavesAt(v, fs, i);
    if name.Ok? {
      PrependSnoc(data, Leaf(name.value, FileKey(fs[i].n)), Leaves(v, fs[i + 1..]));
    }
  }

  lemma PrependNil(rest: Result<seq<Item>, Error>)
    ensures Prepend([], rest) == rest
  {
    if rest.Ok? {
      assert [] + rest.value == rest.value;
    }
  }

  lemma PrependAll(data: seq<Item>)
    ensures Prepend(data, Ok([])) == Ok(data)
  {
    assert data + [] == data;
  }

  lemma PrependSnoc(data: seq<Item>, it: Item, rest: Result<seq<Item>, Error>)
    ensures Prepend(data, Then(Ok([it]), rest)) == Prepend(data + [it], rest)
  {
    if rest.Ok? {
      assert data + ([it] + rest.value) == data + [it] + rest.value;
    }
  }


  /**
   * The page the drop puts the entity in: the target's parent (behind the
   * target's read check) for `before`/`after`, else the target itself, which
   * must be a directory. A missing target reads as `null`.
   */
  function Destination(m: map<Key, Node>, t: Key, dropMode: string): Result<Option<Key>, Error> {
    if dropMode == "before" || dropMode == "after" then
      if t !in m then Ok(None)
      else if !ReadAllowed(m[t]) then Err(PermissionDenied)
      else Ok(m[t].parent)
    else if t !in m then Ok(None)
    else if t.F? then Err(WrongType)
    else Ok(Some(t))
  }

  /** `substr($s, 0, 1)` picks the repository, `substr($s, 2)` the id. */
  function KeyOf(s: string): Key {
    var id := Php.IntVal(Php.Substr(s, 2));
    if Php.Prefix(s, 1) == "d" then D(id) else F(id)
  }

  lemma KeyOfRoundTrip(k: Key)
    ensures KeyOf(if k.D? then DirKey(k.n) else FileKey(k.n)) == k
  {
    var s := if k.D? then DirKey(k.n) else FileKey(k.n);
    assert Php.Substr(s, 2) == Php.NatToString(k.n);
    Php.IntValOfNatToString(k.n);
    assert Php.Prefix(s, 1) == (if k.D? then "d" else "f");
  }

  /**
   * The drop as written: the entity's parent pointer simply becomes the
   * destination, even when that lies inside the entity's own subtree.
   */
  function DropAsWritten(links: Links, k: Key, p: Option<Key>): Links {
    links[k := p]
  }

  /**
   * Dropping a directory into its own child makes the two each other's
   * parent: no ranking of the result exists, so its ancestor chains never
   * end (`__toString` and `checkCurrentDir` would loop).
   */
  lemma DropIntoChildMakesCycle(depth: map<Key, nat>)
    ensures var links := map[D(1) := None, D(2) := Some(D(1))];
      !Ranked(DropAsWritten(links, D(1), Some(D(2))), depth)
  {
    var links := map[D(1) := None, D(2) := Some(D(1))];
    var r := DropAsWritten(links, D(1), Some(D(2)));
    assert r[D(1)] == Some(D(2)) && r[D(2)] == Some(D(1));
  }

  /** The drop would put `k` below itself. */
  ghost predicate Loops(m: map<Key, Node>, depth: map<Key, nat>, k: Key, p: Option<Key>) {
    p.Some? && Ranked(LinksOf(m), depth) && p.value in m && Within(LinksOf(m), depth, p.value, k)
  }

  lemma GetCached(m0: map<Key, Node>, m1: map<Key, Node>, m2: map<Key, Node>, c: Key)
    requires Cached(m0, m1) && c in m1
    requires m2 == m1[c := m1[c].(readCache := Some(ReadAllowed(m1[c])))]
    ensures Cached(m0, m2) && View(m2) == View(m0) && LinksOf(m2) == LinksOf(m0)
    ensures Persisted(m0) ==> Persisted(m2)
    ensures m2[c].name == m0[c].name
  {
    CachedOne(m1, c);
    CachedTrans(m0, m1, m2);
    CachedView(m0, m2);
  }

  /** Two child sets, one of directories and one of files: one is non-empty iff some entity has `c` as parent. */
  lemma AnyChild(m: map<Key, Node>, c: Key, ds: set<Key>, fs: set<Key>)
    requires forall x :: x in ds <==> x in m && m[x].parent == Some(c) && x.D?
    requires forall x :: x in fs <==> x in m && m[x].parent == Some(c) && !x.D?
    ensures (|ds| > 0 || |fs| > 0) <==> HasChildren(View(m), c)
  {
    if HasChildren(View(m), c) {
      var x :| x in View(m) && View(m)[x].parent == Some(c);
      assert x in ds || x in fs;
    }
    if |ds| > 0 {
      var x :| x in ds;
      assert View(m)[x].parent == Some(c);
    } else if |fs| > 0 {
      var x :| x in fs;
      assert View(m)[x].parent == Some(c);
    }
  }

  /** A shown child directory is ranked below the directory it is listed under. */
  lemma MeasureDrops(v: Rows, depth: map<Key, nat>, bound: nat, p: Option<Key>, c: Key)
    requires Tree(v, depth, bound) && Shown(v, c, p, true)
    ensures Measure(depth, bound, Some(c)) < Measure(depth, bound, p)
  {
    assert RowLinks(v)[c] == p;
  }

  /** Two states with the same links agree on what a move of `k` to `p` would do to the forest. */
  lemma SameShape(m0: map<Key, Node>, m1: map<Key, Node>, depth: map<Key, nat>, k: Key, p: Option<Key>)
    requires LinksOf(m0) == LinksOf(m1) && k in m0
    ensures k in m1 && m1[k].parent == m0[k].parent
    ensures Loops(m0, depth, k, p) == Loops(m1, depth, k, p)
  {
    assert LinksOf(m0)[k] == LinksOf(m1)[k];
  }

  /** The store is sound, was loaded from the database, and has changed since `m0` only in cached read checks. */
  ghost predicate Ready(st: Store, m0: map<Key, Node>)
    reads st
  {
    st.Valid() && Persisted(m0) && Cached(m0, st.nodes) && Tree(View(m0), st.depth, st.bound)
  }

  /** What `Ready` gives the next call: a sound, persisted store that still shows the rows of `m0`. */
  lemma ReadyNow(st: Store, m0: map<Key, Node>)
    requires Ready(st, m0)
    ensures st.Valid() && Persisted(st.nodes) && View(st.nodes) == View(m0)
  {
    CachedView(m0, st.nodes);
  }

  lemma ReadyTrans(st: Store, m0: map<Key, Node>, m1: map<Key, Node>)
    requires Persisted(m0) && Tree(View(m0), st.depth, st.bound) && Cached(m0, m1) && Ready(st, m1)
    ensures Ready(st, m0)
  {
    CachedTrans(m0, m1, st.nodes);
  }

  lemma ExpansionOf(v: Rows, depth: map<Key, nat>, bound: nat, state: map<nat, bool>, order: seq<Key>, c: Key,
                    sub: Result<seq<Item>, Error>)
    requires Tree(v, depth, bound) && Lookup(state, c.n) && sub == Listing(v, depth, bound, state, order, Some(c))
    ensures Expansion(v, depth, bound, state, order, c) == if sub.Err? then Err(sub.error) else Ok(Some(sub.value))
  {
  }

  lemma ShownIn(m0: map<Key, Node>, p: Option<Key>, fs: seq<Key>)
    requires forall i :: 0 <= i < |fs| ==> Shown(View(m0), fs[i], p, false)
    ensures forall i :: 0 <= i < |fs| ==> fs[i] in m0
  {
  }

  /** A directory's item from its parts: its name behind the read check, its laziness, its expansion. */
  lemma FolderOfIs(m0: map<Key, Node>, depth: map<Key, nat>, bound: nat, state: map<nat, bool>, order: seq<Key>,
                   p: Option<Key>, c: Key, name: Result<string, Error>, lazy: bool, children: Result<Option<seq<Item>>, Error>)
    requires Tree(View(m0), depth, bound) && Shown(View(m0), c, p, true)
    requires name == if ReadAllowed(m0[c]) then Ok(m0[c].name) else Err(PermissionDenied)
    requires name.Ok? ==> lazy == HasChildren(View(m0), c) && children == Expansion(View(m0), depth, bound, state, order, c)
    ensures FolderOf(View(m0), depth, bound, state, order, p, c) == Assembled(c, name, lazy, children)
  {
  }

  /** The item `getFiles` builds for directory `c`; a refused name or listing is the item's error. */
  function Assembled(c: Key, name: Result<string, Error>, lazy: bool, children: Result<Option<seq<Item>>, Error>): Result<Item, Error> {
    if name.Err? then Err(PermissionDenied)
    else if children.Err? then Err(children.error)
    else Ok(Folder(name.value, DirKey(c.n), lazy, children.value))
  }

  /** Marking an expanded directory expanded again leaves the session as it was. */
  lemma StillExpanded(state: map<nat, bool>, id: nat)
    requires Lookup(state, id)
    ensures state[id := true] == state
  {
  }

  lemma ReadyAtStart(st: Store)
    requires st.Valid() && Persisted(st.nodes)
    ensures Ready(st, st.nodes)
  {
    ViewLinks(st.nodes);
  }

  class FilesControl {
    /** The session's `state` array. */
    var state: map<nat, bool>

    constructor (session: map<nat, bool>)
      ensures state == session
    {
      state := session;
    }

    /** `getState($id)`: false for an id never set, else the value last stored. */
    predicate GetState(id: nat)
      reads this
      ensures GetState(id) <==> id in state && state[id]
    {
      id in state && state[id]
    }

    /** `setState($id, $state)`. */
    method SetState(id: nat, open: bool)
      modifies this
      ensures state == old(state)[id := open]
      ensures open && Lookup(old(state), id) ==> unchanged(this)
    {
      if open && Lookup(state, id) {
        StillExpanded(state, id);
      }
      state := state[id := open];
    }

    /** `fileExpand($key, $open)`. */
    method FileExpand(key: string, open: bool)
      modifies this
      ensures state == old(state)[StateId(key) := open]
    {
      var k := if Php.Truthy(key) then Tail(key) else "";
      SetState(Php.IntVal(k), open);
    }

    /**
     * `getFiles($parent)`: marks the directory expanded, then lists it. Only
     * read checks change the entities.
     */
    method GetFiles(st: Store, order: seq<Key>, key: string) returns (r: Result<seq<Item>, Error>)
      requires st.Valid() && Persisted(st.nodes)
      modifies this, st`nodes
      ensures Ready(st, old(st.nodes))
      ensures state == old(state)[StateId(key) := true]
      ensures Lookup(old(state), StateId(key)) ==> unchanged(this)
      ensures r == Listing(View(old(st.nodes)), st.depth, st.bound, state, order, ParentOf(key))
      decreases Measure(st.depth, st.bound, ParentOf(key)), 7
    {
      var s := if Php.Truthy(key) then Tail(key) else "";
      SetState(Php.IntVal(s), true);
      r := ListUnder(st, order, if Php.Truthy(s) then Some(D(Php.IntVal(s))) else None);
    }

    /** The two queries and loops of `getFiles` for the directory `p`. */
    method ListUnder(st: Store, order: seq<Key>, p: Option<Key>) returns (r: Result<seq<Item>, Error>)
      requires st.Valid() && Persisted(st.nodes)
      modifies this, st`nodes
      ensures Ready(st, old(st.nodes)) && unchanged(this)
      ensures r == Listing(View(old(st.nodes)), st.depth, st.bound, state, order, p)
      decreases Measure(st.depth, st.bound, p), 6
    {
      ghost var m0 := st.nodes;
      ReadyAtStart(st);
      var dirs := Select(View(st.nodes), order, p, true);
      var files := Select(View(st.nodes), order, p, false);
      ShownIn(m0, p, files);
      r := ListParts(st, order, p, dirs, files, m0);
    }

    /** The directories of `getFiles`, then, unless one failed, its files. */
    method ListParts(st: Store, order: seq<Key>, p: Option<Key>, dirs: seq<Key>, files: seq<Key>, ghost m0: map<Key, Node>)
      returns (r: Result<seq<Item>, Error>)
      requires Ready(st, m0)
      requires forall i :: 0 <= i < |dirs| ==> Shown(View(m0), dirs[i], p, true)
      requires forall i :: 0 <= i < |files| ==> files[i] in m0
      modifies this, st`nodes
      ensures Ready(st, m0) && unchanged(this)
      ensures r == Then(Folders(View(m0), st.depth, st.bound, state, order, p, dirs), Leaves(View(m0), files))
      decreases Measure(st.depth, st.bound, p), 5
    {
      var folders := ListFolders(st, order, p, dirs, m0);
      if folders.Err? {
        return folders;
      }
      var leaves := ListLeaves(st, files, m0);
      r := Then(folders, leaves);
    }

    /** The loop over the directories of `getFiles`. */
    method ListFolders(st: Store, order: seq<Key>, p: Option<Key>, cs: seq<Key>, ghost m0: map<Key, Node>)
      returns (r: Result<seq<Item>, Error>)
      requires Ready(st, m0)
      requires forall i :: 0 <= i < |cs| ==> Shown(View(m0), cs[i], p, true)
      modifies this, st`nodes
      ensures Ready(st, m0) && unchanged(this)
      ensures r == Folders(View(m0), st.depth, st.bound, state, order, p, cs)
      decreases Measure(st.depth, st.bound, p), 4
    {
      ghost var v := View(m0);
      var data: seq<Item> := [];
      var i := 0;
      BuildingStart(v, st.depth, st.bound, state, order, p, cs);
      while i < |cs|
        invariant Ready(st, m0) && unchanged(this)
        invariant Building(v, st.depth, st.bound, state, order, p, cs, i, data)
      {
        var item := FolderStep(st, order, p, cs, i, data, m0);
        if item.Err? {
          return Err(item.error);
        }
        data := data + [item.value];
        i := i + 1;
      }
      BuildingDone(v, st.depth, st.bound, state, order, p, cs, data);
      r := Ok(data);
    }

    /** One turn of the directory loop of `getFiles`. */
    method FolderStep(st: Store, order: seq<Key>, p: Option<Key>, cs: seq<Key>, i: nat, ghost data: seq<Item>,
                      ghost m0: map<Key, Node>) returns (item: Result<Item, Error>)
      requires Ready(st, m0) && i < |cs|
      requires Building(View(m0), st.depth, st.bound, state, order, p, cs, i, data)
      modifies this, st`nodes
      ensures Ready(st, m0) && unchanged(this)
      ensures item.Err? ==> Folders(View(m0), st.depth, st.bound, state, order, p, cs) == Err(item.error)
      ensures item.Ok? ==> Building(View(m0), st.depth, st.bound, state, order, p, cs, i + 1, data + [item.value])
      decreases Measure(st.depth, st.bound, p), 3
    {
      item := FolderItem(st, order, p, cs[i], m0);
      BuildingStep(View(m0), st.depth, st.bound, state, order, p, cs, i, data, item);
    }

    /** One directory of `getFiles`: its name, key and laziness, then its listing when expanded. */
    method FolderItem(st: Store, order: seq<Key>, p: Option<Key>, c: Key, ghost m0: map<Key, Node>)
      returns (r: Result<Item, Error>)
      requires Ready(st, m0) && Shown(View(m0), c, p, true)
      modifies this, st`nodes
      ensures Ready(st, m0) && unchanged(this)
      ensures r == FolderOf(View(m0), st.depth, st.bound, state, order, p, c)
      decreases Measure(st.depth, st.bound, p), 2
    {
      var name := NameOf(st, c, m0);
      r := FolderBody(st, order, p, c, name, m0);
    }

    /** The rest of a directory's item once its name was read: nothing more for a refused one. */
    method FolderBody(st: Store, order: seq<Key>, p: Option<Key>, c: Key, name: Result<string, Error>, ghost m0: map<Key, Node>)
      returns (r: Result<Item, Error>)
      requires Ready(st, m0) && Shown(View(m0), c, p, true)
      requires name == if ReadAllowed(m0[c]) then Ok(m0[c].name) else Err(PermissionDenied)
      modifies this, st`nodes
      ensures Ready(st, m0) && unchanged(this)
      ensures r == FolderOf(View(m0), st.depth, st.bound, state, order, p, c)
      decreases Measure(st.depth, st.bound, p), 1
    {
      var lazy := false;
      var children: Result<Option<seq<Item>>, Error> := Ok(None);
      if name.Ok? {
        lazy, children := OpenFolder(st, order, p, c, m0);
      }
      FolderOfIs(m0, st.depth, st.bound, state, order, p, c, name, lazy, children);
      r := Assembled(c, name, lazy, children);
    }

    /** What a readable directory's item holds besides its name: whether it has children, and its listing when expanded. */
    method OpenFolder(st: Store, order: seq<Key>, p: Option<Key>, c: Key, ghost m0: map<Key, Node>)
      returns (lazy: bool, children: Result<Option<seq<Item>>, Error>)
      requires Ready(st, m0) && Shown(View(m0), c, p, true)
      modifies this, st`nodes
      ensures Ready(st, m0) && unchanged(this)
      ensures lazy == HasChildren(View(m0), c)
      ensures children == Expansion(View(m0), st.depth, st.bound, state, order, c)
      decreases Measure(st.depth, st.bound, p), 0
    {
      lazy := Lazy(st, c, m0);
      MeasureDrops(View(m0), st.depth, st.bound, p, c);
      children := Expanded(st, order, c, m0);
    }

    /** `count($page->children) > 0 || count($page->files) > 0`. */
    method Lazy(st: Store, c: Key, ghost m0: map<Key, Node>) returns (b: bool)
      requires Cached(m0, st.nodes)
      ensures b == HasChildren(View(m0), c)
    {
      b := |st.Children(c, true)| > 0 || |st.Children(c, false)| > 0;
      AnyChild(st.nodes, c, st.Children(c, true), st.Children(c, false));
      CachedView(m0, st.nodes);
    }

    /** `getState($page->id)`, and the recursive `getFiles('d:' . $page->id)` of an expanded directory. */
    method Expanded(st: Store, order: seq<Key>, c: Key, ghost m0: map<Key, Node>) returns (r: Result<Option<seq<Item>>, Error>)
      requires Ready(st, m0) && c in m0 && c.D?
      modifies this, st`nodes
      ensures Ready(st, m0) && unchanged(this)
      ensures r == Expansion(View(m0), st.depth, st.bound, state, order, c)
      decreases Measure(st.depth, st.bound, Some(c)), 8
    {
      if !GetState(c.n) {
        return Ok(None);
      }
      ghost var m1 := st.nodes;
      ReadyNow(st, m0);
      DirKeyRoundTrip(c.n);
      var sub := GetFiles(st, order, DirKey(c.n));
      ReadyTrans(st, m0, m1);
      ExpansionOf(View(m0), st.depth, st.bound, state, order, c, sub);
      if sub.Err? {
        return Err(sub.error);
      }
      r := Ok(Some(sub.value));
    }

    /** `$page->name`: the name behind the read check. */
    method NameOf(st: Store, c: Key, ghost m0: map<Key, Node>) returns (r: Result<string, Error>)
      requires Ready(st, m0) && c in m0
      modifies st`nodes
      ensures Ready(st, m0)
      ensures r == if ReadAllowed(m0[c]) then Ok(m0[c].name) else Err(PermissionDenied)
    {
      ghost var m1 := st.nodes;
      var got := st.Get(c);
      GetCached(m0, m1, st.nodes, c);
      r := if got.Err? then Err(PermissionDenied) else Ok(got.value.name);
    }

    /** The loop over the files of `getFiles`. */
    method ListLeaves(st: Store, fs: seq<Key>, ghost m0: map<Key, Node>) returns (r: Result<seq<Item>, Error>)
      requires Ready(st, m0)
      requires forall i :: 0 <= i < |fs| ==> fs[i] in m0
      modifies st`nodes
      ensures Ready(st, m0)
      ensures r == Leaves(View(m0), fs)
    {
      ghost var v := View(m0);
      var data: seq<Item> := [];
      var i := 0;
      GatheringStart(v, fs);
      while i < |fs|
        invariant Ready(st, m0)
        invariant Gathering(v, fs, i, data)
      {
        var leaf := LeafStep(st, fs, i, data, m0);
        if leaf.Err? {
          return Err(PermissionDenied);
        }
        data := data + [leaf.value];
        i := i + 1;
      }
      GatheringDone(v, fs, data);
      r := Ok(data);
    }

    /** One turn of the file loop of `getFiles`. */
    method LeafStep(st: Store, fs: seq<Key>, i: nat, ghost data: seq<Item>, ghost m0: map<Key, Node>)
      returns (leaf: Result<Item, Error>)
      requires Ready(st, m0) && i < |fs|
      requires Gathering(View(m0), fs, i, data)
      modifies st`nodes
      ensures Ready(st, m0)
      ensures leaf.Err? ==> Leaves(View(m0), fs) == Err(PermissionDenied)
      ensures leaf.Ok? ==> Gathering(View(m0), fs, i + 1, data + [leaf.value])
    {
      var name := NameOf(st, fs[i], m0);
      GatheringStep(View(m0), fs, i, data, name);
      if name.Err? {
        return Err(PermissionDenied);
      }
      leaf := Ok(Leaf(name.value, FileKey(fs[i].n)));
    }

    /**
     * `setFileParent($from, $to, $dropMode)`, corrected: the entity named by
     * `from` moves to the destination of the drop, unless that destination
     * lies inside the entity's own subtree.
     */
    method SetFileParent(st: Store, from: string, to: string, dropMode: string) returns (r: Outcome<Error>)
      requires st.Valid()
      modifies st`nodes, st`depth, st`bound
      ensures st.Valid()
      ensures KeyOf(from) !in old(st.nodes) ==> r == Fail(NotFound) && st.nodes == old(st.nodes)
      ensures KeyOf(from) in old(st.nodes) ==>
        var k := KeyOf(from);
        var d := Destination(old(st.nodes), KeyOf(to), dropMode);
        && (d.Err? ==> r == Fail(d.error) && LinksOf(st.nodes) == LinksOf(old(st.nodes)))
        && (d.Ok? ==>
              var p := d.value;
              && (Loops(old(st.nodes), old(st.depth), k, p) ==>
                    r == Fail(IntoOwnSubtree) && LinksOf(st.nodes) == LinksOf(old(st.nodes)))
              && (!Loops(old(st.nodes), old(st.depth), k, p) && old(st.nodes)[k].parent == p ==>
                    r == Pass && LinksOf(st.nodes) == LinksOf(old(st.nodes)))
              && (!Loops(old(st.nodes), old(st.depth), k, p) && old(st.nodes)[k].parent != p && !WriteAllowed(old(st.nodes)[k]) ==>
                    r == Fail(PermissionDenied) && LinksOf(st.nodes) == LinksOf(old(st.nodes)))
              && (!Loops(old(st.nodes), old(st.depth), k, p) && old(st.nodes)[k].parent != p && WriteAllowed(old(st.nodes)[k]) ==>
                    LinksOf(st.nodes) == LinksOf(old(st.nodes))[k := p])
              && (!Loops(old(st.nodes), old(st.depth), k, p) && k.F? && WriteAllowed(old(st.nodes)[k]) ==> r == Pass)
              && (!Loops(old(st.nodes), old(st.depth), k, p) && Writable(LinksOf(old(st.nodes)), old(st.depth), old(st.nodes), k, true) ==>
                    r == Pass))
      ensures r.Fail? ==> r.error in {NotFound, PermissionDenied, WrongType, IntoOwnSubtree}
      ensures Consistent(old(st.nodes), st.webalize) && r.Pass? ==> Consistent(st.nodes, st.webalize)
    {
      var k := KeyOf(from);
      if k !in st.nodes {
        return Fail(NotFound);
      }
      var d := Resolve(st, KeyOf(to), dropMode);
      if d.Err? {
        return Fail(d.error);
      }
      SameShape(old(st.nodes), st.nodes, st.depth, k, d.value);
      assert Writable(LinksOf(old(st.nodes)), st.depth, old(st.nodes), k, true) ==> Writable(LinksOf(st.nodes), st.depth, st.nodes, k, true);
      r := Move(st, k, d.value);
    }

    /** The move itself, refused when it would close a loop. */
    method Move(st: Store, k: Key, p: Option<Key>) returns (r: Outcome<Error>)
      requires st.Valid() && k in st.nodes
      requires p.Some? ==> p.value in st.nodes && p.value.D?
      modifies st`nodes, st`depth, st`bound
      ensures st.Valid()
      ensures Loops(old(st.nodes), old(st.depth), k, p) ==> r == Fail(IntoOwnSubtree) && st.nodes == old(st.nodes)
      ensures !Loops(old(st.nodes), old(st.depth), k, p) && old(st.nodes)[k].parent == p ==>
        r == Pass && st.nodes == old(st.nodes)
      ensures !Loops(old(st.nodes), old(st.depth), k, p) && old(st.nodes)[k].parent != p && !WriteAllowed(old(st.nodes)[k]) ==>
        r == Fail(PermissionDenied) && LinksOf(st.nodes) == LinksOf(old(st.nodes))
      ensures !Loops(old(st.nodes), old(st.depth), k, p) && old(st.nodes)[k].parent != p && WriteAllowed(old(st.nodes)[k]) ==>
        LinksOf(st.nodes) == LinksOf(old(st.nodes))[k := p]
      ensures !Loops(old(st.nodes), old(st.depth), k, p) && k.F? && WriteAllowed(old(st.nodes)[k]) ==> r == Pass
      ensures !Loops(old(st.nodes), old(st.depth), k, p) && Writable(LinksOf(old(st.nodes)), old(st.depth), old(st.nodes), k, true) ==>
        r == Pass
      ensures r.Fail? ==> r.error in {PermissionDenied, IntoOwnSubtree}
      ensures Consistent(old(st.nodes), st.webalize) && r.Pass? ==> Consistent(st.nodes, st.webalize)
    {
      if p.Some? {
        var cyc := Encloses(st, p.value, k);
        if cyc {
          return Fail(IntoOwnSubtree);
        }
      }
      r := st.SetParent(k, p);
    }

    /** The destination of a drop, reading the target's parent behind its read check. */
    method Resolve(st: Store, t: Key, dropMode: string) returns (d: Result<Option<Key>, Error>)
      requires st.Valid()
      modifies st`nodes
      ensures st.Valid() && LinksOf(st.nodes) == LinksOf(old(st.nodes))
      ensures st.nodes.Keys == old(st.nodes).Keys
      ensures forall x :: x in st.nodes ==> WriteAllowed(st.nodes[x]) == WriteAllowed(old(st.nodes)[x])
      ensures Consistent(old(st.nodes), st.webalize) ==> Consistent(st.nodes, st.webalize)
      ensures d == Destination(old(st.nodes), t, dropMode)
      ensures d.Ok? && d.value.Some? ==> d.value.value in st.nodes && d.value.value.D?
    {
      if t !in st.nodes {
        return Ok(None);
      }
      if dropMode == "before" || dropMode == "after" {
        assert LinksOf(st.nodes)[t] == st.nodes[t].parent;
        var ok := st.CheckRead(t);
        if !ok {
          return Err(PermissionDenied);
        }
        d := Ok(st.nodes[t].parent);
      } else if t.F? {
        d := Err(WrongType);
      } else {
        d := Ok(Some(t));
      }
    }

    /** Whether `x` lies in the subtree of `k`: the walk up the parent chain from `x`. */
    method Encloses(st: Store, x: Key, k: Key) returns (b: bool)
      requires st.Valid() && x in st.nodes
      ensures b == Within(LinksOf(st.nodes), st.depth, x, k)
    {
      var cur := x;
      while cur != k && st.nodes[cur].parent.Some?
        invariant cur in st.nodes
        invariant Within(LinksOf(st.nodes), st.depth, x, k) == Within(LinksOf(st.nodes), st.depth, cur, k)
        decreases st.depth[cur]
      {
        assert LinksOf(st.nodes)[cur] == st.nodes[cur].parent;
        cur := st.nodes[cur].parent.value;
      }
      b := cur == k;
    }
  }
}
