/**
 * `FileBrowserControl`: the administration browser of one directory (and
 * possibly one open file). The current directory and file travel between
 * requests as the `dirId` and `fileId` parameters; an optional root confines
 * the browser to one subtree; uploads go through `AjaxFileUploaderControl`.
 *
 * The model identifies a database id with its key number (a repository
 * `find` is a map lookup) and takes a request parameter that is set to
 * `null` as `None`.
 */
module FileBrowsers {
  import Php
  import opened Wrappers
  import opened Errors
  import opened Permissions
  import opened Nodes
  import opened Forest
  import opened Entities
  import opened Storage
  import FileSync
  import opened FilesControls
  import opened Uploads

  /** A component's request parameters; a value may be `null`. */
  type Params = map<string, Option<nat>>

  /** `isset($params[$name])`: present and not `null`. */
  predicate Isset(p: Params, name: string) {
    name in p && p[name].Some?
  }

  /** `$dirRepository->find($id)`. */
  function FindDir(m: map<Key, Node>, id: nat): (r: Option<Key>)
    ensures r.Some? ==> r.value in m && r.value.D?
  {
    if D(id) in m then Some(D(id)) else None
  }

  /** `$fileRepository->find($id)`. */
  function FindFile(m: map<Key, Node>, id: nat): (r: Option<Key>)
    ensures r.Some? ==> r.value in m && r.value.F?
  {
    if F(id) in m then Some(F(id)) else None
  }

  /**
   * The walk of `checkCurrentDir` from `e` up the parent chain: true at an
   * entity whose id is the root's, false past the top. Each step up goes
   * through `getParent`, whose read check throws.
   */
  ghost function Climb(m: map<Key, Node>, depth: map<Key, nat>, e: Key, rootId: Option<nat>): (r: Result<bool, Error>)
    requires Ranked(LinksOf(m), depth) && e in m
    ensures r.Err? ==> r.error == PermissionDenied
    decreases depth[e]
  {
    if m[e].id == rootId then Ok(true)
    else if !ReadAllowed(m[e]) then Err(PermissionDenied)
    else if m[e].parent.None? then Ok(false)
    else Climb(m, depth, m[e].parent.value, rootId)
  }

  /** `checkCurrentDir`: no root confines nothing; with a root there must be a current directory below it. */
  ghost function CurrentDir(m: map<Key, Node>, depth: map<Key, nat>, root: Option<Key>, dir: Option<Key>): Result<bool, Error>
    requires Ranked(LinksOf(m), depth)
    requires root.Some? ==> root.value in m
    requires dir.Some? ==> dir.value in m
  {
    if root.None? then Ok(true)
    else if dir.None? then Ok(false)
    else Climb(m, depth, dir.value, m[root.value].id)
  }

  /**
   * On entities from the database the walk decides whether `e` lies inside
   * the root's subtree, the root itself included: it can only fail on an
   * entity it must pass that may not be read, and succeeds when all of them
   * may be.
   */
  lemma {:induction false} ClimbWithin(m: map<Key, Node>, depth: map<Key, nat>, e: Key, root: Key)
    requires Ranked(LinksOf(m), depth) && Persisted(m) && e in m && e.D? && root in m && root.D?
    ensures var r := Climb(m, depth, e, m[root].id);
      && (r.Ok? ==> (r.value <==> Within(LinksOf(m), depth, e, root)))
      && (r.Err? ==> r.error == PermissionDenied)
      && ((forall x :: x in m && Within(LinksOf(m), depth, e, x) && x != root ==> ReadAllowed(m[x])) ==> r.Ok?)
    decreases depth[e]
  {
    var links := LinksOf(m);
    if m[e].id != m[root].id && ReadAllowed(m[e]) && m[e].parent.Some? {
      var p := m[e].parent.value;
      ClimbWithin(m, depth, p, root);
      if forall x :: x in m && Within(links, depth, e, x) && x != root ==> ReadAllowed(m[x]) {
        forall x | x in m && Within(links, depth, p, x) && x != root
          ensures ReadAllowed(m[x])
        {
          assert Within(links, depth, e, x);
        }
      }
    }
  }

  /** The state `loadState` leaves, and how it ends. */
  datatype Loading = Loading(dir: Option<Key>, file: Option<Key>, outcome: Outcome<Error>)

  /**
   * `loadState`: `dirId` names the directory, else the root is taken, else the
   * directory stays. Then `fileId` names the file, and the directory becomes the
   * file's parent (through `getParent`, whose read check throws); a missing
   * file cannot be asked for its parent.
   */
  function Loaded(m: map<Key, Node>, root: Option<Key>, dir: Option<Key>, file: Option<Key>, p: Params): Loading {
    var d := if Isset(p, "dirId") then FindDir(m, p["dirId"].value) else if root.Some? then root else dir;
    if !Isset(p, "fileId") then Loading(d, file, Pass)
    else
      var f := FindFile(m, p["fileId"].value);
      if f.None? then Loading(d, f, Fail(NotFound))
      else if !ReadAllowed(m[f.value]) then Loading(d, f, Fail(PermissionDenied))
      else Loading(m[f.value].parent, f, Pass)
  }

  /** `saveState`: the id of the directory and of the file, each written only when that field is set. */
  function Saved(m: map<Key, Node>, dir: Option<Key>, file: Option<Key>, p: Params): (r: Params)
    requires dir.Some? ==> dir.value in m
    requires file.Some? ==> file.value in m
    ensures "dirId" in r <==> "dirId" in p || dir.Some?
    ensures "fileId" in r <==> "fileId" in p || file.Some?
    ensures dir.Some? ==> r["dirId"] == m[dir.value].id
    ensures file.Some? ==> r["fileId"] == m[file.value].id
    ensures forall q :: q in p && q != "dirId" && q != "fileId" ==> q in r && r[q] == p[q]
    ensures dir.None? && "dirId" in p ==> r["dirId"] == p["dirId"]
    ensures file.None? && "fileId" in p ==> r["fileId"] == p["fileId"]
  {
    var p1 := if dir.Some? then p["dirId" := m[dir.value].id] else p;
    if file.Some? then p1["fileId" := m[file.value].id] else p1
  }

  /**
   * What the browser shows is a directory of the database and, when a file is
   * open, a readable file of that directory: the state `loadState` produces.
   */
  predicate Placed(m: map<Key, Node>, dir: Option<Key>, file: Option<Key>) {
    && (dir.Some? ==> dir.value in m && dir.value.D?)
    && (file.Some? ==> file.value in m && file.value.F? && ReadAllowed(m[file.value]) && m[file.value].parent == dir)
  }

  /**
   * Saving the state and loading it again, on a request that carries no ids
   * of its own, restores the file and the directory; with neither, the
   * root, or failing that the directory the control had, is taken.
   */
  lemma SaveThenLoad(m: map<Key, Node>, root: Option<Key>, dir: Option<Key>, file: Option<Key>,
                     dir0: Option<Key>, file0: Option<Key>, p: Params)
    requires Persisted(m) && Placed(m, dir, file)
    requires "dirId" !in p && "fileId" !in p
    ensures Loaded(m, root, dir0, file0, Saved(m, dir, file, p)) ==
      Loading(if dir.Some? || file.Some? then dir else if root.Some? then root else dir0,
              if file.Some? then file else file0, Pass)
  {
    var s := Saved(m, dir, file, p);
    if dir.Some? {
      assert Isset(s, "dirId") && s["dirId"].value == dir.value.n;
    }
    if file.Some? {
      assert Isset(s, "fileId") && s["fileId"].value == file.value.n;
    }
  }

  /** A file named by `fileId` decides the directory, whatever `dirId` says. */
  lemma FileIdOverridesDir(m: map<Key, Node>, root: Option<Key>, dir: Option<Key>, file: Option<Key>, p: Params)
    requires Isset(p, "fileId") && F(p["fileId"].value) in m && ReadAllowed(m[F(p["fileId"].value)])
    ensures Loaded(m, root, dir, file, p) == Loading(m[F(p["fileId"].value)].parent, Some(F(p["fileId"].value)), Pass)
  {
  }

  /** Every parent pointer names a directory of the map. */
  predicate Closed(m: map<Key, Node>) {
    forall k :: k in m && m[k].parent.Some? ==> m[k].parent.value in m && m[k].parent.value.D?
  }

  /**
   * The redirect the "Up" button asks for: with no file open the parent of
   * the directory (read through `getParent`; `null` at the top level, and
   * `null` as well when there is no directory, where PHP reads a property of
   * `null` as `null`), otherwise no file.
   */
  function UpArgs(m: map<Key, Node>, dir: Option<Key>, file: Option<Key>): Result<Params, Error>
    requires dir.Some? ==> dir.value in m
    requires Closed(m)
  {
    if file.Some? then Ok(map["fileId" := None])
    else if dir.None? then Ok(map["dirId" := None])
    else if !ReadAllowed(m[dir.value]) then Err(PermissionDenied)
    else
      var up := m[dir.value].parent;
      Ok(map["dirId" := if up.Some? then m[up.value].id else None])
  }

  /**
   * The page the "Up" redirect leads to, on a fresh control of the next
   * request: the link carries the saved state with the redirect's own
   * arguments taking precedence. With no file open it shows the parent
   * directory (the root, or the top level, above a top-level directory);
   * with a file open it shows the same directory and no file.
   */
  lemma UpLeadsToParent(m: map<Key, Node>, root: Option<Key>, dir: Option<Key>, file: Option<Key>)
    requires Persisted(m) && Closed(m) && Placed(m, dir, file)
    requires UpArgs(m, dir, file).Ok?
    ensures var link := Saved(m, dir, file, map[]) + UpArgs(m, dir, file).value;
      Loaded(m, root, None, None, link) ==
        if file.None? then Loading(if dir.Some? && m[dir.value].parent.Some? then m[dir.value].parent else root, None, Pass)
        else Loading(if dir.Some? then dir else root, None, Pass)
  {
    var link := Saved(m, dir, file, map[]) + UpArgs(m, dir, file).value;
    if file.None? && dir.Some? && m[dir.value].parent.Some? {
      var up := m[dir.value].parent.value;
      assert Isset(link, "dirId") && link["dirId"].value == up.n;
    }
    if file.Some? && dir.Some? {
      assert Isset(link, "dirId") && link["dirId"].value == dir.value.n;
    }
    assert !Isset(link, "fileId");
  }

  /**
   * "Up" from a root that has a parent leaves the root's subtree: the next
   * request's `checkCurrentDir` cannot succeed, so `attached` throws.
   */
  lemma {:induction false} UpFromRootLeavesRoot(m: map<Key, Node>, depth: map<Key, nat>, root: Key)
    requires Ranked(LinksOf(m), depth) && Persisted(m) && root in m && root.D? && m[root].parent.Some?
    ensures CurrentDir(m, depth, Some(root), m[root].parent) != Ok(true)
  {
    var up := m[root].parent.value;
    ClimbWithin(m, depth, up, root);
    WithinDeeper(LinksOf(m), depth, up, root);
  }

  /** The message `onError` flashes for one recorded upload error. */
  datatype Flash = Flash(message: string, level: string)

  const DbalException: string := "Doctrine\\DBAL\\DBALException"

  /** A database error about a unique key. */
  predicate Duplicate(f: Failure) {
    f.className == DbalException && Php.Contains(f.message, "Duplicate entry")
  }

  /** A duplicate key gives the translated warning; every other error its own message at the default level. */
  function FlashOf(f: Failure, translate: string -> string): (r: Flash)
    ensures r.level == "warning" <==> Duplicate(f)
    ensures Duplicate(f) ==> r.message == translate("Duplicate entry")
    ensures !Duplicate(f) ==> r == Flash(f.message, "info")
  {
    if Duplicate(f) then Flash(translate("Duplicate entry"), "warning") else Flash(f.message, "info")
  }

  /** The messages of all recorded errors, in order. */
  function FlashesOf(es: seq<Failure>, translate: string -> string): (r: seq<Flash>)
    ensures |r| == |es| && forall i :: 0 <= i < |es| ==> r[i] == FlashOf(es[i], translate)
  {
    if es == [] then [] else [FlashOf(es[0], translate)] + FlashesOf(es[1..], translate)
  }

  /** A DBAL exception whose message mentions a duplicate entry anywhere becomes the warning. */
  lemma DuplicateEntryIsWarning(before: string, after: string, code: int, translate: string -> string)
    ensures FlashOf(Failure(DbalException, before + "Duplicate entry" + after, code), translate)
      == Flash(translate("Duplicate entry"), "warning")
  {
    var msg := before + "Duplicate entry" + after;
    assert msg[|before|..|before| + 15] == "Duplicate entry";
    assert Php.OccursAt(msg, "Duplicate entry", |before|);
  }

  /** The same message from any other exception class is flashed as it is. */
  lemma OtherClassIsPlain(f: Failure, translate: string -> string)
    requires f.className != DbalException
    ensures FlashOf(f, translate) == Flash(f.message, "info")
  {
  }

  /** `fileUploadUnlink`, the browser's `onAfterFileUpload` handler: both `unlink` calls are silenced, so it always returns. */
  function UnlinkHandler(name: string): Outcome<Failure> {
    Pass
  }

  /**
   * With `fileUploadUnlink` as the after-upload handler the uploader never
   * records an error, whatever `up`, the browser's `fileUpload`, does: the
   * duplicate-key warning is never flashed after an upload. When `up` returns
   * on every file (its own try swallows every exception, and with a signed-in
   * user nothing escapes it), both handlers run on every file.
   */
  lemma {:induction false} BrowserUploadsRecordNothing(up: Handler, names: seq<string>)
    ensures Uploading(up, UnlinkHandler, names).recorded == []
    ensures (forall i :: 0 <= i < |names| ==> up(names[i]).Pass?) ==>
      Uploading(up, UnlinkHandler, names) == Run(BothOnEach(names), [], None)
    decreases |names|
  {
    if names != [] {
      BrowserUploadsRecordNothing(up, names[..|names| - 1]);
    }
    if forall i :: 0 <= i < |names| ==> up(names[i]).Pass? {
      UploadingAll(up, UnlinkHandler, names);
      NoAfterFailures(names);
    }
  }

  lemma {:induction false} NoAfterFailures(names: seq<string>)
    ensures AfterFailures(UnlinkHandler, names) == []
  {
    if names != [] {
      NoAfterFailures(names[1..]);
    }
  }

  /** No entity lies below an entity that nothing points to. */
  lemma NothingBelowFresh(links: Links, depth: map<Key, nat>, x: Key, k: Key)
    requires Ranked(links, depth) && x in links && x != k
    requires forall y :: y in links ==> links[y] != Some(k)
    ensures !Within(links, depth, x, k)
  {
    if Within(links, depth, x, k) {
      var b := Branch(links, depth, x, k);
    }
  }

  class FileBrowserControl {
    var dir: Option<Key>
    var file: Option<Key>
    var root: Option<Key>
    /** The flash messages of the request, in order. */
    var flashes: seq<Flash>
    /** The translator, a function the model does not look inside. */
    const translate: string -> string

    constructor (translator: string -> string)
      ensures dir.None? && file.None? && root.None? && flashes == [] && translate == translator
    {
      dir := None;
      file := None;
      root := None;
      flashes := [];
      translate := translator;
    }

    /** The fields name entities of the store. */
    ghost predicate In(st: Store)
      reads this, st
    {
      && (root.Some? ==> root.value in st.nodes && root.value.D?)
      && (dir.Some? ==> dir.value in st.nodes && dir.value.D?)
      && (file.Some? ==> file.value in st.nodes && file.value.F?)
    }

    /** `setRoot`. */
    method SetRoot(r: Option<Key>)
      modifies this`root
      ensures root == r
    {
      root := r;
    }

    /** `checkCurrentDir`: the walk up from the current directory, stopping at the root. */
    method CheckCurrentDir(st: Store) returns (r: Result<bool, Error>)
      requires st.Valid() && In(st)
      modifies st`nodes
      ensures st.Valid() && Cached(old(st.nodes), st.nodes)
      ensures r == CurrentDir(old(st.nodes), st.depth, root, dir)
    {
      if root.None? {
        return Ok(true);
      }
      if dir.None? {
        return Ok(false);
      }
      ghost var m0 := st.nodes;
      var rootId := st.nodes[root.value].id;
      var e := dir;
      var t := false;
      while e.Some?
        invariant st.Valid() && Cached(m0, st.nodes) && LinksOf(st.nodes) == LinksOf(m0)
        invariant e.Some? ==> e.value in m0
        invariant !t
        invariant Climb(m0, st.depth, dir.value, rootId) == if e.Some? then Climb(m0, st.depth, e.value, rootId) else Ok(false)
        decreases if e.Some? then st.depth[e.value] + 1 else 0
      {
        CachedFields(m0, st.nodes, e.value);
        if st.nodes[e.value].id == rootId {
          t := true;
          break;
        }
        var ok := CheckUp(st, e.value, m0);
        if !ok {
          return Err(PermissionDenied);
        }
        e := st.nodes[e.value].parent;
      }
      if !t {
        return Ok(false);
      }
      return Ok(true);
    }

    /** One `$entity->parent` of the walk: the read check, cached. */
    static method CheckUp(st: Store, k: Key, ghost m0: map<Key, Node>) returns (ok: bool)
      requires st.Valid() && Cached(m0, st.nodes) && k in m0
      modifies st`nodes
      ensures st.Valid() && Cached(m0, st.nodes) && LinksOf(st.nodes) == LinksOf(m0)
      ensures ok == ReadAllowed(m0[k]) && st.nodes[k].parent == m0[k].parent
    {
      ghost var m1 := st.nodes;
      CachedFields(m0, m1, k);
      ok := st.CheckRead(k);
      CachedOne(m1, k);
      CachedTrans(m0, m1, st.nodes);
      CachedLinks(m0, st.nodes);
    }

    /** `attached`: a `BadRequestException` exactly when the current directory is outside the root. */
    method Attached(st: Store) returns (r: Outcome<Error>)
      requires st.Valid() && In(st)
      modifies st`nodes
      ensures st.Valid() && Cached(old(st.nodes), st.nodes)
      ensures r == Pass <==> CurrentDir(old(st.nodes), st.depth, root, dir) == Ok(true)
      ensures r == Fail(BadRequest) <==> CurrentDir(old(st.nodes), st.depth, root, dir) == Ok(false)
      ensures CurrentDir(old(st.nodes), st.depth, root, dir).Err? ==> r == Fail(CurrentDir(old(st.nodes), st.depth, root, dir).error)
    {
      var ok := CheckCurrentDir(st);
      if ok.Err? {
        r := Fail(ok.error);
      } else if !ok.value {
        r := Fail(BadRequest);
      } else {
        r := Pass;
      }
    }

    /** `loadState`. */
    method LoadState(st: Store, p: Params) returns (r: Outcome<Error>)
      requires st.Valid()
      modifies this`dir, this`file, st`nodes
      ensures st.Valid() && Cached(old(st.nodes), st.nodes)
      ensures Loading(dir, file, r) == Loaded(old(st.nodes), root, old(dir), old(file), p)
    {
      if Isset(p, "dirId") {
        dir := FindDir(st.nodes, p["dirId"].value);
      } else if root.Some? {
        dir := root;
      }
      r := Pass;
      if Isset(p, "fileId") {
        file := FindFile(st.nodes, p["fileId"].value);
        if file.None? {
          return Fail(NotFound);
        }
        var ok := CheckUp(st, file.value, st.nodes);
        if !ok {
          return Fail(PermissionDenied);
        }
        dir := st.nodes[file.value].parent;
      }
    }

    /** `saveState`: the parameters with the ids of the current directory and file. */
    method SaveState(st: Store, p: Params) returns (r: Params)
      requires In(st)
      ensures r == Saved(st.nodes, dir, file, p)
    {
      r := p;
      if dir.Some? {
        r := r["dirId" := st.nodes[dir.value].id];
      }
      if file.Some? {
        r := r["fileId" := st.nodes[file.value].id];
      }
    }

    /**
     * The "Up" button: the redirect's arguments. A redirect ends the request
     * by throwing, so the assignments to the fields that follow it in the
     * handler never run, and the control is left as it was.
     */
    method Up(st: Store) returns (r: Result<Params, Error>)
      requires st.Valid() && In(st)
      modifies st`nodes
      ensures st.Valid() && Cached(old(st.nodes), st.nodes)
      ensures Closed(old(st.nodes)) && r == UpArgs(old(st.nodes), dir, file)
    {
      ClosedOf(st);
      if file.Some? {
        return Ok(map["fileId" := None]);
      }
      if dir.None? {
        return Ok(map["dirId" := None]);
      }
      var ok := CheckUp(st, dir.value, st.nodes);
      if !ok {
        return Err(PermissionDenied);
      }
      var up := st.nodes[dir.value].parent;
      if up.Some? {
        CachedFields(old(st.nodes), st.nodes, up.value);
        r := Ok(map["dirId" := st.nodes[up.value].id]);
      } else {
        r := Ok(map["dirId" := None]);
      }
    }

    /** The `onError` handler: the message of every recorded error, in order, then the redirect. */
    method OnUploadError(up: AjaxFileUploader)
      modifies this`flashes, up
      ensures flashes == old(flashes) + FlashesOf(old(up.errors).GetOr([]), translate)
      ensures up.errors == Some(old(up.errors).GetOr([]))
    {
      var es := up.GetErrors();
      var i := 0;
      while i < |es|
        invariant 0 <= i <= |es|
        invariant flashes == old(flashes) + FlashesOf(es[..i], translate)
        invariant up.errors == Some(es)
      {
        FlashesSnoc(es[..i], es[i], translate);
        assert es[..i + 1] == es[..i] + [es[i]];
        flashes := flashes + [FlashOf(es[i], translate)];
        i := i + 1;
      }
      assert es[..i] == es;
    }

    /**
     * `fileUpload`: a new file in the current directory, holding the file the
     * uploader left in its directory, authored by the signed-in user, then
     * persisted and flushed (`flush`, the outcome of the unit of work). An
     * exception of any of these steps is logged and swallowed; only a guest,
     * who has no identity to ask for its id, makes the call fail.
     */
    method FileUpload(st: Store, ajaxDir: string, name: string, identity: Option<UserId>, users: set<UserId>, flush: Outcome<Error>)
      returns (k: Key, r: Outcome<Error>, logged: Option<Error>)
      requires st.Valid() && In(st)
      modifies st
      ensures st.Valid() && k !in old(st.nodes) && k in st.nodes && k.F?
      ensures r.Fail? <==> identity.None? && logged.None?
      ensures r.Fail? ==> r.error == NotFound
      ensures r.Pass? && logged.None? ==> flush.Pass?
      ensures identity.Some? && flush.Pass? ==> logged.None?
      ensures identity.Some? && flush.Fail? ==> logged == Some(flush.error)
      ensures r.Pass? && logged.None? ==>
        var e := st.nodes[k];
        && e.parent == dir
        && e.content.payload == Some(Existing(ajaxDir + "/" + name))
        && e.access.author == (if identity.value in users then Some(identity.value) else None)
    {
      ghost var m0 := st.nodes;
      ghost var d0 := st.depth;
      k := st.Create(false);
      NoChildOfFresh(m0, d0, k);
      FreshIsLeaf(st, k);
      // A new file has no author, so `setParent` passes its write check and cannot throw.
      var placed := st.SetParent(k, dir);
      assert placed.Pass? && WriteAllowed(st.nodes[k]);
      r, logged := Authored(st, k, ajaxDir + "/" + name, identity, users);
      if r.Pass? && logged.None? && flush.Fail? {
        logged := Some(flush.error);
      }
    }
  }

  /** The file, then its author; `getIdentity()->getId()` of a guest is a call on `null`, which no `catch` of an exception stops. */
  method Authored(st: Store, k: Key, path: string, identity: Option<UserId>, users: set<UserId>)
    returns (r: Outcome<Error>, logged: Option<Error>)
    requires st.Valid() && k in st.nodes && k.F?
    modifies st`nodes
    ensures st.Valid() && st.nodes.Keys == old(st.nodes).Keys
    ensures r.Fail? <==> identity.None?
    ensures r.Fail? ==> r.error == NotFound && logged.None?
    ensures identity.Some? && WriteAllowed(old(st.nodes[k])) ==> logged.None?
    ensures r.Pass? && logged.None? ==>
      var e := st.nodes[k];
      && e.parent == old(st.nodes[k]).parent
      && e.content.payload == Some(Existing(path))
      && e.access.author == (if identity.value in users then Some(identity.value) else None)
  {
    FileSync.SetFile(st, k, Existing(path));
    if identity.None? {
      return Fail(NotFound), None;
    }
    var author := if identity.value in users then Some(identity.value) else None;
    var authored := st.SetAuthor(k, author);
    r := Pass;
    logged := if authored.Fail? then Some(authored.error) else None;
  }

  /** `fileUploadUnlink`: both copies the uploader left are unlinked; a failure only warns. */
  method FileUploadUnlink(dk: Disk, ajaxDir: string, name: string)
    modifies dk
    ensures dk.entries == Unlinked(Unlinked(old(dk.entries), dk.locked, ajaxDir + "/" + name), dk.locked, ajaxDir + "/thumbnail/" + name)
  {
    dk.Unlink(ajaxDir + "/" + name);
    dk.Unlink(ajaxDir + "/thumbnail/" + name);
  }

  /** A new entity has nothing below it, so any directory may become its parent. */
  lemma FreshIsLeaf(st: Store, k: Key)
    requires st.Valid() && k in st.nodes && st.nodes[k].parent.None?
    requires forall y :: y in st.nodes && y != k ==> st.nodes[y].parent != Some(k)
    ensures forall x :: x in st.nodes && x != k ==> !Within(LinksOf(st.nodes), st.depth, x, k)
  {
    forall x | x in st.nodes && x != k
      ensures !Within(LinksOf(st.nodes), st.depth, x, k)
    {
      NothingBelowFresh(LinksOf(st.nodes), st.depth, x, k);
    }
  }

  /** The fields a read check leaves alone. */
  lemma CachedFields(m0: map<Key, Node>, m: map<Key, Node>, k: Key)
    requires Cached(m0, m) && k in m0
    ensures k in m && m[k].id == m0[k].id && m[k].parent == m0[k].parent && ReadAllowed(m[k]) == ReadAllowed(m0[k])
  {
    CachedAtTrans(m0[k], m[k], m[k]);
  }

  lemma ClosedOf(st: Store)
    requires st.Valid()
    ensures Closed(st.nodes)
  {
    forall k | k in st.nodes && st.nodes[k].parent.Some?
      ensures st.nodes[k].parent.value in st.nodes && st.nodes[k].parent.value.D?
    {
      assert LinksOf(st.nodes)[k] == st.nodes[k].parent;
    }
  }

  /** Before an entity exists, nothing points to it. */
  lemma NoChildOfFresh(m0: map<Key, Node>, depth: map<Key, nat>, k: Key)
    requires Ranked(LinksOf(m0), depth)
    ensures k !in m0 ==> forall y :: y in m0 ==> m0[y].parent != Some(k)
  {
    if k !in m0 {
      forall y | y in m0
        ensures m0[y].parent != Some(k)
      {
        assert LinksOf(m0)[y] == m0[y].parent;
      }
    }
  }

  lemma {:induction false} FlashesSnoc(es: seq<Failure>, f: Failure, translate: string -> string)
    ensures FlashesOf(es + [f], translate) == FlashesOf(es, translate) + [FlashOf(f, translate)]
  {
  }
}
