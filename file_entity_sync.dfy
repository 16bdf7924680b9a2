/**
 * The disk side of a `FileEntity`, the older twin of `File`: the same
 * naming, but `preUpload` and `preRemove` call the PHP built-ins without the
 * checks around them (`@unlink`, a bare `copy` and `rename`), compare the old
 * location loosely, and `preRemove` also purges the thumbnail cache.
 */
module FileEntitySync {
  import opened Wrappers
  import opened Errors
  import opened Nodes
  import opened Forest
  import opened Walks
  import opened Storage
  import opened Entities
  import Php
  import FileSync
  import Cache

  /** `$this->_oldPath != $this->path` as PHP compares loosely: a missing old path equals the empty path. */
  predicate PathDiffers(old_: Option<string>, path: string) {
    match old_
    case None => path != ""
    case Some(p) => p != path
  }

  /** `$this->_oldProtected != $this->protected` loosely: a missing flag equals `false`. */
  predicate FlagDiffers(old_: Option<bool>, protected: bool) {
    match old_
    case None => protected
    case Some(b) => b != protected
  }

  /** The payload-less `preUpload` has something to move. */
  predicate MustMove(e: Node) {
    && (TruthyOpt(e.history.oldPath) || e.history.oldProtected.Some?)
    && (PathDiffers(e.history.oldPath, e.path) || FlagDiffers(e.history.oldProtected, e.access.protected))
  }

  /** Where the payload-less `preUpload` moves from: the old flag unless missing, the old path unless falsy. */
  function MovedFrom(e: Node): string {
    FileSync.FilePathBy(e.roots, e.history.oldProtected.GetOr(e.access.protected),
                        if TruthyOpt(e.history.oldPath) then e.history.oldPath.value else e.path)
  }

  /** The disk once the replaced old file, if any, was unlinked without a check. */
  function Cleared(e: Node, t0: Tree, locked: set<string>): Tree {
    if FileSync.Replaces(e) then Unlinked(t0, locked, FileSync.ReplacedPath(e)) else t0
  }

  /**
   * The disk steps of `preUpload` for the payload `p` of `e`, from `t0` to `t`:
   * the old file is unlinked when possible; an upload lands at the file path
   * unless `move` throws; a copy is attempted and may silently do nothing.
   */
  ghost predicate Placed(e: Node, p: Payload, t0: Tree, t: Tree, locked: set<string>, r: Outcome<Error>) {
    var t1, fp := Cleared(e, t0, locked), FileSync.FilePath(e);
    match p
    case Upload(_, _) =>
      && (r.Pass? <==> fp !in locked && !IsDirAt(t1, fp))
      && (r.Fail? ==> r == Fail(InvalidState))
      && t == if r.Pass? then t1[fp := IsFile] else t1
    case Existing(pathname) =>
      r == Pass && t == Copied(t1, locked, pathname, fp)
  }

  /**
   * What a completed `preUpload` with a payload leaves behind: the entity
   * `e0` is now `e`, named by `suggestName`, its payload placed, its size and
   * type taken from the file path.
   */
  ghost predicate Stored(e0: Node, e: Node, t0: Tree, t: Tree, locked: set<string>, webalize: string -> string,
                         sizeOf: string -> nat, mimeOf: string -> string)
    requires e0.content.payload.Some?
  {
    && FileSync.Named(e0, e, t0, webalize)
    && Placed(e, e0.content.payload.value, t0, t, locked, Pass)
    && e.content == Content(sizeOf(FileSync.FilePath(e)), mimeOf(FileSync.FilePath(e)), None)
  }

  /**
   * What the payload-less `preUpload` does: without anything to move,
   * nothing; otherwise the read check, then a `rename` to the file path when
   * something lies at the old location.
   */
  ghost predicate Relocated(e0: Node, m0: map<Key, Node>, m: map<Key, Node>, k: Key, t0: Tree, t: Tree,
                            locked: set<string>, r: Outcome<Error>)
    requires k in m0
  {
    var a, b := MovedFrom(e0), FileSync.FilePath(e0);
    && (!MustMove(e0) ==> r == Pass && m == m0 && t == t0)
    && (MustMove(e0) ==> m == m0[k := e0.(readCache := Some(ReadAllowed(e0)))])
    && (MustMove(e0) && !ReadAllowed(e0) ==> r == Fail(PermissionDenied) && t == t0)
    && (MustMove(e0) && ReadAllowed(e0) ==> r == Pass && t == if a in t0 then Renamed(t0, locked, a, b) else t0)
  }

  /**
   * `FileEntity::preUpload`: with a payload, the payload is stored under a
   * fresh name; without, a changed path or protection moves the stored file.
   */
  method PreUpload(st: Store, dk: Disk, k: Key, sizeOf: string -> nat, mimeOf: string -> string) returns (r: Outcome<Error>)
    requires st.Valid() && k in st.nodes && k.F?
    modifies st`nodes, dk
    ensures st.Valid() && LinksOf(st.nodes) == LinksOf(old(st.nodes))
    ensures Consistent(old(st.nodes), st.webalize) && (r.Pass? || old(st.nodes[k]).content.payload.None?) ==>
      Consistent(st.nodes, st.webalize)
    ensures r.Fail? ==> r.error.PermissionDenied? || r.error.InvalidState?
    ensures old(st.nodes[k]).content.payload.Some? && r.Pass? ==> st.nodes == old(st.nodes)[k := st.nodes[k]]
    ensures old(st.nodes[k]).content.payload.Some? && r.Pass? ==>
      Stored(old(st.nodes[k]), st.nodes[k], old(dk.entries), dk.entries, dk.locked, st.webalize, sizeOf, mimeOf)
    ensures old(st.nodes[k]).content.payload.None? ==>
      Relocated(old(st.nodes[k]), old(st.nodes), st.nodes, k, old(dk.entries), dk.entries, dk.locked, r)
  {
    if st.nodes[k].content.payload.Some? {
      r := UploadPayload(st, dk, k, sizeOf, mimeOf);
    } else {
      r := UploadMove(st, dk, k);
    }
  }

  /** The `if ($this->file)` part of `preUpload`. */
  method UploadPayload(st: Store, dk: Disk, k: Key, sizeOf: string -> nat, mimeOf: string -> string) returns (r: Outcome<Error>)
    requires st.Valid() && k in st.nodes && k.F? && st.nodes[k].content.payload.Some?
    modifies st`nodes, dk
    ensures st.Valid() && LinksOf(st.nodes) == LinksOf(old(st.nodes))
    ensures Consistent(old(st.nodes), st.webalize) && r.Pass? ==> Consistent(st.nodes, st.webalize)
    ensures r.Fail? ==> r.error.PermissionDenied? || r.error.InvalidState?
    ensures r.Pass? ==> st.nodes == old(st.nodes)[k := st.nodes[k]]
    ensures r.Pass? ==> Stored(old(st.nodes[k]), st.nodes[k], old(dk.entries), dk.entries, dk.locked, st.webalize, sizeOf, mimeOf)
  {
    ghost var m0 := st.nodes;
    var file := st.nodes[k].content.payload.value;
    r := FileSync.NameFile(st, dk, k);
    if r.Fail? {
      return;
    }
    ghost var m1 := st.nodes;
    ghost var t1 := dk.entries;
    r := StoreFile(st, dk, k, file, sizeOf, mimeOf);
    if r.Pass? {
      FileSync.TwoUpdates(m0, m1, st.nodes, k, m1[k], st.nodes[k]);
      StoredOfParts(m0[k], m1[k], st.nodes[k], t1, dk.entries, dk.locked, st.webalize, sizeOf, mimeOf);
    }
  }

  lemma StoredOfParts(e0: Node, e1: Node, e2: Node, t0: Tree, t: Tree, locked: set<string>, w: string -> string,
                      sizeOf: string -> nat, mimeOf: string -> string)
    requires e0.content.payload.Some? && FileSync.Named(e0, e1, t0, w)
    requires Placed(e1, e0.content.payload.value, t0, t, locked, Pass)
    requires e2 == e1.(readCache := Some(true), content := Content(sizeOf(FileSync.FilePath(e1)), mimeOf(FileSync.FilePath(e1)), None))
    ensures Stored(e0, e2, t0, t, locked, w, sizeOf, mimeOf)
  {
    assert FileSync.FilePath(e2) == FileSync.FilePath(e1);
    assert Cleared(e2, t0, locked) == Cleared(e1, t0, locked);
  }

  /** The read check, the unchecked disk steps, then the size and type of the stored file. */
  method StoreFile(st: Store, dk: Disk, k: Key, file: Payload, sizeOf: string -> nat, mimeOf: string -> string)
    returns (r: Outcome<Error>)
    requires st.Valid() && k in st.nodes
    modifies st`nodes, dk
    ensures st.Valid() && LinksOf(st.nodes) == LinksOf(old(st.nodes))
    ensures Consistent(old(st.nodes), st.webalize) ==> Consistent(st.nodes, st.webalize)
    ensures r.Fail? ==> r.error.PermissionDenied? || r.error.InvalidState?
    ensures r.Pass? ==> var e := old(st.nodes[k]); var fp := FileSync.FilePath(e);
      st.nodes == old(st.nodes)[k := e.(readCache := Some(true), content := Content(sizeOf(fp), mimeOf(fp), None))]
    ensures r.Pass? ==> Placed(old(st.nodes[k]), file, old(dk.entries), dk.entries, dk.locked, Pass)
  {
    var e := st.nodes[k];
    // The read check of getFilePathBy, or of getFilePath when no old file is
    // replaced: the first decides, every later one answers from the cache.
    var ok := st.CheckRead(k);
    if !ok {
      return Fail(PermissionDenied);
    }
    r := PlaceFile(dk, e, file);
    if r.Fail? {
      return;
    }
    var filePath := FileSync.FilePath(e);
    ghost var m1 := st.nodes;
    var e' := st.nodes[k].(content := Content(sizeOf(filePath), mimeOf(filePath), None));
    st.Put(k, e');
    FileSync.TwoUpdates(old(st.nodes), m1, st.nodes, k, m1[k], e');
  }

  /** `@unlink` of the replaced old file, then `FileUpload::move` or `copy` to the file path. */
  method PlaceFile(dk: Disk, e: Node, file: Payload) returns (r: Outcome<Error>)
    modifies dk
    ensures Placed(e, file, old(dk.entries), dk.entries, dk.locked, r)
  {
    if TruthyOpt(e.history.oldPath) && e.history.oldPath.value != e.path {
      dk.Unlink(FileSync.FilePathBy(e.roots, e.history.oldProtected.GetOr(false), e.history.oldPath.value));
    }
    var filePath := FileSync.FilePath(e);
    if file.Upload? {
      var moved := dk.MoveUpload(filePath);
      if !moved {
        return Fail(InvalidState);
      }
    } else {
      dk.Copy(file.pathname, filePath);
    }
    r := Pass;
  }

  /** The part of `preUpload` after `if ($this->file)`. */
  method UploadMove(st: Store, dk: Disk, k: Key) returns (r: Outcome<Error>)
    requires st.Valid() && k in st.nodes
    modifies st`nodes, dk
    ensures st.Valid() && LinksOf(st.nodes) == LinksOf(old(st.nodes))
    ensures Consistent(old(st.nodes), st.webalize) ==> Consistent(st.nodes, st.webalize)
    ensures Relocated(old(st.nodes[k]), old(st.nodes), st.nodes, k, old(dk.entries), dk.entries, dk.locked, r)
  {
    var e := st.nodes[k];
    if !MustMove(e) {
      return Pass;
    }
    // The read check of getFilePathBy; the one of getFilePath answers from the cache.
    var ok := st.CheckRead(k);
    if !ok {
      return Fail(PermissionDenied);
    }
    var oldFilePath := FileSync.FilePathBy(e.roots, if e.history.oldProtected.Some? then e.history.oldProtected.value else e.access.protected,
                                           if TruthyOpt(e.history.oldPath) then e.history.oldPath.value else e.path);
    if oldFilePath in dk.entries {
      dk.Rename(oldFilePath, FileSync.FilePath(e));
    }
    r := Pass;
  }

  /**
   * `FileEntity::preRemove`: no guard against a second call. Behind the read
   * check the file is unlinked without a check; then, when the cache
   * directory exists (as a file or a directory), every cached copy named
   * after the file is unlinked.
   */
  method PreRemove(st: Store, dk: Disk, k: Key) returns (r: Outcome<Error>)
    requires st.Valid() && k in st.nodes
    modifies st`nodes, dk
    ensures st.Valid() && LinksOf(st.nodes) == LinksOf(old(st.nodes))
    ensures Consistent(old(st.nodes), st.webalize) ==> Consistent(st.nodes, st.webalize)
    ensures var e0 := old(st.nodes[k]);
      var t1 := Unlinked(old(dk.entries), dk.locked, FileSync.FilePath(e0));
      var dir := Cache.CacheDir(e0.roots.publicDir);
      && st.nodes == old(st.nodes)[k := e0.(readCache := Some(ReadAllowed(e0)))]
      && (r.Pass? <==> ReadAllowed(e0))
      && (r.Fail? ==> r == Fail(PermissionDenied) && dk.entries == old(dk.entries))
      && (r.Pass? ==> dk.entries == if dir in t1 then Cache.Purged(t1, dk.locked, dir, e0.name) else t1)
  {
    var ok := st.CheckRead(k);
    if !ok {
      return Fail(PermissionDenied);
    }
    dk.Unlink(FileSync.FilePath(st.nodes[k]));
    PurgeNamed(st, dk, k);
    r := Pass;
  }

  /**
   * The cache purge of `preRemove` once the read check passed: when the cache
   * directory exists, `getName` answers from the cache and selects the copies.
   */
  method PurgeNamed(st: Store, dk: Disk, k: Key)
    requires st.Valid() && k in st.nodes && st.nodes[k].readCache == Some(true)
    modifies st`nodes, dk
    ensures st.nodes == old(st.nodes)
    ensures var dir := Cache.CacheDir(st.nodes[k].roots.publicDir);
      dk.entries == if dir in old(dk.entries) then Cache.Purged(old(dk.entries), dk.locked, dir, st.nodes[k].name)
                    else old(dk.entries)
  {
    var dir := Cache.CacheDir(st.nodes[k].roots.publicDir);
    if dir in dk.entries {
      ghost var m0 := st.nodes;
      var got := st.Get(k);
      assert st.nodes == m0;
      if got.Ok? {
        Cache.Purge(dk, dir, got.value.name);
      }
    }
  }

  /**
   * `FileEntity::setFile`: as `File::setFile`, except that the current path
   * is remembered whenever no old path is and the path is truthy.
   */
  method SetFile(st: Store, k: Key, file: Payload)
    requires st.Valid() && k in st.nodes
    modifies st`nodes
    ensures st.Valid() && LinksOf(st.nodes) == LinksOf(old(st.nodes))
    ensures Consistent(old(st.nodes), st.webalize) ==> Consistent(st.nodes, st.webalize)
    ensures file.Upload? && !file.ok ==> st.nodes == old(st.nodes)
    ensures !(file.Upload? && !file.ok) ==>
      var e := old(st.nodes[k]);
      var remember := !TruthyOpt(e.history.oldPath) && Php.Truthy(e.path);
      st.nodes == old(st.nodes)[k := e.(history := if remember then History(Some(e.path), Some(e.access.protected)) else e.history,
                                        content := e.content.(payload := Some(file)),
                                        updated := e.updated + 1)]
  {
    if file.Upload? && !file.ok {
      return;
    }
    var e := st.nodes[k];
    if !TruthyOpt(e.history.oldPath) && Php.Truthy(e.path) {
      e := e.(history := History(Some(e.path), Some(e.access.protected)));
    }
    e := e.(content := e.content.(payload := Some(file)));
    st.Put(k, e.(updated := e.updated + 1));
  }
}
