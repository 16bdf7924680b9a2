/**
 * The disk side of a `File`: where its bytes lie (`getFilePathBy`,
 * `getFilePath`, `getFileUrl`), `setFile`, and the Doctrine callbacks
 * `preFlush` and `preRemove` that store, move and delete those bytes with a
 * check before and after every step.
 */
module FileSync {
  import opened Wrappers
  import opened Errors
  import opened Nodes
  import opened Forest
  import opened Walks
  import opened Storage
  import opened Entities
  import Php
  import Naming
  import Steps

  /** `getFilePathBy($protected, $path)` behind its read check: the root the flag chooses, a slash, the path. */
  function FilePathBy(roots: Roots, protected: bool, path: string): string {
    (if protected then roots.protectedDir else roots.publicDir) + "/" + path
  }

  /** `getFilePath()`: where the entity's file lies now. */
  function FilePath(e: Node): string {
    FilePathBy(e.roots, e.access.protected, e.path)
  }

  /** `getFileUrl()`: the public URL of the entity's file. */
  function FileUrl(e: Node): string {
    e.roots.publicUrl + "/" + e.path
  }

  /** Below one root, different paths are different files. */
  lemma FilePathByInjective(roots: Roots, protected: bool, a: string, b: string)
    requires FilePathBy(roots, protected, a) == FilePathBy(roots, protected, b)
    ensures a == b
  {
    var n := |(if protected then roots.protectedDir else roots.publicDir) + "/"|;
    assert a == FilePathBy(roots, protected, a)[n..];
    assert b == FilePathBy(roots, protected, b)[n..];
  }

  /** With two distinct roots of equal length, the two flags never name the same file. */
  lemma FilePathBySeparatesRoots(roots: Roots, a: string, b: string)
    requires roots.publicDir != roots.protectedDir && |roots.publicDir| == |roots.protectedDir|
    ensures FilePathBy(roots, true, a) != FilePathBy(roots, false, b)
  {
    var n := |roots.publicDir|;
    assert FilePathBy(roots, true, a)[..n] == roots.protectedDir;
    assert FilePathBy(roots, false, b)[..n] == roots.publicDir;
  }

  /** The basename `preFlush` proposes: the upload's sanitized name, or the copied file's basename webalized and trimmed of dots and dashes. */
  function Proposed(p: Payload, webalize: string -> string): string {
    match p
    case Upload(name, _) => name
    case Existing(pathname) => Php.Trim(webalize(Php.Basename(pathname)), {'.', '-'})
  }

  /** A stored payload replaces the file at the remembered old path, when that path differs from the current one. */
  predicate Replaces(e: Node) {
    TruthyOpt(e.history.oldPath) && e.history.oldPath.value != e.path
  }

  /** The remembered old file, as `getFilePathBy($this->oldProtected, $this->oldPath)` names it. */
  function ReplacedPath(e: Node): string
    requires e.history.oldPath.Some?
  {
    FilePathBy(e.roots, e.history.oldProtected.GetOr(false), e.history.oldPath.value)
  }

  /**
   * The name `preFlush` gave the entity `e0`, now `e`: chosen by
   * `suggestName` after the proposed basename on the disk `t0`, and nothing
   * but the name, the path and the history changed besides the caches, the
   * content and the timestamp.
   */
  ghost predicate Named(e0: Node, e: Node, t0: Tree, webalize: string -> string)
    requires e0.content.payload.Some?
  {
    var p := e0.content.payload.value;
    var pub, prot := e0.roots.publicDir, e0.roots.protectedDir;
    && e.roots == e0.roots && e.access == e0.access && e.parent == e0.parent && e.removed == e0.removed && e.id == e0.id
    && !Naming.Taken(t0, pub, prot, e.name)
    && (!Naming.Taken(t0, pub, prot, Proposed(p, webalize)) ==> e.name == Proposed(p, webalize))
  }

  /**
   * The disk steps of `preFlush` for the payload `p` of `e`, from `t0` to `t`:
   * the replaced old file existed and is gone, the new file is in place, and
   * a copied source is still there.
   */
  ghost predicate Placed(e: Node, p: Payload, t0: Tree, t: Tree) {
    && (Replaces(e) ==> IsFileAt(t0, ReplacedPath(e)))
    && t == (if Replaces(e) then t0 - {ReplacedPath(e)} else t0)[FilePath(e) := IsFile]
    && (p.Existing? ==> IsFileAt(t, p.pathname))
  }

  /** The disk `t` once the replaced old file of `e`, if any, is unlinked. */
  function AfterUnlink(e: Node, t: Tree): Tree {
    if Replaces(e) then t - {ReplacedPath(e)} else t
  }

  /** The replaced old file of `e`, if any, is a file on `t` that may be removed. */
  predicate Unlinkable(e: Node, t: Tree, locked: set<string>) {
    Replaces(e) ==> IsFileAt(t, ReplacedPath(e)) && ReplacedPath(e) !in locked
  }

  /**
   * Every disk step of `preFlush` for the payload `p` of `e` can succeed on
   * `t`: the replaced old file can be unlinked, and then an upload can be
   * moved to the entity's file path, or the named file copied there.
   */
  predicate Placeable(e: Node, p: Payload, t: Tree, locked: set<string>) {
    && Unlinkable(e, t, locked)
    && var t1 := AfterUnlink(e, t);
       if p.Upload? then FilePath(e) !in locked && !IsDirAt(t1, FilePath(e))
       else IsFileAt(t1, p.pathname) && FilePath(e) !in t1 && FilePath(e) !in locked
  }

  /**
   * What a completed `preFlush` with a payload leaves behind: the entity `e0`
   * is now `e`, named by `suggestName`, its new file in place on the disk `t`,
   * and its size and type taken from the new file.
   */
  ghost predicate Stored(e0: Node, e: Node, t0: Tree, t: Tree, webalize: string -> string,
                         sizeOf: string -> nat, mimeOf: string -> string)
    requires e0.content.payload.Some?
  {
    && Named(e0, e, t0, webalize)
    && Placed(e, e0.content.payload.value, t0, t)
    && e.content == Content(sizeOf(FilePath(e)), mimeOf(FilePath(e)), None)
  }

  lemma TwoUpdates(m0: map<Key, Node>, m1: map<Key, Node>, m2: map<Key, Node>, k: Key, e1: Node, e2: Node)
    requires m1 == m0[k := e1] && m2 == m1[k := e2]
    ensures m2 == m0[k := e2]
  {
  }

  /** After `setName` on a file only that file has changed: its name, its path, its history and its write cache. */
  lemma FileRenamed(links: Links, depth: map<Key, nat>, m0: map<Key, Node>, m: map<Key, Node>,
                    k: Key, name: string, w: string -> string)
    requires Ranked(links, depth) && k in links && k.F? && k in m0
    requires Done(links, depth, Renaming(m0, k, name), m, k, RegenStep(w), true)
    ensures k in m && m == m0[k := m[k]]
    ensures m[k] == RegenFrom(m0[k].(name := name, writeCache := Some(true), updated := m0[k].updated + 1), ParentNode(m0, k), w)
  {
    var m1 := Renaming(m0, k, name);
    forall x | x in links && x != k ensures !Within(links, depth, x, k) {
      WithinDeeper(links, depth, x, k);
    }
    if links[k].Some? {
      assert links[k].value != k;
    }
    assert ParentNode(m, k) == ParentNode(m0, k);
    RegenStepApply(w, m1[k], ParentNode(m, k));
  }

  /** `getFilePathBy`: the file path behind the read check. */
  method GetFilePathBy(st: Store, k: Key, protected: bool, path: string) returns (r: Result<string, Error>)
    requires st.Valid() && k in st.nodes
    modifies st`nodes
    ensures st.Valid() && LinksOf(st.nodes) == LinksOf(old(st.nodes))
    ensures Consistent(old(st.nodes), st.webalize) ==> Consistent(st.nodes, st.webalize)
    ensures st.nodes == old(st.nodes)[k := old(st.nodes[k]).(readCache := Some(ReadAllowed(old(st.nodes[k]))))]
    ensures r == if ReadAllowed(old(st.nodes[k])) then Ok(FilePathBy(old(st.nodes[k]).roots, protected, path))
                 else Err(PermissionDenied)
  {
    var ok := st.CheckRead(k);
    if !ok {
      return Err(PermissionDenied);
    }
    var e := st.nodes[k];
    r := Ok(FilePathBy(e.roots, protected, path));
  }

  /** `getFilePath($withoutBasePath)`: the file path, or only the entity's path, behind the read check. */
  method GetFilePath(st: Store, k: Key, withoutBasePath: bool) returns (r: Result<string, Error>)
    requires st.Valid() && k in st.nodes
    modifies st`nodes
    ensures st.Valid() && LinksOf(st.nodes) == LinksOf(old(st.nodes))
    ensures Consistent(old(st.nodes), st.webalize) ==> Consistent(st.nodes, st.webalize)
    ensures st.nodes == old(st.nodes)[k := old(st.nodes[k]).(readCache := Some(ReadAllowed(old(st.nodes[k]))))]
    ensures r == if !ReadAllowed(old(st.nodes[k])) then Err(PermissionDenied)
                 else if withoutBasePath then Ok(old(st.nodes[k]).path) else Ok(FilePath(old(st.nodes[k])))
  {
    var ok := st.CheckRead(k);
    if !ok {
      return Err(PermissionDenied);
    }
    var e := st.nodes[k];
    if withoutBasePath {
      r := Ok(e.path);
    } else {
      r := Ok((if e.access.protected then e.roots.protectedDir else e.roots.publicDir) + "/" + e.path);
    }
  }

  /** `getFileUrl($withoutBasePath)`: the public URL, or only the entity's path, behind the read check. */
  method GetFileUrl(st: Store, k: Key, withoutBasePath: bool) returns (r: Result<string, Error>)
    requires st.Valid() && k in st.nodes
    modifies st`nodes
    ensures st.Valid() && LinksOf(st.nodes) == LinksOf(old(st.nodes))
    ensures st.nodes == old(st.nodes)[k := old(st.nodes[k]).(readCache := Some(ReadAllowed(old(st.nodes[k]))))]
    ensures r == if !ReadAllowed(old(st.nodes[k])) then Err(PermissionDenied)
                 else if withoutBasePath then Ok(old(st.nodes[k]).path) else Ok(FileUrl(old(st.nodes[k])))
  {
    var ok := st.CheckRead(k);
    if !ok {
      return Err(PermissionDenied);
    }
    var e := st.nodes[k];
    if withoutBasePath {
      r := Ok(e.path);
    } else {
      r := Ok(e.roots.publicUrl + "/" + e.path);
    }
  }

  /**
   * `File::setFile`: a failed upload is ignored. Otherwise, when no old path
   * is remembered and the entity already has a size (it holds a stored file),
   * the current path and protection are remembered; the payload is kept for
   * the next flush and the timestamp bumped. No check is made.
   */
  method SetFile(st: Store, k: Key, file: Payload)
    requires st.Valid() && k in st.nodes
    modifies st`nodes
    ensures st.Valid() && LinksOf(st.nodes) == LinksOf(old(st.nodes))
    ensures Consistent(old(st.nodes), st.webalize) ==> Consistent(st.nodes, st.webalize)
    ensures file.Upload? && !file.ok ==> st.nodes == old(st.nodes)
    ensures !(file.Upload? && !file.ok) ==>
      var e := old(st.nodes[k]);
      var remember := !TruthyOpt(e.history.oldPath) && e.content.size != 0;
      st.nodes == old(st.nodes)[k := e.(history := if remember then History(Some(e.path), Some(e.access.protected)) else e.history,
                                        content := e.content.(payload := Some(file)),
                                        updated := e.updated + 1)]
  {
    if file.Upload? && !file.ok {
      return;
    }
    var e := st.nodes[k];
    if !TruthyOpt(e.history.oldPath) && e.content.size != 0 {
      e := e.(history := History(Some(e.path), Some(e.access.protected)));
    }
    e := e.(content := e.content.(payload := Some(file)));
    st.Put(k, e.(updated := e.updated + 1));
  }

  /**
   * `File::preFlush`: nothing once the file is removed; with a payload, the
   * payload is stored under a fresh name; without, a changed path or
   * protection moves the stored file.
   */
  method PreFlush(st: Store, dk: Disk, k: Key, sizeOf: string -> nat, mimeOf: string -> string) returns (r: Outcome<Error>)
    requires st.Valid() && k in st.nodes && k.F?
    modifies st`nodes, dk
    ensures st.Valid() && LinksOf(st.nodes) == LinksOf(old(st.nodes))
    ensures Consistent(old(st.nodes), st.webalize) && (r.Pass? || old(st.nodes[k]).content.payload.None?) ==>
      Consistent(st.nodes, st.webalize)
    ensures old(st.nodes[k]).removed ==> r == Pass && st.nodes == old(st.nodes) && dk.entries == old(dk.entries)
    ensures r.Fail? ==> r.error.PermissionDenied? || r.error.RemoveFile? || r.error.RenameFile? || r.error.UploadFile?
    ensures !old(st.nodes[k]).removed && old(st.nodes[k]).content.payload.Some? && r.Pass? ==>
      st.nodes == old(st.nodes)[k := st.nodes[k]]
    ensures !old(st.nodes[k]).removed && old(st.nodes[k]).content.payload.Some? && r.Pass? ==>
      Stored(old(st.nodes[k]), st.nodes[k], old(dk.entries), dk.entries, st.webalize, sizeOf, mimeOf)
    ensures !old(st.nodes[k]).removed && old(st.nodes[k]).content.payload.Some? &&
            WriteAllowed(old(st.nodes[k])) && ReadAllowed(old(st.nodes[k])) ==>
      (r.Pass? <==> Placeable(st.nodes[k], old(st.nodes[k]).content.payload.value, old(dk.entries), dk.locked))
    ensures !old(st.nodes[k]).removed && old(st.nodes[k]).content.payload.Some? && !ReadAllowed(old(st.nodes[k])) ==>
      r == Fail(PermissionDenied) && dk.entries == old(dk.entries)
    ensures !old(st.nodes[k]).removed && old(st.nodes[k]).content.payload.None? ==>
      Relocated(old(st.nodes[k]), old(st.nodes), st.nodes, k, old(dk.entries), dk.entries, dk.locked, r)
  {
    if st.nodes[k].removed {
      return Pass;
    }
    if st.nodes[k].content.payload.Some? {
      r := FlushPayload(st, dk, k, sizeOf, mimeOf);
    } else {
      r := FlushMove(st, dk, k);
    }
  }

  /** The `if ($this->file)` part of `File::preFlush`. */
  method FlushPayload(st: Store, dk: Disk, k: Key, sizeOf: string -> nat, mimeOf: string -> string) returns (r: Outcome<Error>)
    requires st.Valid() && k in st.nodes && k.F? && st.nodes[k].content.payload.Some?
    modifies st`nodes, dk
    ensures st.Valid() && LinksOf(st.nodes) == LinksOf(old(st.nodes))
    ensures Consistent(old(st.nodes), st.webalize) && r.Pass? ==> Consistent(st.nodes, st.webalize)
    ensures r.Fail? ==> r.error.PermissionDenied? || r.error.RemoveFile? || r.error.RenameFile? || r.error.UploadFile?
    ensures r.Pass? ==> st.nodes == old(st.nodes)[k := st.nodes[k]]
    ensures r.Pass? ==> Stored(old(st.nodes[k]), st.nodes[k], old(dk.entries), dk.entries, st.webalize, sizeOf, mimeOf)
    ensures WriteAllowed(old(st.nodes[k])) && ReadAllowed(old(st.nodes[k])) ==>
      (r.Pass? <==> Placeable(st.nodes[k], old(st.nodes[k]).content.payload.value, old(dk.entries), dk.locked))
    ensures !ReadAllowed(old(st.nodes[k])) ==> r == Fail(PermissionDenied) && dk.entries == old(dk.entries)
  {
    ghost var m0 := st.nodes;
    var file := st.nodes[k].content.payload.value;
    r := NameFile(st, dk, k);
    if r.Fail? {
      return;
    }
    ghost var m1 := st.nodes;
    assert ReadAllowed(m1[k]) == ReadAllowed(m0[k]);
    r := StoreFile(st, dk, k, file, sizeOf, mimeOf);
    if r.Pass? {
      TwoUpdates(m0, m1, st.nodes, k, m1[k], st.nodes[k]);
    }
  }

  /** Placing a payload depends on the entity's location only, not on its caches or content. */
  lemma SameSpot(a: Node, b: Node, p: Payload, t: Tree, locked: set<string>)
    requires a.roots == b.roots && a.access == b.access && a.path == b.path && a.history == b.history
    ensures Placeable(a, p, t, locked) == Placeable(b, p, t, locked)
  {
  }

  /**
   * What `preFlush` does with a payload once the entity is named: the read
   * check, the disk steps, then the size and type of the stored file.
   */
  method StoreFile(st: Store, dk: Disk, k: Key, file: Payload, sizeOf: string -> nat, mimeOf: string -> string)
    returns (r: Outcome<Error>)
    requires st.Valid() && k in st.nodes
    modifies st`nodes, dk
    ensures st.Valid() && LinksOf(st.nodes) == LinksOf(old(st.nodes))
    ensures Consistent(old(st.nodes), st.webalize) ==> Consistent(st.nodes, st.webalize)
    ensures r.Fail? ==> r.error.PermissionDenied? || r.error.RemoveFile? || r.error.RenameFile? || r.error.UploadFile?
    ensures r.Pass? ==> var e := old(st.nodes[k]);
      st.nodes == old(st.nodes)[k := e.(readCache := Some(true), content := Content(sizeOf(FilePath(e)), mimeOf(FilePath(e)), None))]
    ensures r.Pass? ==> Placed(old(st.nodes[k]), file, old(dk.entries), dk.entries)
    ensures r.Pass? <==> ReadAllowed(old(st.nodes[k])) && Placeable(st.nodes[k], file, old(dk.entries), dk.locked)
    ensures !ReadAllowed(old(st.nodes[k])) ==> r == Fail(PermissionDenied) && dk.entries == old(dk.entries)
    ensures r.Fail? ==> st.nodes == old(st.nodes)[k := old(st.nodes[k]).(readCache := Some(ReadAllowed(old(st.nodes[k]))))]
  {
    var e := st.nodes[k];
    // The read check of getFilePathBy, or of getFilePath when no old file is
    // replaced: the first decides, every later one answers from the cache.
    var ok := st.CheckRead(k);
    if !ok {
      return Fail(PermissionDenied);
    }
    r := PlaceFile(dk, e, file);
    if r.Fail? {
      SameSpot(e, st.nodes[k], file, old(dk.entries), dk.locked);
      return;
    }
    var filePath := FilePath(e);
    ghost var m1 := st.nodes;
    var e' := st.nodes[k].(content := Content(sizeOf(filePath), mimeOf(filePath), None));
    st.Put(k, e');
    TwoUpdates(old(st.nodes), m1, st.nodes, k, m1[k], e');
    SameSpot(e, e', file, old(dk.entries), dk.locked);
  }

  /** `suggestName`, then `setName`, for the payload of file `k`. */
  method NameFile(st: Store, dk: Disk, k: Key) returns (r: Outcome<Error>)
    requires st.Valid() && k in st.nodes && k.F? && st.nodes[k].content.payload.Some?
    modifies st`nodes
    ensures st.Valid() && LinksOf(st.nodes) == LinksOf(old(st.nodes))
    ensures Consistent(old(st.nodes), st.webalize) && r.Pass? ==> Consistent(st.nodes, st.webalize)
    ensures r.Fail? ==> r.error == PermissionDenied
    ensures WriteAllowed(old(st.nodes[k])) ==> r.Pass?
    ensures r.Pass? ==> st.nodes == old(st.nodes)[k := st.nodes[k]]
    ensures r.Pass? ==> Named(old(st.nodes[k]), st.nodes[k], dk.entries, st.webalize)
    ensures r.Pass? ==> st.nodes[k].content == old(st.nodes[k]).content && st.nodes[k].readCache == old(st.nodes[k]).readCache
  {
    var e := st.nodes[k];
    var file := e.content.payload.value;
    var basename;
    if file.Upload? {
      basename := file.sanitizedName;
    } else {
      basename := Php.Trim(st.webalize(Php.Basename(file.pathname)), {'.', '-'});
    }
    basename := Naming.SuggestName(dk.entries, e.roots.publicDir, e.roots.protectedDir, basename);
    r := Rename(st, k, basename);
  }

  /**
   * The disk steps of `preFlush` with a payload, once the read check passed:
   * the replaced old file is unlinked (it must exist and be gone after), then
   * the upload is moved or the file copied to the entity's file path.
   */
  method PlaceFile(dk: Disk, e: Node, file: Payload) returns (r: Outcome<Error>)
    modifies dk
    ensures r.Pass? <==> Placeable(e, file, old(dk.entries), dk.locked)
    ensures r.Pass? ==> Placed(e, file, old(dk.entries), dk.entries)
    ensures r.Fail? ==> r.error.RemoveFile? || r.error.RenameFile? || r.error.UploadFile?
    ensures r.Fail? ==> dk.entries == if Unlinkable(e, old(dk.entries), dk.locked) then AfterUnlink(e, old(dk.entries)) else old(dk.entries)
    ensures Replaces(e) && !IsFileAt(old(dk.entries), ReplacedPath(e)) ==>
      r == Fail(RemoveFile(ReplacedPath(e), Missing))
    ensures Replaces(e) && IsFileAt(old(dk.entries), ReplacedPath(e)) && ReplacedPath(e) in dk.locked ==>
      r == Fail(RemoveFile(ReplacedPath(e), Present))
    ensures Unlinkable(e, old(dk.entries), dk.locked) && file.Upload? && r.Fail? ==> r == Fail(UploadFile)
    ensures Unlinkable(e, old(dk.entries), dk.locked) && file.Existing? ==>
      var t1 := AfterUnlink(e, old(dk.entries));
      && (!IsFileAt(t1, file.pathname) ==> r == Fail(RenameFile(file.pathname, Missing)))
      && (IsFileAt(t1, file.pathname) && IsFileAt(t1, FilePath(e)) ==> r == Fail(RenameFile(FilePath(e), Present)))
      && (IsFileAt(t1, file.pathname) && !IsFileAt(t1, FilePath(e)) && r.Fail? ==> r == Fail(RenameFile(FilePath(e), Missing)))
  {
    if TruthyOpt(e.history.oldPath) && e.history.oldPath.value != e.path {
      r := Steps.UnlinkChecked(dk, FilePathBy(e.roots, e.history.oldProtected.GetOr(false), e.history.oldPath.value));
      if r.Fail? {
        return;
      }
    }
    var filePath := FilePath(e);
    if file.Upload? {
      r := Steps.MoveChecked(dk, filePath);
    } else {
      r := Steps.CopyChecked(dk, file.pathname, filePath);
    }
  }

  /** `setName` on a file, with what it leaves of the file's fields. */
  method Rename(st: Store, k: Key, name: string) returns (r: Outcome<Error>)
    requires st.Valid() && k in st.nodes && k.F?
    modifies st`nodes
    ensures st.Valid() && LinksOf(st.nodes) == LinksOf(old(st.nodes))
    ensures Consistent(old(st.nodes), st.webalize) && r.Pass? ==> Consistent(st.nodes, st.webalize)
    ensures r.Fail? ==> r.error == PermissionDenied
    ensures WriteAllowed(old(st.nodes[k])) ==> r.Pass?
    ensures r.Pass? ==> st.nodes == old(st.nodes)[k := st.nodes[k]] && st.nodes[k].name == name
    ensures r.Pass? ==> var e0, e := old(st.nodes[k]), st.nodes[k];
      e.roots == e0.roots && e.access == e0.access && e.parent == e0.parent && e.removed == e0.removed &&
      e.content == e0.content && e.readCache == e0.readCache && e.id == e0.id
  {
    ghost var m0 := st.nodes;
    r := st.SetName(k, name);
    if r.Pass? && m0[k].name != name {
      FileRenamed(LinksOf(st.nodes), st.depth, m0, st.nodes, k, name, st.webalize);
    }
  }

  /** The old location the payload-less `preFlush` moves from. */
  function MovedFrom(e: Node): string {
    FilePathBy(e.roots, e.history.oldProtected.GetOr(e.access.protected), e.history.oldPath.GetOr(e.path))
  }

  /** The payload-less `preFlush` has something to move: a remembered old path or protection that differs from the current one. */
  predicate MustMove(e: Node) {
    && (TruthyOpt(e.history.oldPath) || e.history.oldProtected.Some?)
    && (e.history.oldPath != Some(e.path) || e.history.oldProtected != Some(e.access.protected))
  }

  /**
   * What the payload-less `preFlush` does to the entity `e0` (at `k` in `m0`)
   * and the disk `t0`: without anything to move, nothing; otherwise the read
   * check; then the stored file moves from its old to its new location,
   * which must be a file and nothing before and nothing and a file after,
   * and the remembered history stays as it was.
   */
  ghost predicate Relocated(e0: Node, m0: map<Key, Node>, m: map<Key, Node>, k: Key, t0: Tree, t: Tree,
                            locked: set<string>, r: Outcome<Error>)
    requires k in m0
  {
    var a, b := MovedFrom(e0), FilePath(e0);
    && (!MustMove(e0) ==> r == Pass && m == m0 && t == t0)
    && (MustMove(e0) ==> m == m0[k := e0.(readCache := Some(ReadAllowed(e0)))])
    && (MustMove(e0) && !ReadAllowed(e0) ==> r == Fail(PermissionDenied) && t == t0)
    && (MustMove(e0) && ReadAllowed(e0) ==> Moved(a, b, t0, t, locked, r))
  }

  /**
   * The file at `a` moved to `b`, from `t0` to `t`: it goes ahead exactly when
   * `a` is a file, nothing lies at `b` and neither is locked; every other case
   * throws the matching `RenameFileException` and leaves the disk alone.
   */
  ghost predicate Moved(a: string, b: string, t0: Tree, t: Tree, locked: set<string>, r: Outcome<Error>) {
    && (r.Pass? <==> IsFileAt(t0, a) && b !in t0 && a !in locked && b !in locked)
    && (!IsFileAt(t0, a) ==> r == Fail(RenameFile(a, Missing)))
    && (IsFileAt(t0, a) && IsFileAt(t0, b) ==> r == Fail(RenameFile(b, Present)))
    && (IsFileAt(t0, a) && !IsFileAt(t0, b) && r.Fail? ==> r == Fail(RenameFile(a, Present)))
    && t == if r.Pass? then (t0 - {a})[b := IsFile] else t0
  }

  /** The part of `File::preFlush` after `if ($this->file)`. */
  method FlushMove(st: Store, dk: Disk, k: Key) returns (r: Outcome<Error>)
    requires st.Valid() && k in st.nodes
    modifies st`nodes, dk
    ensures st.Valid() && LinksOf(st.nodes) == LinksOf(old(st.nodes))
    ensures Consistent(old(st.nodes), st.webalize) ==> Consistent(st.nodes, st.webalize)
    ensures Relocated(old(st.nodes[k]), old(st.nodes), st.nodes, k, old(dk.entries), dk.entries, dk.locked, r)
  {
    var e := st.nodes[k];
    if !MustMove(e) {
      return Pass;
    }
    // The read check of getFilePathBy; the one of getFilePath that follows answers from the cache.
    var ok := st.CheckRead(k);
    if !ok {
      return Fail(PermissionDenied);
    }
    r := MoveFile(dk, e);
  }

  /** The check, `rename`, check of the payload-less `preFlush`. */
  method MoveFile(dk: Disk, e: Node) returns (r: Outcome<Error>)
    modifies dk
    ensures Moved(MovedFrom(e), FilePath(e), old(dk.entries), dk.entries, dk.locked, r)
  {
    var oldFilePath := FilePathBy(e.roots, e.history.oldProtected.GetOr(e.access.protected), e.history.oldPath.GetOr(e.path));
    var filePath := FilePath(e);
    r := Steps.RenameChecked(dk, oldFilePath, filePath, (p, w) => RenameFile(p, w));
  }

  /**
   * `File::preRemove`: runs once. The entity is marked removed first; then,
   * behind the read check, its file must exist and be gone after `unlink`.
   */
  method PreRemove(st: Store, dk: Disk, k: Key) returns (r: Outcome<Error>)
    requires st.Valid() && k in st.nodes
    modifies st`nodes, dk
    ensures st.Valid() && LinksOf(st.nodes) == LinksOf(old(st.nodes))
    ensures Consistent(old(st.nodes), st.webalize) ==> Consistent(st.nodes, st.webalize)
    ensures old(st.nodes[k]).removed ==> r == Pass && st.nodes == old(st.nodes) && dk.entries == old(dk.entries)
    ensures !old(st.nodes[k]).removed ==>
      var e0 := old(st.nodes[k]);
      var fp := FilePath(e0);
      && st.nodes == old(st.nodes)[k := e0.(removed := true, readCache := Some(ReadAllowed(e0)))]
      && (r.Pass? <==> ReadAllowed(e0) && IsFileAt(old(dk.entries), fp) && fp !in dk.locked)
      && (!ReadAllowed(e0) ==> r == Fail(PermissionDenied))
      && (ReadAllowed(e0) && !IsFileAt(old(dk.entries), fp) ==> r == Fail(RemoveFile(fp, Missing)))
      && (ReadAllowed(e0) && IsFileAt(old(dk.entries), fp) && r.Fail? ==> r == Fail(RemoveFile(fp, Present)))
      && dk.entries == if r.Pass? then old(dk.entries) - {fp} else old(dk.entries)
  {
    var e := st.nodes[k];
    if e.removed {
      return Pass;
    }
    ghost var m0 := st.nodes;
    st.Put(k, e.(removed := true));
    ghost var m1 := st.nodes;
    var ok := st.CheckRead(k);
    TwoUpdates(m0, m1, st.nodes, k, m1[k], m1[k].(readCache := Some(ok)));
    if !ok {
      return Fail(PermissionDenied);
    }
    r := Steps.UnlinkChecked(dk, FilePath(e));
  }
}
