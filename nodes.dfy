/**
 * One entity of the file tree (`BaseFile` with the fields of `Dir` and `File`,
 * and equally their older twins `BaseFileEntity`, `DirEntity`, `FileEntity`),
 * and the rules that compute one entity's next field values.
 */
module Nodes {
  import opened Wrappers
  import opened Permissions
  import Php

  /**
   * The in-memory identity of an entity. Directories and files live in two
   * tables, so a handle says which one.
   */
  datatype Key = D(n: nat) | F(n: nat)

  /** What `setFile` was given: an HTTP upload or a file already on disk. */
  datatype Payload =
    | Upload(sanitizedName: string, ok: bool)  // Nette\Http\FileUpload
    | Existing(pathname: string)               // \SplFileInfo

  /** Who may see and change an entity: the fields `copyPermission` hands down. */
  datatype Access = Access(
    protected: bool,
    author: Option<UserId>,
    readRoles: seq<string>,
    writeRoles: seq<string>,
    user: Option<Principal>)

  /** The directories and URL the listener injects into every entity it sees. */
  datatype Roots = Roots(publicDir: string, protectedDir: string, publicUrl: string)

  /** Where the entity's file lay before the pending changes (`oldPath`, `oldProtected`). */
  datatype History = History(oldPath: Option<string>, oldProtected: Option<bool>)

  /** A file's own data: its size, its MIME type and the payload waiting to be stored. */
  datatype Content = Content(size: nat, mimeType: string, payload: Option<Payload>)

  /**
   * The fields of an entity. `path` is "" until a path is first generated;
   * `readCache`/`writeCache` are the lazily filled `isAllowedToRead` and
   * `isAllowedToWrite` results; `updated` counts the bumps of the timestamp.
   * `content` belongs to files, `removed` to the current generation of files
   * and directories.
   */
  datatype Node = Node(
    id: Option<nat>,
    name: string,
    path: string,
    parent: Option<Key>,
    invisible: bool,
    access: Access,
    roots: Roots,
    history: History,
    readCache: Option<bool>,
    writeCache: Option<bool>,
    updated: nat,
    content: Content,
    removed: bool)

  /** A freshly constructed entity: empty name, no parent, visible, unprotected, no roles. */
  function Fresh(): (e: Node)
    ensures e.parent.None? && e.id.None? && e.access.user.None? && e.access.author.None?
    ensures !e.access.protected && !e.invisible && e.access.readRoles == [] && e.access.writeRoles == []
  {
    Node(None, "", "", None, false, Access(false, None, [], [], None), Roots("", "", ""), History(None, None),
         None, None, 0, Content(0, "", None), false)
  }

  /**
   * The entity after `setUser`: a different user is stored and both cached
   * answers are dropped; an entity without an author takes the user's
   * identity as its author, which bumps the timestamp.
   */
  function WithUser(e: Node, user: Principal): (r: Node)
    ensures e.access.user == Some(user) ==> r == e
    ensures r.access.user == Some(user) && r.parent == e.parent && r.name == e.name && r.roots == e.roots
    ensures r.access.author == if e.access.author.None? && e.access.user != Some(user) then user.identity else e.access.author
  {
    if e.access.user == Some(user) then e
    else
      var claim := e.access.author.None? && user.identity.Some?;
      e.(access := e.access.(user := Some(user), author := if claim then user.identity else e.access.author),
         updated := if claim then e.updated + 1 else e.updated,
         readCache := None, writeCache := None)
  }

  /** PHP truthiness of a nullable string. */
  predicate TruthyOpt(s: Option<string>) {
    s.Some? && Php.Truthy(s.value)
  }

  /** PHP truthiness of a nullable id. */
  predicate HasId(e: Node) {
    e.id.Some? && e.id.value != 0
  }

  /** What `isAllowedToRead` answers: the cached value, else the rule. */
  function ReadAllowed(e: Node): bool {
    e.readCache.GetOr(ReadRule(e.access.protected, e.access.user, e.access.readRoles))
  }

  /** What `isAllowedToWrite` answers: the cached value, else the rule. */
  function WriteAllowed(e: Node): bool {
    e.writeCache.GetOr(WriteRule(e.access.author, e.access.user, e.access.readRoles))
  }

  /**
   * The path-history rule of `generatePath` once the path has gone from
   * `before` to `after`: nothing happens for an unchanged path or an entity
   * without an id; otherwise an empty history records `before`, and a history
   * equal to the new path is cleared.
   */
  function NextOldPath(id: Option<nat>, oldPath: Option<string>, before: string, after: string): Option<string> {
    if after == before then oldPath
    else if !(id.Some? && id.value != 0) then oldPath
    else if !TruthyOpt(oldPath) then Some(before)
    else if oldPath == Some(after) then None
    else oldPath
  }

  /** The path `generatePath` gives an entity named `name` below a parent with path `parentPath`. */
  function PathUnder(parentPath: Option<string>, name: string, webalize: string -> string): string {
    (if parentPath.Some? then parentPath.value + "/" else "") + webalize(name)
  }

  /** The entity after a successful `BaseFile::generatePath` below a parent with path `parentPath`. */
  function Regenerated(e: Node, parentPath: Option<string>, webalize: string -> string): (r: Node)
    ensures r.path == PathUnder(parentPath, e.name, webalize)
  {
    var p := PathUnder(parentPath, e.name, webalize);
    e.(writeCache := Some(true), path := p, history := e.history.(oldPath := NextOldPath(e.id, e.history.oldPath, e.path, p)))
  }

  /**
   * The access fields after `copyPermission` from `src`: the source's
   * protection and role lists, and the source's user when there is none yet.
   */
  function AccessCopied(a: Access, src: Access): (r: Access)
    ensures r.protected == src.protected && r.readRoles == src.readRoles && r.writeRoles == src.writeRoles
    ensures r.user == (if a.user.Some? then a.user else src.user) && r.author == a.author
  {
    a.(user := if a.user.Some? then a.user else src.user,
       protected := src.protected, readRoles := src.readRoles, writeRoles := src.writeRoles)
  }

  /** The history after the path takes the successive values `paths`, starting from `cur`. */
  function Replay(id: Option<nat>, oldPath: Option<string>, cur: string, paths: seq<string>): Option<string>
    decreases |paths|
  {
    if paths == [] then oldPath
    else Replay(id, NextOldPath(id, oldPath, cur, paths[0]), paths[0], paths[1..])
  }

  function LastOr(cur: string, paths: seq<string>): string {
    if paths == [] then cur else paths[|paths| - 1]
  }

  /**
   * For an entity with an id and a non-empty original path `origin`, the
   * history is empty exactly while the path equals the origin, and is the
   * origin otherwise.
   */
  lemma {:induction false} ReplayRemembersOrigin(id: nat, origin: string, oldPath: Option<string>, cur: string, paths: seq<string>)
    requires id != 0 && Php.Truthy(origin)
    requires oldPath == if cur == origin then None else Some(origin)
    ensures Replay(Some(id), oldPath, cur, paths) == if LastOr(cur, paths) == origin then None else Some(origin)
    decreases |paths|
  {
    if paths != [] {
      var next := NextOldPath(Some(id), oldPath, cur, paths[0]);
      assert next == if paths[0] == origin then None else Some(origin);
      ReplayRemembersOrigin(id, origin, next, paths[0], paths[1..]);
      assert LastOr(paths[0], paths[1..]) == LastOr(cur, paths);
    }
  }

  /** Without an id the history never changes. */
  lemma {:induction false} ReplayWithoutId(id: Option<nat>, oldPath: Option<string>, cur: string, paths: seq<string>)
    requires !(id.Some? && id.value != 0)
    ensures Replay(id, oldPath, cur, paths) == oldPath
    decreases |paths|
  {
    if paths != [] {
      ReplayWithoutId(id, oldPath, paths[0], paths[1..]);
    }
  }
}
