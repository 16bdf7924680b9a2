/**
 * `FileListener`: the Doctrine listener that hands every file entity it sees
 * (on persist, on flush and on load) the public and protected directories,
 * the public URL and the signed-in user.
 *
 * The container's user service is the `service` constant; `fetches` counts
 * the times it is looked up.
 */
module Listeners {
  import Php
  import opened Wrappers
  import opened Permissions
  import opened Nodes
  import opened Forest
  import opened Entities

  /**
   * The public URL the constructor derives: the base path, then the public
   * directory with as many leading characters cut as the web root is long.
   */
  function PublicUrl(basePath: string, publicDir: string, wwwDir: string): (url: string)
    ensures |wwwDir| >= |publicDir| ==> url == basePath
    ensures |wwwDir| < |publicDir| ==> url == basePath + publicDir[|wwwDir|..]
  {
    basePath + Php.Substr(publicDir, |wwwDir|)
  }

  /** A public directory inside the web root is served at the base path followed by its place below the root. */
  lemma PublicUrlBelowWww(basePath: string, wwwDir: string, sub: string)
    ensures PublicUrl(basePath, wwwDir + sub, wwwDir) == basePath + sub
  {
    if sub != "" {
      assert (wwwDir + sub)[|wwwDir|..] == sub;
    }
  }

  /** Only the length of the web root is used: its characters need not be a prefix of the public directory. */
  lemma PublicUrlCutsByLength(basePath: string, publicDir: string, wwwDir: string, other: string)
    requires |other| == |wwwDir|
    ensures PublicUrl(basePath, publicDir, other) == PublicUrl(basePath, publicDir, wwwDir)
  {
  }

  /** What `setup` leaves of an entity: the three roots, then what `setUser` makes of it. */
  function SetUp(e: Node, roots: Roots, user: Principal): (r: Node)
    ensures r.roots == roots && r.access.user == Some(user) && r.parent == e.parent && r.name == e.name
    ensures r.access.author == if e.access.author.None? && e.access.user != Some(user) then user.identity else e.access.author
  {
    WithUser(e.(roots := roots), user)
  }

  /** A second lifecycle event with the same listener changes nothing more: no second timestamp bump, no cache dropped again. */
  lemma SetUpIdempotent(e: Node, roots: Roots, user: Principal)
    ensures SetUp(SetUp(e, roots, user), roots, user) == SetUp(e, roots, user)
  {
  }

  /** An entity that already has this user keeps its permission caches and timestamp; only the roots are replaced. */
  lemma SetUpKeepsCaches(e: Node, roots: Roots, user: Principal)
    requires e.access.user == Some(user)
    ensures SetUp(e, roots, user) == e.(roots := roots)
  {
  }

  /** The two setter calls of `setup`, one entity update each, amount to `SetUp`. */
  lemma SetUpSteps(m0: map<Key, Node>, m1: map<Key, Node>, m2: map<Key, Node>, k: Key, roots: Roots, user: Principal)
    requires k in m0 && m1 == m0[k := m0[k].(roots := roots)] && m2 == m1[k := WithUser(m1[k], user)]
    ensures m2 == m0[k := SetUp(m0[k], roots, user)]
    ensures LinksOf(m2) == LinksOf(m0)
  {
    SameLinks(m0, k, SetUp(m0[k], roots, user));
  }

  class FileListener {
    const publicDir: string
    const protectedDir: string
    const publicUrl: string
    /** The `Nette\Security\User` service the container holds. */
    const service: Principal
    /** The service once it has been looked up. */
    var user: Option<Principal>
    ghost var fetches: nat

    /** The service is looked up at most once, and what is cached is that service. */
    ghost predicate Valid()
      reads this
    {
      && fetches <= 1
      && (fetches == 0 <==> user.None?)
      && (user.Some? ==> user.value == service)
    }

    constructor (publicDir: string, protectedDir: string, wwwDir: string, basePath: string, service: Principal)
      ensures Valid() && user.None? && fetches == 0
      ensures this.publicDir == publicDir && this.protectedDir == protectedDir && this.service == service
      ensures this.publicUrl == PublicUrl(basePath, publicDir, wwwDir)
    {
      this.publicDir := publicDir;
      this.protectedDir := protectedDir;
      this.publicUrl := basePath + Php.Substr(publicDir, |wwwDir|);
      this.service := service;
      user := None;
      fetches := 0;
    }

    function Roots(): Roots
      reads this
    {
      Nodes.Roots(publicDir, protectedDir, publicUrl)
    }

    /** `getUser`: the container is asked only when nothing is cached. */
    method GetUser() returns (u: Principal)
      requires Valid()
      modifies this`user, this`fetches
      ensures Valid() && u == service && user == Some(service)
      ensures fetches == if old(user).None? then old(fetches) + 1 else old(fetches)
    {
      if user.None? {
        user := Some(service);
        fetches := fetches + 1;
      }
      u := user.value;
    }

    /** `setup`: the roots, then the user. */
    method Setup(st: Store, k: Key)
      requires Valid() && st.Valid() && k in st.nodes
      modifies st`nodes, this`user, this`fetches
      ensures Valid() && st.Valid() && user == Some(service)
      ensures st.nodes == old(st.nodes)[k := SetUp(old(st.nodes[k]), Roots(), service)]
      ensures LinksOf(st.nodes) == LinksOf(old(st.nodes))
    {
      ghost var m0 := st.nodes;
      st.SetRoots(k, Roots());
      ghost var m1 := st.nodes;
      var u := GetUser();
      st.SetUser(k, u);
      SetUpSteps(m0, m1, st.nodes, k, Roots(), u);
    }

    method PrePersist(st: Store, k: Key)
      requires Valid() && st.Valid() && k in st.nodes
      modifies st`nodes, this`user, this`fetches
      ensures Valid() && st.Valid() && user == Some(service)
      ensures st.nodes == old(st.nodes)[k := SetUp(old(st.nodes[k]), Roots(), service)]
    {
      Setup(st, k);
    }

    method PreFlush(st: Store, k: Key)
      requires Valid() && st.Valid() && k in st.nodes
      modifies st`nodes, this`user, this`fetches
      ensures Valid() && st.Valid() && user == Some(service)
      ensures st.nodes == old(st.nodes)[k := SetUp(old(st.nodes[k]), Roots(), service)]
    {
      Setup(st, k);
    }

    method PostLoad(st: Store, k: Key)
      requires Valid() && st.Valid() && k in st.nodes
      modifies st`nodes, this`user, this`fetches
      ensures Valid() && st.Valid() && user == Some(service)
      ensures st.nodes == old(st.nodes)[k := SetUp(old(st.nodes[k]), Roots(), service)]
    {
      Setup(st, k);
    }
  }
}
