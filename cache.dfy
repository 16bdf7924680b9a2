/**
 * The thumbnail cache under `<publicDir>/_cache`: resized copies of an image
 * lie at `_cache/<size>/<format>/<type>/<path>`, and removing a file purges
 * every cached copy whose last path segment is the file's name (a Finder
 * search from the cache directory for three wildcard segments, then the name).
 */
module Cache {
  import Php
  import opened Wrappers
  import opened Errors
  import opened Nodes
  import opened Forest
  import opened Storage
  import opened Entities

  /** The cache directory below a public directory. */
  function CacheDir(publicDir: string): string {
    publicDir + "/_cache"
  }

  /**
   * The Finder mask of three wildcard segments and the name matches `q` below `dir`: the path
   * relative to `dir` has at least four '/'-separated segments and the last
   * one is `name` (the mask is not anchored at the start).
   */
  predicate CacheMatch(q: string, dir: string, name: string) {
    Below(q, dir) &&
    var segments := Php.Split(q[|dir| + 1..], '/');
    |segments| >= 4 && segments[|segments| - 1] == name
  }

  /** The files the Finder lists. */
  function Matches(t: Tree, dir: string, name: string): set<string> {
    set q | q in t && t[q] == IsFile && CacheMatch(q, dir, name)
  }

  /**
   * The disk after every listed file was unlinked: the matches are gone
   * unless locked, and nothing else changed.
   */
  function Purged(t: Tree, locked: set<string>, dir: string, name: string): Tree {
    t - (Matches(t, dir, name) - locked)
  }

  /**
   * A purge only deletes, never outside the cache directory and never a
   * directory, and leaves no unlocked match behind.
   */
  lemma PurgedConfined(t: Tree, locked: set<string>, dir: string, name: string)
    ensures var r := Purged(t, locked, dir, name);
      && r.Keys <= t.Keys && (forall q :: q in r ==> r[q] == t[q])
      && (forall q :: q in t && !Below(q, dir) ==> q in r)
      && (forall q :: q in t && t[q] == IsDir ==> q in r)
      && (forall q :: q in r && IsFileAt(r, q) && CacheMatch(q, dir, name) ==> q in locked)
  {
  }

  /** Purging twice is purging once. */
  lemma PurgeIdempotent(t: Tree, locked: set<string>, dir: string, name: string)
    ensures Purged(Purged(t, locked, dir, name), locked, dir, name) == Purged(t, locked, dir, name)
  {
    var r := Purged(t, locked, dir, name);
    assert Matches(r, dir, name) - locked == {};
  }

  /** Only a path at least four levels below the cache directory is ever purged. */
  lemma PurgedAreDeep(t: Tree, locked: set<string>, dir: string, name: string, q: string)
    requires q in t && q !in Purged(t, locked, dir, name)
    ensures Below(q, dir) && |Php.Split(q[|dir| + 1..], '/')| >= 4
  {
  }

  /**
   * The Finder loop: every listed file is unlinked, each `unlink` silently
   * leaving a locked file in place.
   */
  method Purge(dk: Disk, dir: string, name: string)
    modifies dk
    ensures dk.entries == Purged(old(dk.entries), dk.locked, dir, name)
  {
    ghost var t0 := dk.entries;
    var todo := Matches(dk.entries, dir, name);
    ghost var all := todo;
    while todo != {}
      invariant todo <= all
      invariant dk.entries == t0 - ((all - todo) - dk.locked)
      decreases |todo|
    {
      var q :| q in todo;
      UnlinkOne(t0, dk.locked, all, todo, q);
      dk.Unlink(q);
      todo := todo - {q};
    }
  }

  lemma UnlinkOne(t0: Tree, locked: set<string>, all: set<string>, todo: set<string>, q: string)
    requires q in todo && todo <= all && all <= t0.Keys && forall x :: x in all ==> t0[x] == IsFile
    ensures Unlinked(t0 - ((all - todo) - locked), locked, q) == t0 - ((all - (todo - {q})) - locked)
  {
    var done := all - todo;
    var t := t0 - (done - locked);
    assert all - (todo - {q}) == done + {q};
    assert IsFileAt(t, q);
    if q in locked {
      assert (done + {q}) - locked == done - locked;
    } else {
      assert (done + {q}) - locked == (done - locked) + {q};
      assert t - {q} == t0 - ((done - locked) + {q});
    }
  }

  /**
   * `CacheCleanerListener::preRemove` for a `File`: when the listener's cache
   * directory is a directory, the file's name (behind its read check) selects
   * the cached copies to unlink.
   */
  method CleanCache(st: Store, dk: Disk, publicDir: string, k: Key) returns (r: Outcome<Error>)
    requires st.Valid() && k in st.nodes
    modifies st`nodes, dk
    ensures st.Valid()
    ensures var dir := CacheDir(publicDir);
      && (!IsDirAt(old(dk.entries), dir) ==> r == Pass && st.nodes == old(st.nodes) && dk.entries == old(dk.entries))
      && (IsDirAt(old(dk.entries), dir) ==>
            st.nodes == old(st.nodes)[k := old(st.nodes[k]).(readCache := Some(ReadAllowed(old(st.nodes[k]))))])
      && (IsDirAt(old(dk.entries), dir) && !ReadAllowed(old(st.nodes[k])) ==>
            r == Fail(PermissionDenied) && dk.entries == old(dk.entries))
      && (IsDirAt(old(dk.entries), dir) && ReadAllowed(old(st.nodes[k])) ==>
            r == Pass && dk.entries == Purged(old(dk.entries), dk.locked, dir, old(st.nodes[k]).name))
  {
    var dir := CacheDir(publicDir);
    if !IsDirAt(dk.entries, dir) {
      return Pass;
    }
    var got := st.Get(k);
    if got.Err? {
      return Fail(got.error);
    }
    Purge(dk, dir, got.value.name);
    r := Pass;
  }
}
