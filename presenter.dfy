/**
 * `FilePresenter`: serves a stored file (`actionDefault`) and a resized copy
 * of an image (`actionImage`). The image work itself — loading, resizing,
 * saving and sending — is described by the `ImageJob` the action returns.
 */
module Presenter {
  import Php
  import opened Wrappers
  import opened Errors
  import opened Nodes
  import opened Entities
  import FileSync
  import Cache
  import Storage
  import Media

  /** The `Image` type constants the presenter chooses between. */
  datatype ImageType = Jpeg | Png | Gif

  /** The resize flag: `Image::FIT`, or the flag the route's format names. */
  datatype Mode = Fit | Flag(format: string)

  /** `$image->resize($width, $height, $mode)`, a `null` dimension letting the other decide. */
  datatype Resize = Resize(width: Option<string>, height: Option<string>, mode: Mode)

  /** What the image action does: the file it loads, the resize, the type it saves and sends, and where it saves the copy. */
  datatype ImageJob = ImageJob(source: string, resize: Option<Resize>, kind: ImageType, target: string)

  /** `FilePresenter::DIRECTORY_CACHE`. */
  const CacheDirectory: string := "_cache"

  /** The URL with a leading `_cache/` removed. */
  function Stripped(url: string): (r: string)
    ensures Php.StartsWith(url, "_cache/") ==> url == "_cache/" + r
    ensures !Php.StartsWith(url, "_cache/") ==> r == url
  {
    if Php.Prefix(url, 7) == CacheDirectory + "/" then Php.Substr(url, 7) else url
  }

  /** One side of a `<width>x<height>` size; `?` leaves it open. */
  function Dimension(s: string): Option<string> {
    if s != "?" then Some(s) else None
  }

  /**
   * The resize a size and format ask for: only a size that is set, not
   * `default` and contains an `x` resizes; the parts before and after the
   * first `x` are width and height, and format `default` means `Image::FIT`.
   */
  function ResizeOf(size: string, format: string): (r: Option<Resize>)
    ensures r.Some? <==> Php.Truthy(size) && size != "default" && 'x' in size
    ensures r.Some? ==> r.value.mode == (if format != "default" then Flag(format) else Fit)
  {
    if Php.Truthy(size) && size != "default" && 'x' in size then
      var parts := Php.Split(size, 'x');
      Php.SplitAtSeparator(size, 'x');
      Some(Resize(Dimension(parts[0]), Dimension(parts[1]), if format != "default" then Flag(format) else Fit))
    else None
  }

  /** A `<width>x<height>` size is read back as its two sides. */
  lemma ResizeOfDimensions(w: string, h: string, format: string)
    requires 'x' !in w && 'x' !in h
    ensures ResizeOf(w + "x" + h, format) ==
      Some(Resize(Dimension(w), Dimension(h), if format != "default" then Flag(format) else Fit))
  {
    var s := w + "x" + h;
    assert s[|w|] == 'x';
    Php.SplitCons(w, 'x', h);
    assert Php.IndexOf(h, 'x') < 0;
    assert Php.Split(h, 'x') == [h];
  }

  /** `100x?` resizes to a width of 100 and an open height, fitting the image. */
  lemma ResizeOfOpenHeight()
    ensures ResizeOf("100x?", "default") == Some(Resize(Some("100"), None, Fit))
  {
    ResizeOfDimensions("100", "?", "default");
    assert "100" + "x" + "?" == "100x?";
  }

  /** The type taken from the entity's name: the name from its last dot on, dot included (the whole name when there is none). */
  function DerivedType(name: string): (t: string)
    ensures '.' !in name ==> t == name
    ensures '.' in name ==> |t| >= 1 && t[0] == '.' && '.' !in t[1..]
  {
    var i := Php.LastIndexOf(name, '.');
    var t := Php.Substr(name, if i < 0 then 0 else i);
    assert i >= 0 ==> forall j :: 1 <= j < |t| ==> t[j] == name[i + j];
    t
  }

  /**
   * The type choice as PHP parses the unparenthesised ternary
   * `$t === 'jpg' ? JPEG : $t === 'gif' ? GIF : PNG`: left-associative, so
   * the truthy constant `JPEG` picked for "jpg" becomes the condition of the
   * outer ternary, which then yields `GIF`. JPEG is never chosen.
   */
  function ImageKindAsWritten(t: string): (k: ImageType)
    ensures k != Jpeg
  {
    if (if t == "jpg" then true else t == "gif") then Gif else Png
  }

  /** A copy requested as "jpg" is saved and sent as a GIF. */
  lemma JpgSavedAsGif()
    ensures ImageKindAsWritten("jpg") == Gif
  {
  }

  /** The type choice as intended: "jpg" is JPEG, "gif" is GIF, anything else PNG. */
  function ImageKind(t: string): (k: ImageType)
    ensures k == Jpeg <==> t == "jpg"
    ensures k == Gif <==> t == "gif"
  {
    if t == "jpg" then Jpeg else if t == "gif" then Gif else Png
  }

  /** A type taken from a dotted name keeps its dot, so it names neither JPEG nor GIF. */
  lemma DerivedTypeIsPng(name: string)
    requires '.' in name
    ensures ImageKind(DerivedType(name)) == Png
  {
    var t := DerivedType(name);
    assert t != "jpg" && t != "gif" by {
      assert t[0] == '.';
    }
  }

  /** Where the copy is saved: `<cacheDir>/_cache/<size>/<format>/<type>/<path>`. */
  function CacheTarget(cacheDir: string, size: string, format: string, type_: string, path: string): string {
    cacheDir + "/" + CacheDirectory + "/" + size + "/" + format + "/" + type_ + "/" + path
  }

  /**
   * The copies the image action saves are the ones the cache cleaner purges
   * for the entity, for an entity whose webalized name is its name: the
   * saved path lies below the cache directory, at least four segments deep,
   * and ends in the name.
   */
  lemma CachedCopyIsPurged(cacheDir: string, size: string, format: string, type_: string,
                           parentPath: Option<string>, name: string, webalize: string -> string)
    requires Media.Segment(size) && Media.Segment(format) && Media.Segment(type_)
    requires webalize(name) == name && '/' !in name
    ensures var path := PathUnder(parentPath, name, webalize);
      Cache.CacheMatch(CacheTarget(cacheDir, size, format, type_, path), Cache.CacheDir(cacheDir), name)
  {
    var path := PathUnder(parentPath, name, webalize);
    TargetBelowCache(cacheDir, size, format, type_, path);
    RelativeSegments(size, format, type_, path);
    PathEndsInName(parentPath, name, webalize);
  }

  /** The copy's path is the cache directory, a slash, then the three parameters and the entity's path. */
  lemma TargetBelowCache(cacheDir: string, size: string, format: string, type_: string, path: string)
    ensures var dir := Cache.CacheDir(cacheDir);
      var q := CacheTarget(cacheDir, size, format, type_, path);
      Storage.Below(q, dir) && q[|dir| + 1..] == size + "/" + (format + "/" + (type_ + "/" + path))
  {
    var dir := Cache.CacheDir(cacheDir);
    var rel := size + "/" + (format + "/" + (type_ + "/" + path));
    assert CacheTarget(cacheDir, size, format, type_, path) == dir + "/" + rel;
    SlashJoined(dir, rel);
  }

  lemma SlashJoined(dir: string, rel: string)
    ensures Storage.Below(dir + "/" + rel, dir) && (dir + "/" + rel)[|dir| + 1..] == rel
  {
    assert (dir + "/" + rel)[..|dir + "/"|] == dir + "/";
  }

  /** The copy's path below the cache directory explodes into the three parameters, then the entity's path. */
  lemma RelativeSegments(size: string, format: string, type_: string, path: string)
    requires Media.Segment(size) && Media.Segment(format) && Media.Segment(type_)
    ensures Php.Split(size + "/" + (format + "/" + (type_ + "/" + path)), '/') == [size, format, type_] + Php.Split(path, '/')
  {
    Php.SplitCons(size, '/', format + "/" + (type_ + "/" + path));
    Php.SplitCons(format, '/', type_ + "/" + path);
    Php.SplitCons(type_, '/', path);
  }

  /** A generated path whose last part is a slash-free name explodes into parts ending in that name. */
  lemma PathEndsInName(parentPath: Option<string>, name: string, webalize: string -> string)
    requires webalize(name) == name && '/' !in name
    ensures var parts := Php.Split(PathUnder(parentPath, name, webalize), '/'); parts[|parts| - 1] == name
  {
    var path := PathUnder(parentPath, name, webalize);
    if parentPath.Some? {
      assert path == parentPath.value + "/" + name;
      Php.SplitSnoc(parentPath.value, '/', name);
    } else {
      assert path == name;
      assert Php.IndexOf(name, '/') < 0;
    }
  }

  /** A read check already answered leaves the entities as they are. */
  lemma CheckedAgain(m: map<Key, Node>, k: Key)
    requires k in m && m[k].readCache.Some?
    ensures m[k := m[k].(readCache := Some(ReadAllowed(m[k])))] == m
  {
    assert m[k].(readCache := Some(ReadAllowed(m[k]))) == m[k];
  }

  /**
   * The repository's `findOneBy(['path' => ...])` over files: every path it
   * knows leads to a file stored at that path. A path missing from `byPath`
   * only means that the lookup returned `null`; whether every stored file is
   * listed is the database's business, which the model does not follow.
   */
  ghost predicate Indexed(m: map<Key, Node>, byPath: map<string, Key>) {
    forall p :: p in byPath ==> byPath[p] in m && byPath[p].F? && m[byPath[p]].path == p
  }

  class FilePresenter {
    var size: string
    var format: string
    var type_: string
    var url: string
    var cached: bool
    const cacheDir: string

    /** The constructor and `startup`: the route's parameters, a missing one read as "". */
    constructor (cacheDir: string, size: string, format: string, type_: string, url: string)
      ensures this.cacheDir == cacheDir && this.size == size && this.format == format
      ensures this.type_ == type_ && this.url == url && !cached
    {
      this.cacheDir := cacheDir;
      this.size := size;
      this.format := format;
      this.type_ := type_;
      this.url := url;
      cached := false;
    }

    /**
     * `actionDefault`: an unknown path is a bad request; a file the user may
     * not read is forbidden; otherwise its content is sent from its file path.
     */
    method ActionDefault(st: Store, byPath: map<string, Key>) returns (r: Result<string, Error>)
      requires st.Valid() && Indexed(st.nodes, byPath)
      modifies st`nodes
      ensures st.Valid()
      ensures url !in byPath ==> r == Err(BadRequest) && st.nodes == old(st.nodes)
      ensures url in byPath ==>
        var e := old(st.nodes[byPath[url]]);
        && st.nodes == old(st.nodes)[byPath[url] := e.(readCache := Some(ReadAllowed(e)))]
        && r == if ReadAllowed(e) then Ok(FileSync.FilePath(e)) else Err(ForbiddenRequest)
    {
      if url !in byPath {
        return Err(BadRequest);
      }
      var got := FileSync.GetFilePath(st, byPath[url], false);
      if got.Err? {
        return Err(ForbiddenRequest);
      }
      r := Ok(got.value);
    }

    /**
     * `actionImage`: a `_cache/` prefix is stripped and remembered; an
     * unknown path is a bad request; the file path, name and path are read
     * behind the read check, whose refusal escapes; a missing type is taken
     * from the name.
     */
    method ActionImage(st: Store, byPath: map<string, Key>) returns (r: Result<ImageJob, Error>)
      requires st.Valid() && Indexed(st.nodes, byPath)
      modifies this, st`nodes
      ensures st.Valid()
      ensures url == Stripped(old(url)) && cached == (old(cached) || Php.StartsWith(old(url), "_cache/"))
      ensures size == old(size) && format == old(format)
      ensures url !in byPath ==> r == Err(BadRequest) && st.nodes == old(st.nodes) && type_ == old(type_)
      ensures url in byPath ==>
        var k := byPath[url];
        var e := old(st.nodes[k]);
        && st.nodes == old(st.nodes)[k := e.(readCache := Some(ReadAllowed(e)))]
        && (!ReadAllowed(e) ==> r == Err(PermissionDenied) && type_ == old(type_))
        && (ReadAllowed(e) ==>
              && type_ == (if Php.Truthy(old(type_)) then old(type_) else DerivedType(e.name))
              && r == Ok(ImageJob(FileSync.FilePath(e), ResizeOf(size, format), ImageKind(type_),
                                  CacheTarget(cacheDir, size, format, type_, e.path))))
    {
      if Php.Prefix(url, 7) == CacheDirectory + "/" {
        cached := true;
        url := Php.Substr(url, 7);
      }
      if url !in byPath {
        return Err(BadRequest);
      }
      var job, t := ImageOf(st, byPath[url], size, format, type_, cacheDir);
      r := job;
      type_ := t;
    }
  }

  /** The part of `actionImage` after the lookup: reading the entity and describing the job. */
  method ImageOf(st: Store, k: Key, size: string, format: string, type0: string, cacheDir: string)
    returns (r: Result<ImageJob, Error>, type_: string)
    requires st.Valid() && k in st.nodes
    modifies st`nodes
    ensures st.Valid()
    ensures var e := old(st.nodes[k]);
      && st.nodes == old(st.nodes)[k := e.(readCache := Some(ReadAllowed(e)))]
      && (!ReadAllowed(e) ==> r == Err(PermissionDenied) && type_ == type0)
      && (ReadAllowed(e) ==>
            && type_ == (if Php.Truthy(type0) then type0 else DerivedType(e.name))
            && r == Ok(ImageJob(FileSync.FilePath(e), ResizeOf(size, format), ImageKind(type_),
                                CacheTarget(cacheDir, size, format, type_, e.path))))
  {
    type_ := type0;
    ghost var e := st.nodes[k];
    var source := FileSync.GetFilePath(st, k, false);
    if source.Err? {
      return Err(source.error), type_;
    }
    ghost var m1 := st.nodes;
    assert m1[k].readCache == Some(true);
    var resize := ResizeOf(size, format);
    if !Php.Truthy(type_) {
      var named := st.Get(k);
      CheckedAgain(m1, k);
      type_ := DerivedType(named.value.name);
    }
    var kind := ImageKind(type_);
    var stored := st.Get(k);
    CheckedAgain(m1, k);
    r := Ok(ImageJob(source.value, resize, kind, CacheTarget(cacheDir, size, format, type_, stored.value.path)));
  }
}
