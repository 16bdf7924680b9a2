/**
 * `MediaMacro`: the URLs the `{file}` and `{img}` template macros print
 * (before the base path), and the two routes that take such a URL back to
 * `FilePresenter` — `public/media/_cache/<size>/<format>/<type>/<url .+>` for
 * its image action and `public/media/<url .+>` for its default action.
 */
module Media {
  import Php
  import opened Wrappers
  import opened Errors

  /** `MediaMacro::$imageExtensions`: the only extensions and types an image may have. */
  const ImageExtensions: seq<string> := ["jpeg", "png", "gif"]

  /** Where the public media tree is served. */
  const MediaRoot: string := "/public/media/"

  /** Where resized copies are served. */
  const CacheRoot: string := "/public/media/_cache/"

  /** `proccessFile($path)`: the URL of a stored file. */
  function ProcessFile(path: string): (url: string)
    ensures Php.StartsWith(url, MediaRoot) && url[|MediaRoot|..] == path
  {
    MediaRoot + path
  }

  /** An `{img}` argument, `"default"` when it is not given. */
  function Arg(args: map<string, string>, name: string): string {
    if name in args then args[name] else "default"
  }

  /** The image's extension as checked: lower-cased, with every "jpg" turned into "jpeg". */
  function NormalExtension(path: string): string {
    Php.ReplaceAll(Php.Lower(Php.Extension(path)), "jpg", "jpeg")
  }

  /** The macro compiles: the extension is an image extension and an explicit type is one too. */
  predicate Accepted(path: string, args: map<string, string>) {
    var type_ := Arg(args, "type");
    NormalExtension(path) in ImageExtensions && (type_ == "default" || type_ in ImageExtensions)
  }

  /** The original file serves the request: no resizing, no new format, no change of type. */
  predicate FastPath(path: string, args: map<string, string>) {
    var type_ := Arg(args, "type");
    Arg(args, "format") == "default" && (type_ == "default" || type_ == NormalExtension(path)) && Arg(args, "size") == "default"
  }

  /** The URL of a resized copy. */
  function CachedUrl(size: string, format: string, type_: string, path: string): string {
    CacheRoot + size + "/" + format + "/" + type_ + "/" + path
  }

  /**
   * `proccessImage($path, $args)`: a `CompileException` for a file or a
   * requested type outside the whitelist, else the URL of the original file
   * on the fast path and of a cached copy otherwise.
   */
  function ProcessImage(path: string, args: map<string, string>): (r: Result<string, Error>)
    ensures r.Err? <==> !Accepted(path, args)
    ensures r.Err? ==> r.error == BadExtension(path)
    ensures r.Ok? ==> Php.StartsWith(r.value, MediaRoot)
    ensures r.Ok? && FastPath(path, args) ==> r.value == ProcessFile(path)
    ensures "type" in args && args["type"] == "jpg" ==> r.Err?
  {
    var size := Arg(args, "size");
    var format := Arg(args, "format");
    var type_ := Arg(args, "type");
    var ext := NormalExtension(path);
    if !(ext in ImageExtensions) || (type_ != "default" && !(type_ in ImageExtensions)) then
      Err(BadExtension(path))
    else if format == "default" && (type_ == "default" || type_ == ext) && size == "default" then
      Ok(MediaRoot + path)
    else
      Ok(CachedUrl(size, format, type_, path))
  }

  /** A file named with an upper-case `.JPG` is a JPEG image. */
  lemma UpperCaseJpgIsJpeg(stem: string)
    requires '/' !in stem
    ensures NormalExtension(stem + ".JPG") == "jpeg"
  {
    Php.PathInfoOfJoined(stem, "JPG");
    assert stem + "." + "JPG" == stem + ".JPG";
    LowerJpg();
    ReplaceJpg();
  }

  lemma LowerJpg()
    ensures Php.Lower("JPG") == "jpg"
  {
    assert Php.Lower("JPG")[0] == 'j' && Php.Lower("JPG")[1] == 'p' && Php.Lower("JPG")[2] == 'g';
  }

  lemma ReplaceJpg()
    ensures Php.ReplaceAll("jpg", "jpg", "jpeg") == "jpeg"
  {
    assert Php.ReplaceAll("jpg", "jpg", "jpeg") == "jpeg" + Php.ReplaceAll("", "jpg", "jpeg");
  }

  /** On default arguments, such an image is linked directly. */
  lemma UpperCaseJpgLinkedDirectly(stem: string)
    requires '/' !in stem
    ensures ProcessImage(stem + ".JPG", map[]) == Ok(ProcessFile(stem + ".JPG"))
  {
    var p := stem + ".JPG";
    UpperCaseJpgIsJpeg(stem);
    assert Accepted(p, map[]) by {
      assert "jpeg" in ImageExtensions;
    }
    assert FastPath(p, map[]);
  }

  /** What the router hands to `FilePresenter`. */
  datatype Request =
    | ImageAction(size: string, format: string, type_: string, url: string)
    | DefaultAction(url: string)

  /** A route parameter without a pattern of its own: one or more characters other than '/'. */
  predicate Segment(s: string) {
    s != "" && '/' !in s
  }

  /** The first route parameter of `s` and what follows the '/' after it. */
  function SplitSegment(s: string): Option<(string, string)> {
    var i := Php.IndexOf(s, '/');
    if i <= 0 then None else Some((s[..i], s[i + 1..]))
  }

  /** The image route: three segments, then a non-empty URL. */
  function CacheRoute(u: string): Option<Request> {
    if !Php.StartsWith(u, CacheRoot) then None
    else match SplitSegment(u[|CacheRoot|..])
      case None => None
      case Some((size, r1)) =>
        match SplitSegment(r1)
        case None => None
        case Some((format, r2)) =>
          match SplitSegment(r2)
          case None => None
          case Some((type_, url)) => if url == "" then None else Some(ImageAction(size, format, type_, url))
  }

  /** The two routes, the image route first. */
  function Route(u: string): Option<Request> {
    if CacheRoute(u).Some? then CacheRoute(u)
    else if Php.StartsWith(u, MediaRoot) && |u| > |MediaRoot| then Some(DefaultAction(u[|MediaRoot|..]))
    else None
  }

  lemma SplitSegmentOf(s: string, t: string)
    requires Segment(s)
    ensures SplitSegment(s + "/" + t) == Some((s, t))
  {
    var u := s + "/" + t;
    assert u[|s|] == '/';
    assert forall j :: 0 <= j < |s| ==> u[j] == s[j];
    assert Php.IndexOf(u, '/') == |s|;
    assert u[..|s|] == s && u[|s| + 1..] == t;
  }

  /** A resized copy's URL is routed to the image action with its own parameters. */
  lemma CachedUrlRoutes(size: string, format: string, type_: string, path: string)
    requires Segment(size) && Segment(format) && Segment(type_) && path != ""
    ensures Route(CachedUrl(size, format, type_, path)) == Some(ImageAction(size, format, type_, path))
  {
    var u := CachedUrl(size, format, type_, path);
    var r2 := type_ + "/" + path;
    var r1 := format + "/" + r2;
    assert u == CacheRoot + (size + "/" + r1);
    assert u[|CacheRoot|..] == size + "/" + r1;
    SplitSegmentOf(size, r1);
    SplitSegmentOf(format, r2);
    SplitSegmentOf(type_, path);
  }

  /** A stored file's URL is routed to the default action, unless the path itself lies below `_cache/`. */
  lemma FileUrlRoutes(path: string)
    requires path != "" && !Php.StartsWith(path, "_cache/")
    ensures Route(ProcessFile(path)) == Some(DefaultAction(path))
  {
    var u := ProcessFile(path);
    assert !Php.StartsWith(u, CacheRoot) by {
      if |u| >= |CacheRoot| {
        assert u[..|CacheRoot|] == MediaRoot + path[..7];
      }
    }
  }

  /**
   * Every URL the macro prints is routed back to the presenter with the
   * macro's own parameters: a fast-path URL to the default action, any other
   * to the image action, as long as the parameters are route segments and the
   * path is not itself below `_cache/`.
   */
  lemma MacroUrlRoutesBack(path: string, args: map<string, string>)
    requires ProcessImage(path, args).Ok? && path != ""
    requires Segment(Arg(args, "size")) && Segment(Arg(args, "format")) && Segment(Arg(args, "type"))
    requires !Php.StartsWith(path, "_cache/")
    ensures Route(ProcessImage(path, args).value) ==
      Some(if FastPath(path, args) then DefaultAction(path)
           else ImageAction(Arg(args, "size"), Arg(args, "format"), Arg(args, "type"), path))
  {
    if FastPath(path, args) {
      FileUrlRoutes(path);
    } else {
      CachedUrlRoutes(Arg(args, "size"), Arg(args, "format"), Arg(args, "type"), path);
    }
  }
}
