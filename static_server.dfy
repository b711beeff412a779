/**
 * The static file server's request handling: the request path defaults to
 * index.html, a file path that does not start with the root is refused (a
 * string-prefix test, so a sibling directory such as dist2/ of the root
 * dist passes it), route paths of a single-page application fall back to index.html, directories serve their
 * index.html, and the Cache-Control header keeps index.html uncached.
 *
 * The file system and the MIME table are parameters: what os.Stat reports
 * for a path, what os.ReadFile returns, and mime.TypeByExtension.
 */
module StaticServer {
  import opened Wrappers
  import opened GoStrings
  import opened GoPath
  import Sequences

  /** What os.Stat reports: no such file, another error, a file or a directory. */
  datatype FileInfo = Missing | StatFailed | RegularFile | Directory

  datatype Disk = Disk(stat: string -> FileInfo, readFile: string -> Option<seq<bv8>>, mimeType: string -> string)

  /** A served file with its Content-Type and Cache-Control, or an error status with its fixed text. */
  datatype Response = Served(contentType: string, cacheControl: string, data: seq<bv8>) | Failed(status: int)

  predicate StatOk(info: FileInfo) {
    info.RegularFile? || info.Directory?
  }

  const StaticExtensions: seq<string> :=
    [".js", ".css", ".png", ".jpg", ".jpeg", ".gif", ".svg", ".ico", ".woff", ".woff2", ".ttf", ".eot"]

  /**
   * shouldFallbackToIndex: a path falls back exactly when its lower-cased
   * extension is not a static one and it is not under "assets/".
   */
  function ShouldFallbackToIndex(path: string): (r: bool)
    ensures r <==> Lower(Ext(path)) !in StaticExtensions && !HasPrefix(path, "assets/")
  {
    if Sequences.Listed(Lower(Ext(path)), StaticExtensions) then false
    else if HasPrefix(path, "assets/") then false
    else true
  }

  /** Route paths without any '.' fall back, wherever they are outside "assets/". */
  lemma RoutesFallBack(path: string)
    requires '.' !in path && !HasPrefix(path, "assets/")
    ensures ShouldFallbackToIndex(path)
  {
    ExtWithoutDot(path);
    assert Lower("") == "";
    NoEmptyStaticExtension();
  }

  lemma NoEmptyStaticExtension()
    ensures "" !in StaticExtensions
  {
    forall k | 0 <= k < |StaticExtensions| ensures StaticExtensions[k] != "" {
      assert StaticExtensions[k][0] == '.';
    }
  }

  /** A file name with a static extension never falls back, whatever the case of the extension. */
  lemma AssetFilesDoNotFallBack(base: string, e: string)
    requires e != [] && e[0] == '.' && '/' !in e && '.' !in e[1..]
    requires Lower(e) in StaticExtensions
    ensures !ShouldFallbackToIndex(base + e)
  {
    ExtOfDottedSuffix(base, e);
  }

  /** Nothing under "assets/" falls back; the test is case-sensitive, so "Assets/" is not covered. */
  lemma AssetsDoNotFallBack(rest: string)
    ensures !ShouldFallbackToIndex("assets/" + rest)
    ensures ShouldFallbackToIndex("Assets/home")
  {
    assert HasPrefix("assets/" + rest, "assets/");
    assert "Assets/home"[0] != "assets/"[0];
    RoutesFallBack("Assets/home");
  }

  /** The request path without its one leading '/', and "index.html" when nothing is left. */
  function RequestPath(urlPath: string): (path: string)
    ensures path != ""
    ensures TrimPrefix(urlPath, "/") == "" ==> path == "index.html"
    ensures TrimPrefix(urlPath, "/") != "" ==> path == TrimPrefix(urlPath, "/")
  {
    var path := TrimPrefix(urlPath, "/");
    if path == "" then "index.html" else path
  }

  /** Only one leading separator is removed: "/" and "" ask for index.html, "//x" for "/x". */
  lemma RequestPathCases(rest: string)
    ensures RequestPath("") == "index.html" && RequestPath("/") == "index.html"
    ensures rest != "" ==> RequestPath("/" + rest) == rest
    ensures rest != "" && rest[0] != '/' ==> RequestPath(rest) == rest
  {
    assert HasPrefix("/" + rest, "/");
  }

  /** The Cache-Control value: no caching for anything whose path mentions index.html. */
  function CacheControl(filePath: string): (r: string)
    ensures r == "no-cache" <==> Contains(filePath, "index.html")
    ensures r == "no-cache" || r == "public, max-age=3600"
  {
    if Contains(filePath, "index.html") then "no-cache" else "public, max-age=3600"
  }

  /** The Content-Type: the MIME type of the extension, application/octet-stream when there is none. */
  function ContentTypeOf(disk: Disk, filePath: string): (r: string)
    ensures r != ""
    ensures disk.mimeType(Ext(filePath)) != "" ==> r == disk.mimeType(Ext(filePath))
  {
    var m := disk.mimeType(Ext(filePath));
    if m == "" then "application/octet-stream" else m
  }

  /** Reading the file and answering with it, or 500 when it cannot be read. */
  function ReadAndServe(disk: Disk, filePath: string): (r: Response)
    ensures r.Served? ==> r.contentType != "" && (r.cacheControl == "no-cache" || r.cacheControl == "public, max-age=3600")
    ensures r.Failed? ==> r.status == 500
  {
    match disk.readFile(filePath)
    case None => Failed(500)
    case Some(data) => Served(ContentTypeOf(disk, filePath), CacheControl(filePath), data)
  }

  /**
   * The path check: the cleaned file path must start with the cleaned root.
   * It compares strings, not path elements, so "dist2/x" passes for the root
   * "dist".
   */
  predicate InsideRoot(root: string, path: string) {
    HasPrefix(Clean(Join(root, path)), Clean(root))
  }

  /**
   * The paths a request involves: the request path, the file path under the
   * root, index.html under the root, index.html under the file path, and
   * whether the prefix check of the file path against the root passes.
   */
  datatype Paths = Paths(path: string, filePath: string, rootIndex: string, dirIndex: string, inside: bool)

  function PathsOf(root: string, urlPath: string): (p: Paths)
    ensures p.path == RequestPath(urlPath)
  {
    var path := RequestPath(urlPath);
    var filePath := Join(root, path);
    Paths(path, filePath, Join(root, "index.html"), Join(filePath, "index.html"), InsideRoot(root, path))
  }

  /**
   * The answer as serveStaticFileUnified computes it: when a route path is
   * missing and index.html exists, the fallback selects index.html but the
   * handler goes on to the generic stat-error answer, 500. So 403 comes
   * exactly from the path check, and a missing file is never served.
   */
  function AnswerAsWritten(disk: Disk, p: Paths): (r: Response)
    ensures r == Failed(403) <==> !p.inside
    ensures p.inside && disk.stat(p.filePath) == Missing ==> r.Failed?
    ensures r.Served? ==> r.contentType != "" && (r.cacheControl == "no-cache" || r.cacheControl == "public, max-age=3600")
  {
    if !p.inside then Failed(403)
    else match disk.stat(p.filePath)
      case Missing =>
        if ShouldFallbackToIndex(p.path) && StatOk(disk.stat(p.rootIndex)) then Failed(500)
        else Failed(404)
      case StatFailed => Failed(500)
      case RegularFile => ReadAndServe(disk, p.filePath)
      case Directory =>
        if StatOk(disk.stat(p.dirIndex)) then ReadAndServe(disk, p.dirIndex) else Failed(404)
  }

  /**
   * The answer as the handler's comments describe it: a missing route path
   * is answered with index.html. 403 comes exactly from the path check, and
   * a served file has a content type and one of the two cache values.
   */
  function Answer(disk: Disk, p: Paths): (r: Response)
    ensures r == Failed(403) <==> !p.inside
    ensures r.Served? ==> r.contentType != "" && (r.cacheControl == "no-cache" || r.cacheControl == "public, max-age=3600")
  {
    if !p.inside then Failed(403) else AnswerInside(disk, p)
  }

  /** Answer once the path check has passed: never 403. */
  function AnswerInside(disk: Disk, p: Paths): (r: Response)
    ensures r != Failed(403)
    ensures r.Served? ==> r.contentType != "" && (r.cacheControl == "no-cache" || r.cacheControl == "public, max-age=3600")
  {
    match disk.stat(p.filePath)
    case Missing => AnswerMissing(disk, p)
    case StatFailed => Failed(500)
    case RegularFile => ReadAndServe(disk, p.filePath)
    case Directory =>
      if StatOk(disk.stat(p.dirIndex)) then ReadAndServe(disk, p.dirIndex) else Failed(404)
  }

  /** A missing file: index.html under the root for a route path when it exists, otherwise 404. */
  function AnswerMissing(disk: Disk, p: Paths): (r: Response)
    ensures r == Failed(404) || r == ReadAndServe(disk, p.rootIndex)
  {
    if ShouldFallbackToIndex(p.path) && StatOk(disk.stat(p.rootIndex)) then ReadAndServe(disk, p.rootIndex)
    else Failed(404)
  }

  /**
   * serveStaticFileUnified as written: 403 exactly when the cleaned file
   * path does not start with the cleaned root, and where it answers otherwise than the corrected handler, it
   * answers 500 where index.html under the root was meant.
   */
  function ServeStaticFileAsWritten(root: string, urlPath: string, disk: Disk): (r: Response)
    ensures r == Failed(403) <==> !InsideRoot(root, RequestPath(urlPath))
    ensures r != ServeStaticFile(root, urlPath, disk) ==>
      r == Failed(500) && ServeStaticFile(root, urlPath, disk) == ReadAndServe(disk, Join(root, "index.html"))
  {
    AnswerAsWritten(disk, PathsOf(root, urlPath))
  }

  /**
   * serveStaticFileUnified, with the SPA fallback completed: 403 exactly
   * when the cleaned file path does not start with the cleaned root, and a served file has a content type and
   * one of the two cache values.
   */
  function ServeStaticFile(root: string, urlPath: string, disk: Disk): (r: Response)
    ensures r == Failed(403) <==> !InsideRoot(root, RequestPath(urlPath))
    ensures r.Served? ==> r.contentType != "" && (r.cacheControl == "no-cache" || r.cacheControl == "public, max-age=3600")
  {
    Answer(disk, PathsOf(root, urlPath))
  }

  /** The two versions differ only on a missing route path whose index.html exists. */
  lemma VersionsAgreeElsewhere(disk: Disk, p: Paths)
    requires !(p.inside && disk.stat(p.filePath).Missing? && ShouldFallbackToIndex(p.path) && StatOk(disk.stat(p.rootIndex)))
    ensures Answer(disk, p) == AnswerAsWritten(disk, p)
  {
  }

  /** As written, a missing route path with an index.html present is answered with 500. */
  lemma SpaFallbackFailsAsWritten(disk: Disk, p: Paths)
    requires p.inside && disk.stat(p.filePath) == Missing && ShouldFallbackToIndex(p.path)
    requires StatOk(disk.stat(p.rootIndex))
    ensures AnswerAsWritten(disk, p) == Failed(500)
  {
  }

  /** A missing static asset is 404, in both versions. */
  lemma MissingAssetIsNotFound(disk: Disk, p: Paths)
    requires p.inside && disk.stat(p.filePath) == Missing && !ShouldFallbackToIndex(p.path)
    ensures Answer(disk, p) == Failed(404) && AnswerAsWritten(disk, p) == Failed(404)
  {
  }

  /** A path joined under a directory mentions index.html. */
  lemma JoinedIndexMentionsIndex(dir: string)
    ensures Contains(Join(dir, "index.html"), "index.html")
  {
    JoinEndsWithName(dir, "index.html");
    SuffixIsContained(Join(dir, "index.html"), "index.html");
  }

  /** Both index paths of a request mention index.html. */
  lemma IndexPathsMentionIndex(root: string, urlPath: string)
    ensures Contains(PathsOf(root, urlPath).rootIndex, "index.html")
    ensures Contains(PathsOf(root, urlPath).dirIndex, "index.html")
  {
    JoinedIndexMentionsIndex(root);
    JoinedIndexMentionsIndex(PathsOf(root, urlPath).filePath);
  }

  /** Corrected, a missing route path with an index.html present is answered with index.html, uncached. */
  lemma SpaFallbackServesIndex(disk: Disk, p: Paths)
    requires p.inside && disk.stat(p.filePath) == Missing && ShouldFallbackToIndex(p.path)
    requires StatOk(disk.stat(p.rootIndex)) && Contains(p.rootIndex, "index.html")
    ensures Answer(disk, p) == ReadAndServe(disk, p.rootIndex)
    ensures disk.readFile(p.rootIndex).Some? ==>
      Answer(disk, p) == Served(ContentTypeOf(disk, p.rootIndex), "no-cache", disk.readFile(p.rootIndex).value)
  {
  }

  /** The site root is never cached: whatever answers it is an index.html. */
  lemma RootIsNotCached(disk: Disk, p: Paths)
    requires p.path == "index.html" && p.filePath == p.rootIndex
    requires Contains(p.rootIndex, "index.html") && Contains(p.dirIndex, "index.html")
    requires Answer(disk, p).Served?
    ensures Answer(disk, p).cacheControl == "no-cache"
  {
  }

  /** A request for "/" or "" asks for index.html under the root. */
  lemma RootRequestPaths(root: string, urlPath: string)
    requires urlPath == "" || urlPath == "/"
    ensures PathsOf(root, urlPath).path == "index.html"
    ensures PathsOf(root, urlPath).filePath == PathsOf(root, urlPath).rootIndex
  {
    assert RequestPath(urlPath) == "index.html";
  }

  /** As written, a request for a missing route path is answered with 500 whenever index.html exists. */
  lemma ServeSpaRouteAsWritten(root: string, urlPath: string, disk: Disk)
    requires var p := PathsOf(root, urlPath);
      p.inside && disk.stat(p.filePath) == Missing && ShouldFallbackToIndex(p.path) && StatOk(disk.stat(p.rootIndex))
    ensures ServeStaticFileAsWritten(root, urlPath, disk) == Failed(500)
  {
    SpaFallbackFailsAsWritten(disk, PathsOf(root, urlPath));
  }

  /** Corrected, the same request is answered with index.html under the root, uncached. */
  lemma ServeSpaRoute(root: string, urlPath: string, disk: Disk)
    requires var p := PathsOf(root, urlPath);
      p.inside && disk.stat(p.filePath) == Missing && ShouldFallbackToIndex(p.path) && StatOk(disk.stat(p.rootIndex))
    ensures ServeStaticFile(root, urlPath, disk) == ReadAndServe(disk, Join(root, "index.html"))
    ensures disk.readFile(Join(root, "index.html")).Some? ==>
      ServeStaticFile(root, urlPath, disk).Served? && ServeStaticFile(root, urlPath, disk).cacheControl == "no-cache"
  {
    IndexPathsMentionIndex(root, urlPath);
    SpaFallbackServesIndex(disk, PathsOf(root, urlPath));
  }

  /** Whatever answers a request for "/" or "" is an index.html, so it is never cached. */
  lemma ServeRootNotCached(root: string, urlPath: string, disk: Disk)
    requires urlPath == "" || urlPath == "/"
    requires ServeStaticFile(root, urlPath, disk).Served?
    ensures ServeStaticFile(root, urlPath, disk).cacheControl == "no-cache"
  {
    RootRequestPaths(root, urlPath);
    IndexPathsMentionIndex(root, urlPath);
    RootIsNotCached(disk, PathsOf(root, urlPath));
  }

  /**
   * The route "/dashboard" under the root "dist", whose file dist/dashboard
   * is missing while dist/index.html exists: 500 as written, dist/index.html
   * corrected.
   */
  lemma DashboardFallback(disk: Disk)
    requires disk.stat("dist/dashboard") == Missing && disk.stat("dist/index.html") == RegularFile
    ensures var p := Paths("dashboard", "dist/dashboard", "dist/index.html", "dist/dashboard/index.html", true);
      AnswerAsWritten(disk, p) == Failed(500) && Answer(disk, p) == ReadAndServe(disk, "dist/index.html")
  {
    assert "dashboard"[..7][0] != "assets/"[0];
    RoutesFallBack("dashboard");
  }

  /**
   * The path check compares strings, so a request that climbs out of the
   * root into a sibling directory whose name extends the root's name is not
   * refused, although its file path lies outside the root.
   */
  lemma SiblingDirectoryPasses(root: string, sibling: string, name: string, disk: Disk)
    requires IsPlainName(root) && IsPlainName(sibling) && IsPlainName(name)
    requires HasPrefix(sibling, root) && sibling != root
    ensures Join(root, RequestPath("/../" + sibling + "/" + name)) == sibling + "/" + name
    ensures InsideRoot(root, RequestPath("/../" + sibling + "/" + name))
    ensures ServeStaticFile(root, "/../" + sibling + "/" + name, disk) != Failed(403)
    ensures ServeStaticFileAsWritten(root, "/../" + sibling + "/" + name, disk) != Failed(403)
  {
    var path := "../" + sibling + "/" + name;
    assert "/../" == "/" + "../";
    assert "/../" + sibling + "/" + name == "/" + path;
    assert RequestPath("/" + path) == path;
    SiblingPassesPathCheck(root, sibling, name);
  }

  /** The file path of "../sibling/name" lies in the sibling, yet starts with the root. */
  lemma SiblingPassesPathCheck(root: string, sibling: string, name: string)
    requires IsPlainName(root) && IsPlainName(sibling) && IsPlainName(name)
    requires HasPrefix(sibling, root)
    ensures Join(root, "../" + sibling + "/" + name) == sibling + "/" + name
    ensures InsideRoot(root, "../" + sibling + "/" + name)
  {
    JoinUpToSibling(root, sibling, name);
    CleanOfName(root);
    CleanOfTwoNames(sibling, name);
    assert (sibling + "/" + name)[..|root|] == sibling[..|root|];
  }

  lemma DistSiblingNames()
    ensures IsPlainName("dist") && IsPlainName("dist2") && IsPlainName("x")
    ensures HasPrefix("dist2", "dist") && "dist2" != "dist"
    ensures "/../" + "dist2" + "/" + "x" == "/../dist2/x"
  {
  }

  /** With the root "dist", a request for "/../dist2/x" is not refused. */
  lemma DistTwoPasses(disk: Disk)
    ensures ServeStaticFile("dist", "/../dist2/x", disk) != Failed(403)
    ensures ServeStaticFileAsWritten("dist", "/../dist2/x", disk) != Failed(403)
  {
    DistSiblingNames();
    SiblingDirectoryPasses("dist", "dist2", "x", disk);
  }
}
