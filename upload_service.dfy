/**
 * The upload service of upload/service.go and its OSS variant in
 * upload/oss.go: object keys, adding and removing the domain of a URL, and
 * ExtractAndSaveModel3D, which uploads the entries of a model archive and
 * classifies them into the model URL and the texture mappings.
 *
 * The archive is a sequence of entries. Uploading is a function from the
 * entry's bytes and object name to the URL, or to nothing when the upload
 * fails; the UUID an entry's name is drawn from is a function of its
 * position; url.Parse is a function to an optional parsed URL.
 */
module UploadService {
  import opened Wrappers
  import opened GoStrings
  import opened GoPath
  import opened FbxFormat
  import opened FbxParser
  import opened ObjectStorage

  // ---------------------------------------------------------------------
  // The service and its keys
  // ---------------------------------------------------------------------

  datatype LocalService = LocalService(host: string, dir: string)

  /** newService: the host is kept without trailing separators. */
  function NewService(host: string, dir: string): (s: LocalService)
    ensures s.dir == dir
    ensures HasPrefix(host, s.host) && (s.host == "" || s.host[|s.host| - 1] != '/')
    ensures forall i :: |s.host| <= i < |host| ==> host[i] == '/'
  {
    PublicUrlShape(host, "");
    LocalService(TrimRightSlashes(host), dir)
  }

  /**
   * joinPath: the directory and the name joined and cleaned, without a
   * leading separator; the key it makes never starts with a separator.
   */
  function JoinPath(dir: string, name: string): (key: string)
    ensures key == "" || key[0] != '/'
  {
    JoinedNotRooted(dir, name);
    TrimPrefix(Join(dir, name), "/")
  }

  /** A cleaned join never starts with two separators, so one TrimPrefix leaves none. */
  lemma JoinedNotRooted(dir: string, name: string)
    ensures var key := TrimPrefix(Join(dir, name), "/"); key == "" || key[0] != '/'
  {
    var j := Join(dir, name);
    JoinNoDoubleLeadingSlash(dir, name);
    if |j| >= 2 && j[0] == '/' {
      assert j[..2] != "//";
    }
  }

  /** The key of a plain file name ends with that name. */
  lemma JoinPathEndsWithName(dir: string, name: string)
    requires IsPlainName(name)
    ensures HasSuffix(JoinPath(dir, name), name)
  {
    JoinEndsWithName(dir, name);
    TrimSlashKeepsSuffix(Join(dir, name), name);
  }

  lemma TrimSlashKeepsSuffix(s: string, x: string)
    requires HasSuffix(s, x) && x != "" && x[0] != '/'
    ensures HasSuffix(TrimPrefix(s, "/"), x)
  {
    if HasPrefix(s, "/") {
      assert s[1..][|s| - 1 - |x|..] == s[|s| - |x|..];
    }
  }

  // ---------------------------------------------------------------------
  // AddDomainToURL and RemoveDomainFromURL
  // ---------------------------------------------------------------------

  predicate IsAbsoluteUrl(s: string) {
    HasPrefix(s, "http://") || HasPrefix(s, "https://")
  }

  /** The path with a leading separator added when it lacks one. */
  function Rooted(path: string): string {
    if HasPrefix(path, "/") then path else "/" + path
  }

  /**
   * AddDomainToURL of upload/service.go: the result is empty exactly when the
   * path is, and a relative path gets the host without trailing separators
   * followed by a '/'.
   */
  function AddDomainToUrl(host: string, relativePath: string): (r: string)
    ensures r == "" <==> relativePath == ""
    ensures relativePath != "" && !IsAbsoluteUrl(relativePath) ==>
      HasPrefix(r, TrimRightSlashes(host)) && |TrimRightSlashes(host)| < |r| && r[|TrimRightSlashes(host)|] == '/'
  {
    if relativePath == "" then ""
    else if IsAbsoluteUrl(relativePath) then relativePath
    else TrimRightSlashes(host) + Rooted(relativePath)
  }

  /**
   * AddDomainToURL of upload/oss.go, which leaves the rooted path alone
   * without a base URL: it agrees with the local service's, because an empty
   * base URL adds nothing.
   */
  function OssAddDomainToUrl(baseUrl: string, relativePath: string): (r: string)
    ensures r == AddDomainToUrl(baseUrl, relativePath)
  {
    assert baseUrl == "" ==> TrimRightSlashes(baseUrl) == "";
    if relativePath == "" then ""
    else if IsAbsoluteUrl(relativePath) then relativePath
    else if baseUrl != "" then TrimRightSlashes(baseUrl) + Rooted(relativePath)
    else Rooted(relativePath)
  }

  /** The empty path and absolute URLs are returned as they are. */
  lemma AddDomainKeepsAbsolute(host: string, relativePath: string)
    requires relativePath == "" || IsAbsoluteUrl(relativePath)
    ensures AddDomainToUrl(host, relativePath) == relativePath
    ensures OssAddDomainToUrl(host, relativePath) == relativePath
  {
  }

  /**
   * A relative path gets the host without trailing separators (see
   * ObjectStorage.PublicUrlShape), exactly one '/', and the path without the
   * one leading separator it may have had.
   */
  lemma AddDomainJoinsOnce(host: string, relativePath: string)
    requires relativePath != "" && !IsAbsoluteUrl(relativePath)
    ensures AddDomainToUrl(host, relativePath) == TrimRightSlashes(host) + "/" + TrimPrefix(relativePath, "/")
  {
    RootedTrim(relativePath);
  }

  lemma RootedTrim(path: string)
    ensures Rooted(path) == "/" + TrimPrefix(path, "/")
  {
    if HasPrefix(path, "/") {
      assert path == "/" + path[1..];
    }
  }

  /** With an absolute host that does not end in '/', adding the domain twice is adding it once. */
  lemma AddDomainIdempotent(host: string, relativePath: string)
    requires IsAbsoluteUrl(host) && host[|host| - 1] != '/'
    ensures AddDomainToUrl(host, AddDomainToUrl(host, relativePath)) == AddDomainToUrl(host, relativePath)
  {
    var r := AddDomainToUrl(host, relativePath);
    if relativePath != "" && !IsAbsoluteUrl(relativePath) {
      assert TrimRightSlashes(host) == host;
      assert r == host + Rooted(relativePath);
      if HasPrefix(host, "http://") {
        assert r[..7] == host[..7];
      } else {
        assert r[..8] == host[..8];
      }
    }
  }

  /** The parts of a URL that url.Parse reports and RemoveDomainFromURL uses. */
  datatype Url = Url(host: string, path: string, rawQuery: string, fragment: string)

  /** The path, query and fragment of a parsed URL. */
  function PathPart(u: Url): string {
    var p := if u.rawQuery != "" then u.path + "?" + u.rawQuery else u.path;
    if u.fragment != "" then p + "#" + u.fragment else p
  }

  /**
   * RemoveDomainFromURL: `knownHost` is the host parameter in upload/service.go
   * and the configured base URL in upload/oss.go. A URL is only ever
   * replaced by the path part of its parse, and only when its host is known
   * or it is a local one.
   */
  function RemoveDomainFromUrl(knownHost: string, parse: string -> Option<Url>, fullUrl: string): (r: string)
    ensures r != fullUrl ==>
      && IsAbsoluteUrl(fullUrl) && parse(fullUrl).Some? && r == PathPart(parse(fullUrl).value)
      && (Contains(knownHost, parse(fullUrl).value.host)
          || HasPrefix(fullUrl, "http://127.0.0.1") || HasPrefix(fullUrl, "http://localhost"))
  {
    if fullUrl == "" then ""
    else if !IsAbsoluteUrl(fullUrl) then fullUrl
    else match parse(fullUrl)
      case None => fullUrl
      case Some(u) =>
        if Contains(knownHost, u.host) || HasPrefix(fullUrl, "http://127.0.0.1") || HasPrefix(fullUrl, "http://localhost")
        then PathPart(u)
        else fullUrl
  }

  /** The early exits: the empty text, relative paths and unparsable URLs come back unchanged. */
  lemma RemoveDomainKeepsRelative(knownHost: string, parse: string -> Option<Url>, fullUrl: string)
    requires fullUrl == "" || !IsAbsoluteUrl(fullUrl) || parse(fullUrl).None?
    ensures RemoveDomainFromUrl(knownHost, parse, fullUrl) == fullUrl
  {
  }

  /** A URL of a host the service does not know, and not a local one, comes back unchanged. */
  lemma RemoveDomainKeepsForeign(knownHost: string, parse: string -> Option<Url>, fullUrl: string)
    requires parse(fullUrl).Some? && !Contains(knownHost, parse(fullUrl).value.host)
    requires !HasPrefix(fullUrl, "http://127.0.0.1") && !HasPrefix(fullUrl, "http://localhost")
    ensures RemoveDomainFromUrl(knownHost, parse, fullUrl) == fullUrl
  {
  }

  /**
   * Removing the domain undoes adding it, for a parser that reads back the
   * host (one the service knows) and the rooted path, with no query or fragment.
   */
  lemma RemoveDomainUndoesAdd(host: string, parse: string -> Option<Url>, relativePath: string, urlHost: string)
    requires relativePath != "" && !IsAbsoluteUrl(relativePath)
    requires IsAbsoluteUrl(AddDomainToUrl(host, relativePath))
    requires parse(AddDomainToUrl(host, relativePath)) == Some(Url(urlHost, Rooted(relativePath), "", ""))
    requires Contains(host, urlHost)
    ensures RemoveDomainFromUrl(host, parse, AddDomainToUrl(host, relativePath)) == Rooted(relativePath)
  {
  }

  // ---------------------------------------------------------------------
  // UploadFile of upload/oss.go
  // ---------------------------------------------------------------------

  /**
   * The result of the OSS UploadFile, whose key is joinPath(dir, name): a
   * URL ending with '/' and that key exactly when the upload succeeds.
   */
  function OssUploadFile(c: OssConfig, dir: string, name: string, put: Option<PutError>): (r: Result<string, UploadError>)
    ensures r.Success? <==> put.None?
    ensures r.Success? ==> HasSuffix(r.value, "/" + JoinPath(dir, name))
  {
    UploadResult(c, JoinPath(dir, name), put)
  }

  /** A successful upload is published at the base URL, one '/', and a key that starts with no separator. */
  lemma OssUploadFileUrl(c: OssConfig, dir: string, name: string)
    ensures var key := JoinPath(dir, name);
      && OssUploadFile(c, dir, name, None) == Success(TrimRightSlashes(c.baseUrl) + "/" + key)
      && (key == "" || key[0] != '/')
  {
  }

  /** A failed upload reports the mapped error and no URL. */
  lemma OssUploadFileError(c: OssConfig, dir: string, name: string, err: PutError)
    ensures OssUploadFile(c, dir, name, Some(err)) == Failure(UploadErrorOf(c.bucketName, err))
  {
  }

  // ---------------------------------------------------------------------
  // ExtractAndSaveModel3D
  // ---------------------------------------------------------------------

  /**
   * One archive entry: its name, whether it is a directory, whether
   * extracting it to a temporary file succeeds, whether opening it
   * succeeds, and its bytes.
   */
  datatype ZipEntry = ZipEntry(name: string, isDir: bool, extracts: bool, opens: bool, content: seq<byte>)

  datatype ArchiveError = ZipOpenFailed | TempDirFailed | NoModelFound

  /** The lower-cased extension the two passes classify an entry by. */
  function EntryExt(e: ZipEntry): string {
    Lower(Ext(e.name))
  }

  /** The entries the first pass extracts successfully to parse. */
  predicate IsExtractedFbx(e: ZipEntry) {
    !e.isDir && EntryExt(e) == ".fbx" && e.extracts
  }

  /** Entry `k` is the first entry the first pass extracts to parse. */
  predicate FirstExtractedFbx(entries: seq<ZipEntry>, k: nat) {
    k < |entries| && IsExtractedFbx(entries[k]) && forall j :: 0 <= j < k ==> !IsExtractedFbx(entries[j])
  }

  lemma FirstExtractedFbxUnique(entries: seq<ZipEntry>, k: nat, m: nat)
    requires FirstExtractedFbx(entries, k) && FirstExtractedFbx(entries, m)
    ensures k == m
  {
  }

  /** The first pass: the first FBX entry whose extraction succeeds. */
  method FindFbxEntry(entries: seq<ZipEntry>) returns (k: Option<nat>)
    ensures k.Some? ==> FirstExtractedFbx(entries, k.value)
    ensures k.None? ==> forall j :: 0 <= j < |entries| ==> !IsExtractedFbx(entries[j])
  {
    k := None;
    var i := 0;
    while i < |entries|
      invariant i <= |entries|
      invariant k.Some? ==> k.value < i && IsExtractedFbx(entries[k.value])
      invariant k.Some? ==> forall j :: 0 <= j < k.value ==> !IsExtractedFbx(entries[j])
      invariant k.None? ==> forall j :: 0 <= j < i ==> !IsExtractedFbx(entries[j])
    {
      var e := entries[i];
      if !e.isDir {
        if Lower(Ext(e.name)) == ".fbx" && k.None? {
          if e.extracts {
            k := Some(i);
          }
        }
      }
      i := i + 1;
    }
  }

  /** What the second pass learns from an entry it uploads: its lower-cased extension, base name and URL. */
  datatype Uploaded = Uploaded(ext: string, fileName: string, url: string)

  /**
   * The upload of entry `k`: an entry that is not a directory and opens is
   * uploaded under a unique name made from its base name; only such an
   * entry is recorded, with that base name and its lower-cased extension.
   */
  function EntryOutcome(entries: seq<ZipEntry>, k: nat, uuids: nat -> string,
                        upload: (seq<byte>, string) -> Option<string>): (r: Option<Uploaded>)
    requires k < |entries|
    ensures r.Some? ==> !entries[k].isDir && entries[k].opens
    ensures r.Some? ==> r.value.fileName == Base(entries[k].name) && r.value.ext == EntryExt(entries[k])
  {
    var e := entries[k];
    if e.isDir || !e.opens then None
    else match upload(e.content, UniqueFilename(uuids(k), Base(e.name)))
      case None => None
      case Some(url) => Some(Uploaded(EntryExt(e), Base(e.name), url))
  }

  /** The uploads of all entries, in archive order. */
  function Outcomes(entries: seq<ZipEntry>, uuids: nat -> string,
                    upload: (seq<byte>, string) -> Option<string>): (r: seq<Option<Uploaded>>)
    ensures |r| == |entries|
  {
    seq(|entries|, k requires 0 <= k < |entries| => EntryOutcome(entries, k, uuids, upload))
  }

  /** What the second pass has collected: the model URL ("" for none yet) and the texture mappings. */
  datatype Collection = Collection(modelUrl: string, mappings: seq<TextureMapping>)

  /**
   * How one uploaded entry is classified: it adds at most its own mapping,
   * and it changes the model URL only when none is set (ClassifyEffect says
   * which entries do what).
   */
  function Classify(c: Collection, u: Uploaded): (r: Collection)
    ensures r.mappings == c.mappings || r.mappings == c.mappings + [TextureMapping(u.fileName, u.url)]
    ensures r.modelUrl == c.modelUrl || (c.modelUrl == "" && r.modelUrl == u.url)
  {
    if u.ext in ModelExtensions && c.modelUrl == "" then Collection(u.url, c.mappings)
    else if u.ext in TextureExtensions then Collection(c.modelUrl, c.mappings + [TextureMapping(u.fileName, u.url)])
    else c
  }

  /** The second pass over the first `n` uploads. */
  function SecondPass(outcomes: seq<Option<Uploaded>>, n: nat): Collection
    requires n <= |outcomes|
  {
    if n == 0 then Collection("", [])
    else
      Step(SecondPass(outcomes, n - 1), outcomes[n - 1])
  }

  /** One entry of the second pass: an upload is classified, a skipped entry changes nothing. */
  function Step(c: Collection, outcome: Option<Uploaded>): Collection {
    match outcome
    case None => c
    case Some(u) => Classify(c, u)
  }

  /**
   * The result of ExtractAndSaveModel3D: the archive and temporary-directory
   * failures come first; a success has a model URL, the first non-empty URL
   * of an uploaded model entry, and maps every uploaded texture entry.
   */
  function ExtractResult(zipOpenFails: bool, tempDirFails: bool, entries: seq<ZipEntry>, uuids: nat -> string,
                         upload: (seq<byte>, string) -> Option<string>): (r: Result<Collection, ArchiveError>)
    ensures zipOpenFails ==> r == Failure(ZipOpenFailed)
    ensures !zipOpenFails && tempDirFails ==> r == Failure(TempDirFailed)
    ensures r.Success? ==> var outcomes := Outcomes(entries, uuids, upload);
      && r.value.modelUrl != ""
      && r.value.modelUrl == FirstNonEmpty(ModelUploads(outcomes, |entries|))
      && r.value.mappings == TextureUploads(outcomes, |entries|)
  {
    SecondPassCollects(Outcomes(entries, uuids, upload), |entries|);
    if zipOpenFails then Failure(ZipOpenFailed)
    else if tempDirFails then Failure(TempDirFailed)
    else
      var c := SecondPass(Outcomes(entries, uuids, upload), |entries|);
      if c.modelUrl == "" then Failure(NoModelFound) else Success(c)
  }

  /** One step of the second pass, as the loop body runs it. */
  method UploadEntry(entries: seq<ZipEntry>, i: nat, uuids: nat -> string,
                     upload: (seq<byte>, string) -> Option<string>, c: Collection) returns (c': Collection)
    requires i < |entries|
    ensures c' == Step(c, EntryOutcome(entries, i, uuids, upload))
  {
    var file := entries[i];
    if file.isDir {
      return c;
    }
    var ext := Lower(Ext(file.name));
    var fileName := Base(file.name);
    if !file.opens {
      return c;
    }
    var uniqueFilename := UniqueFilename(uuids(i), fileName);
    var fileUrl := upload(file.content, uniqueFilename);
    if fileUrl.None? {
      return c;
    }
    if ext in ModelExtensions && c.modelUrl == "" {
      c' := Collection(fileUrl.value, c.mappings);
    } else if ext in TextureExtensions {
      c' := Collection(c.modelUrl, c.mappings + [TextureMapping(fileName, fileUrl.value)]);
    } else {
      c' := c;
    }
  }

  /** One more entry of the second pass. */
  lemma SecondPassNext(entries: seq<ZipEntry>, uuids: nat -> string, upload: (seq<byte>, string) -> Option<string>, i: nat)
    requires i < |entries|
    ensures var outcomes := Outcomes(entries, uuids, upload);
      SecondPass(outcomes, i + 1) == Step(SecondPass(outcomes, i), EntryOutcome(entries, i, uuids, upload))
  {
  }

  /** The second pass over all entries. */
  method UploadAll(entries: seq<ZipEntry>, uuids: nat -> string, upload: (seq<byte>, string) -> Option<string>)
    returns (c: Collection)
    ensures c == SecondPass(Outcomes(entries, uuids, upload), |entries|)
  {
    ghost var outcomes := Outcomes(entries, uuids, upload);
    c := Collection("", []);
    var i := 0;
    while i < |entries|
      invariant i <= |entries|
      invariant c == SecondPass(outcomes, i)
    {
      c := UploadEntry(entries, i, uuids, upload, c);
      SecondPassNext(entries, uuids, upload, i);
      i := i + 1;
    }
  }

  /**
   * The first pass and the parse of the FBX entry it finds: the references
   * of the first extracted FBX entry, or none when there is no such entry.
   * The temporary file is read back without error; the parsed references are
   * only reported.
   */
  method ParseModelTextures(entries: seq<ZipEntry>) returns (requiredTextures: Result<seq<string>, ParseError>)
    ensures forall k: nat :: FirstExtractedFbx(entries, k) ==>
      requiredTextures == TextureReferences(FbxFile(false, entries[k].content, false, false))
    ensures (forall k :: 0 <= k < |entries| ==> !IsExtractedFbx(entries[k])) ==> requiredTextures == Success([])
    ensures requiredTextures.Failure? ==> exists k :: 0 <= k < |entries| && IsExtractedFbx(entries[k])
  {
    var fbx := FindFbxEntry(entries);
    if fbx.Some? {
      requiredTextures := ParseTextureReferences(FbxFile(false, entries[fbx.value].content, false, false));
      forall k | FirstExtractedFbx(entries, k) ensures k == fbx.value {
        FirstExtractedFbxUnique(entries, k, fbx.value);
      }
    } else {
      requiredTextures := Success([]);
    }
  }

  /** ExtractAndSaveModel3D. The result does not depend on the references parsed from the FBX entry. */
  method ExtractAndSaveModel3D(zipOpenFails: bool, tempDirFails: bool, entries: seq<ZipEntry>, uuids: nat -> string,
                               upload: (seq<byte>, string) -> Option<string>)
    returns (r: Result<Collection, ArchiveError>)
    ensures r == ExtractResult(zipOpenFails, tempDirFails, entries, uuids, upload)
  {
    if zipOpenFails {
      return Failure(ZipOpenFailed);
    }
    if tempDirFails {
      return Failure(TempDirFailed);
    }
    var requiredTextures := ParseModelTextures(entries);
    var c := UploadAll(entries, uuids, upload);
    if c.modelUrl == "" {
      return Failure(NoModelFound);
    }
    return Success(c);
  }

  // ---------------------------------------------------------------------
  // What the second pass collects
  // ---------------------------------------------------------------------

  /** An entry that was uploaded and carries a texture extension. */
  predicate UploadedTexture(o: Option<Uploaded>) {
    o.Some? && o.value.ext in TextureExtensions
  }

  /** The mappings of the uploaded texture entries among the first `n`, in archive order, duplicates kept. */
  function TextureUploads(outcomes: seq<Option<Uploaded>>, n: nat): seq<TextureMapping>
    requires n <= |outcomes|
  {
    if n == 0 then []
    else
      var before := TextureUploads(outcomes, n - 1);
      var o := outcomes[n - 1];
      if UploadedTexture(o)
      then before + [TextureMapping(o.value.fileName, o.value.url)]
      else before
  }

  /** The URLs of the uploaded model entries among the first `n`, in archive order. */
  function ModelUploads(outcomes: seq<Option<Uploaded>>, n: nat): seq<string>
    requires n <= |outcomes|
  {
    if n == 0 then []
    else
      var before := ModelUploads(outcomes, n - 1);
      var o := outcomes[n - 1];
      if o.Some? && o.value.ext in ModelExtensions then before + [o.value.url] else before
  }

  /** The first non-empty text of a list, or "". */
  function FirstNonEmpty(xs: seq<string>): (r: string)
    ensures r == "" <==> forall k :: 0 <= k < |xs| ==> xs[k] == ""
    ensures r != "" ==> r in xs
  {
    if xs == [] then ""
    else if xs[0] != "" then xs[0]
    else
      var r := FirstNonEmpty(xs[1..]);
      assert forall k :: 1 <= k < |xs| ==> xs[k] == xs[1..][k - 1];
      r
  }

  lemma FirstNonEmptySnoc(xs: seq<string>, x: string)
    ensures FirstNonEmpty(xs + [x]) == if FirstNonEmpty(xs) == "" then x else FirstNonEmpty(xs)
  {
    if xs != [] {
      assert (xs + [x])[1..] == xs[1..] + [x];
      FirstNonEmptySnoc(xs[1..], x);
    }
  }

  /** A texture entry adds its mapping; a model entry sets the model URL when none is set; nothing else changes. */
  lemma ClassifyEffect(c: Collection, u: Uploaded)
    ensures Classify(c, u).mappings ==
      if u.ext in TextureExtensions then c.mappings + [TextureMapping(u.fileName, u.url)] else c.mappings
    ensures Classify(c, u).modelUrl ==
      if u.ext in ModelExtensions && c.modelUrl == "" then u.url else c.modelUrl
  {
    ModelAndTextureExtensionsDisjoint();
  }

  /**
   * The mappings are exactly the uploaded texture entries, and the model
   * URL is the first non-empty URL of an uploaded model entry.
   */
  lemma {:induction false} SecondPassCollects(outcomes: seq<Option<Uploaded>>, n: nat)
    requires n <= |outcomes|
    ensures SecondPass(outcomes, n).mappings == TextureUploads(outcomes, n)
    ensures SecondPass(outcomes, n).modelUrl == FirstNonEmpty(ModelUploads(outcomes, n))
  {
    if n > 0 {
      SecondPassCollects(outcomes, n - 1);
      var o := outcomes[n - 1];
      if o.Some? {
        ClassifyEffect(SecondPass(outcomes, n - 1), o.value);
        if o.value.ext in ModelExtensions {
          FirstNonEmptySnoc(ModelUploads(outcomes, n - 1), o.value.url);
        }
      }
    }
  }

  /** The archive is rejected for lack of a model exactly when no model entry was uploaded to a non-empty URL. */
  lemma NoModelIff(entries: seq<ZipEntry>, uuids: nat -> string, upload: (seq<byte>, string) -> Option<string>)
    ensures var models := ModelUploads(Outcomes(entries, uuids, upload), |entries|);
      ExtractResult(false, false, entries, uuids, upload) == Failure(NoModelFound) <==>
      forall k :: 0 <= k < |models| ==> models[k] == ""
  {
    SecondPassCollects(Outcomes(entries, uuids, upload), |entries|);
  }

  /**
   * When no upload URL is empty (the local UploadFile always returns the
   * host, '/', and a path), the model URL is that of the first uploaded model entry.
   */
  lemma FirstModelUpload(outcomes: seq<Option<Uploaded>>)
    requires forall k :: 0 <= k < |outcomes| && outcomes[k].Some? ==> outcomes[k].value.url != ""
    requires ModelUploads(outcomes, |outcomes|) != []
    ensures SecondPass(outcomes, |outcomes|) ==
      Collection(ModelUploads(outcomes, |outcomes|)[0], TextureUploads(outcomes, |outcomes|))
  {
    SecondPassCollects(outcomes, |outcomes|);
    ModelUploadsNonEmpty(outcomes, |outcomes|);
    FirstNonEmptyHead(ModelUploads(outcomes, |outcomes|));
  }

  lemma FirstNonEmptyHead(xs: seq<string>)
    requires xs != [] && forall k :: 0 <= k < |xs| ==> xs[k] != ""
    ensures FirstNonEmpty(xs) == xs[0]
  {
  }

  /** An upload function that never returns an empty URL gives every uploaded entry a non-empty URL. */
  lemma OutcomeUrlsNonEmpty(entries: seq<ZipEntry>, uuids: nat -> string, upload: (seq<byte>, string) -> Option<string>)
    requires forall b, name :: upload(b, name) != Some("")
    ensures var outcomes := Outcomes(entries, uuids, upload);
      forall k :: 0 <= k < |outcomes| && outcomes[k].Some? ==> outcomes[k].value.url != ""
  {
    var outcomes := Outcomes(entries, uuids, upload);
    forall k | 0 <= k < |outcomes| && outcomes[k].Some? ensures outcomes[k].value.url != "" {
      var e := entries[k];
      assert outcomes[k] == EntryOutcome(entries, k, uuids, upload);
      assert upload(e.content, UniqueFilename(uuids(k), Base(e.name))) != Some("");
    }
  }

  lemma {:induction false} ModelUploadsNonEmpty(outcomes: seq<Option<Uploaded>>, n: nat)
    requires n <= |outcomes|
    requires forall k :: 0 <= k < |outcomes| && outcomes[k].Some? ==> outcomes[k].value.url != ""
    ensures forall k :: 0 <= k < |ModelUploads(outcomes, n)| ==> ModelUploads(outcomes, n)[k] != ""
  {
    if n > 0 {
      ModelUploadsNonEmpty(outcomes, n - 1);
    }
  }

  /** An entry is uploaded exactly when it is a file that opens and whose upload succeeds, under a unique name. */
  lemma EntryOutcomeUploads(entries: seq<ZipEntry>, k: nat, uuids: nat -> string,
                            upload: (seq<byte>, string) -> Option<string>)
    requires k < |entries|
    ensures var e := entries[k];
      var o := Outcomes(entries, uuids, upload)[k];
      && (o.Some? <==> !e.isDir && e.opens && upload(e.content, UniqueFilename(uuids(k), Base(e.name))).Some?)
      && (o.Some? ==> o.value == Uploaded(Lower(Ext(e.name)), Base(e.name),
                                          upload(e.content, UniqueFilename(uuids(k), Base(e.name))).value))
  {
  }

  /** Every mapping comes from an uploaded texture entry: its base name and the URL its upload returned. */
  lemma {:induction false} TextureUploadMember(outcomes: seq<Option<Uploaded>>, n: nat, m: TextureMapping)
    returns (k: nat)
    requires n <= |outcomes| && m in TextureUploads(outcomes, n)
    ensures k < n && outcomes[k].Some? && outcomes[k].value.ext in TextureExtensions
    ensures outcomes[k].value.fileName == m.source && outcomes[k].value.url == m.target
  {
    var before := TextureUploads(outcomes, n - 1);
    if m in before {
      k := TextureUploadMember(outcomes, n - 1, m);
    } else {
      k := n - 1;
    }
  }

  /** Every uploaded texture entry gets its own mapping, so mappings are never merged. */
  lemma {:induction false} TextureUploadsCount(outcomes: seq<Option<Uploaded>>, n: nat)
    requires n <= |outcomes|
    ensures |TextureUploads(outcomes, n)| ==
      |set k | 0 <= k < n && UploadedTexture(outcomes[k])|
  {
    if n > 0 {
      TextureUploadsCount(outcomes, n - 1);
      UploadedTextureIndexesStep(outcomes, n);
    }
  }

  /** Counting the uploaded textures among one more entry adds one exactly when that entry is one. */
  lemma UploadedTextureIndexesStep(outcomes: seq<Option<Uploaded>>, n: nat)
    requires 0 < n <= |outcomes|
    ensures |set k | 0 <= k < n && UploadedTexture(outcomes[k])| ==
      |set k | 0 <= k < n - 1 && UploadedTexture(outcomes[k])| + if UploadedTexture(outcomes[n - 1]) then 1 else 0
  {
    var prev := set k | 0 <= k < n - 1 && UploadedTexture(outcomes[k]);
    var all := set k | 0 <= k < n && UploadedTexture(outcomes[k]);
    if UploadedTexture(outcomes[n - 1]) {
      assert all == prev + {n - 1};
    } else {
      assert all == prev;
    }
  }
}
