/**
 * Rules shared by the OSS upload service (oss/oss.go) and the upload
 * package's OSS service (upload/oss.go): configuration validation, object
 * names built from a UUID, the public URL of an uploaded object, the
 * mapping of upload errors, the content-type table and the default CORS rule.
 *
 * uuid.New, mime.TypeByExtension and the outcome of PutObject come from
 * outside: they are parameters.
 */
module ObjectStorage {
  import opened Wrappers
  import opened GoStrings
  import opened GoPath

  // ---------------------------------------------------------------------
  // validateOSSConfig
  // ---------------------------------------------------------------------

  datatype OssConfig = OssConfig(endpoint: string, accessKeyId: string, accessKeySecret: string,
                                 bucketName: string, baseUrl: string)

  datatype ConfigError =
    | EndpointRequired
    | AccessKeyIdRequired
    | AccessKeySecretRequired
    | BucketNameRequired
    | BaseUrlRequired
    | RegionMismatch(endpoint: string, baseUrl: string)

  /**
   * validateOSSConfig: the first rule the configuration breaks, if any. A
   * configuration is accepted exactly when all five fields are set and the
   * base URL contains the endpoint, and what is reported is a broken rule.
   */
  function ValidateOssConfig(c: OssConfig): (r: Option<ConfigError>)
    ensures r == None <==>
      && c.endpoint != "" && c.accessKeyId != "" && c.accessKeySecret != ""
      && c.bucketName != "" && c.baseUrl != "" && Contains(c.baseUrl, c.endpoint)
    ensures r.Some? ==> Breaks(c, r.value)
  {
    if c.endpoint == "" then Some(EndpointRequired)
    else if c.accessKeyId == "" then Some(AccessKeyIdRequired)
    else if c.accessKeySecret == "" then Some(AccessKeySecretRequired)
    else if c.bucketName == "" then Some(BucketNameRequired)
    else if c.baseUrl == "" then Some(BaseUrlRequired)
    else if !Contains(c.baseUrl, c.endpoint) then Some(RegionMismatch(c.endpoint, c.baseUrl))
    else None
  }

  /** The rule each error names, independently of the order the rules are checked in. */
  predicate Breaks(c: OssConfig, e: ConfigError) {
    match e
    case EndpointRequired => c.endpoint == ""
    case AccessKeyIdRequired => c.accessKeyId == ""
    case AccessKeySecretRequired => c.accessKeySecret == ""
    case BucketNameRequired => c.bucketName == ""
    case BaseUrlRequired => c.baseUrl == ""
    case RegionMismatch(endpoint, baseUrl) =>
      endpoint == c.endpoint && baseUrl == c.baseUrl && !Contains(baseUrl, endpoint)
  }

  /** The position of each rule in the order they are checked. */
  function Rank(e: ConfigError): nat {
    match e
    case EndpointRequired => 0
    case AccessKeyIdRequired => 1
    case AccessKeySecretRequired => 2
    case BucketNameRequired => 3
    case BaseUrlRequired => 4
    case RegionMismatch(_, _) => 5
  }

  /** The configuration breaks no rule checked before the reported one. */
  lemma ValidateOssConfigFirstFailure(c: OssConfig)
    requires ValidateOssConfig(c).Some?
    ensures forall e :: Rank(e) < Rank(ValidateOssConfig(c).value) ==> !Breaks(c, e)
  {
  }

  /** Every broken configuration is rejected. */
  lemma ValidateOssConfigRejectsBroken(c: OssConfig, e: ConfigError)
    requires Breaks(c, e)
    ensures ValidateOssConfig(c).Some? && Rank(ValidateOssConfig(c).value) <= Rank(e)
  {
  }

  // ---------------------------------------------------------------------
  // Object names
  // ---------------------------------------------------------------------

  predicate IsLowerHex(c: char) {
    '0' <= c <= '9' || 'a' <= c <= 'f'
  }

  /** The text form of a UUID as uuid.UUID.String writes it: 8-4-4-4-12 lower-case hex digits. */
  predicate IsCanonicalUuid(u: string) {
    && |u| == 36
    && (forall i :: 0 <= i < |u| ==>
          if i == 8 || i == 13 || i == 18 || i == 23 then u[i] == '-' else IsLowerHex(u[i]))
  }

  /**
   * GenerateUniqueFilename (upload/service.go) and the file name of
   * GenerateUniqueFilepath (oss/oss.go): the UUID's text without dashes,
   * then the original name's extension in its own case.
   */
  function UniqueFilename(uuid: string, original: string): (r: string)
    ensures HasSuffix(r, Ext(original))
    ensures '-' !in r[..|r| - |Ext(original)|]
  {
    var token := DeleteChar(uuid, '-');
    assert (token + Ext(original))[..|token|] == token;
    token + Ext(original)
  }

  lemma {:induction false} HexWithoutDashes(s: string)
    requires forall i :: 0 <= i < |s| ==> IsLowerHex(s[i])
    ensures DeleteChar(s, '-') == s
  {
    assert '-' !in s;
    DeleteCharAbsent(s, '-');
  }

  /** The characters of a canonical UUID between two dashes are hex digits. */
  lemma UuidGroup(u: string, lo: nat, hi: nat)
    requires IsCanonicalUuid(u)
    requires || (lo == 0 && hi == 8) || (lo == 9 && hi == 13) || (lo == 14 && hi == 18)
             || (lo == 19 && hi == 23) || (lo == 24 && hi == 36)
    ensures DeleteChar(u[lo..hi], '-') == u[lo..hi]
  {
    var g := u[lo..hi];
    forall i | 0 <= i < |g| ensures IsLowerHex(g[i]) {
      var j := lo + i;
      assert g[i] == u[j];
      assert j != 8 && j != 13 && j != 18 && j != 23;
    }
    HexWithoutDashes(g);
  }

  /** Removing the dash between two texts joins what remains of them. */
  lemma DeleteDashBetween(x: string, y: string)
    ensures DeleteChar(x + "-" + y, '-') == DeleteChar(x, '-') + DeleteChar(y, '-')
  {
    DeleteCharAppend(x + "-", y, '-');
    DeleteCharAppend(x, "-", '-');
  }

  /** A canonical UUID without its dashes is its 32 hex digits. */
  lemma UuidWithoutDashes(u: string)
    requires IsCanonicalUuid(u)
    ensures DeleteChar(u, '-') == u[..8] + u[9..13] + u[14..18] + u[19..23] + u[24..]
    ensures |DeleteChar(u, '-')| == 32
  {
    var p1 := u[..8];
    var p2 := u[..13];
    var p3 := u[..18];
    var p4 := u[..23];
    assert p2 == p1 + "-" + u[9..13];
    assert p3 == p2 + "-" + u[14..18];
    assert p4 == p3 + "-" + u[19..23];
    assert u == p4 + "-" + u[24..];
    UuidGroup(u, 0, 8);
    assert u[0..8] == p1;
    UuidGroup(u, 9, 13);
    UuidGroup(u, 14, 18);
    UuidGroup(u, 19, 23);
    UuidGroup(u, 24, 36);
    assert u[24..36] == u[24..];
    DeleteDashBetween(p1, u[9..13]);
    DeleteDashBetween(p2, u[14..18]);
    DeleteDashBetween(p3, u[19..23]);
    DeleteDashBetween(p4, u[24..]);
  }

  /** Any text without its dashes is 32 characters long when it is a canonical UUID. */
  lemma TokenLength(u: string)
    ensures IsCanonicalUuid(u) ==> |DeleteChar(u, '-')| == 32
  {
    if IsCanonicalUuid(u) {
      UuidWithoutDashes(u);
    }
  }

  /** The token of a canonical UUID is made of hex digits. */
  lemma UuidTokenHex(u: string, i: nat)
    requires IsCanonicalUuid(u) && i < 32
    ensures |DeleteChar(u, '-')| == 32 && IsLowerHex(DeleteChar(u, '-')[i])
  {
    UuidWithoutDashes(u);
    var j := if i < 8 then i else if i < 12 then i + 1 else if i < 16 then i + 2 else if i < 20 then i + 3 else i + 4;
    assert DeleteChar(u, '-')[i] == u[j];
  }

  /**
   * A unique name is 32 hex digits followed by the original extension, in
   * its original case, and that extension is again the name's extension.
   */
  lemma UniqueFilenameShape(uuid: string, original: string)
    requires IsCanonicalUuid(uuid)
    ensures var r := UniqueFilename(uuid, original);
      && |r| == 32 + |Ext(original)|
      && (forall i :: 0 <= i < 32 ==> IsLowerHex(r[i]))
      && r[32..] == Ext(original)
      && Ext(r) == Ext(original)
  {
    var token := DeleteChar(uuid, '-');
    UuidWithoutDashes(uuid);
    forall i | 0 <= i < 32 ensures IsLowerHex(token[i]) {
      UuidTokenHex(uuid, i);
    }
    var e := Ext(original);
    if e == "" {
      assert '.' !in token;
      assert token + e == token;
      ExtWithoutDot(token);
    } else {
      ExtOfDottedSuffix(token, e);
    }
  }

  /** A unique name is a plain file name: not empty, no separator, neither "." nor "..". */
  lemma UniqueFilenameIsPlain(uuid: string, original: string)
    requires IsCanonicalUuid(uuid)
    ensures IsPlainName(UniqueFilename(uuid, original))
  {
    var r := UniqueFilename(uuid, original);
    UniqueFilenameShape(uuid, original);
    assert IsLowerHex(r[0]) && IsLowerHex(r[1]);
    assert '/' !in r[..32] by {
      forall i | 0 <= i < 32 ensures r[..32][i] != '/' {
        assert IsLowerHex(r[i]);
      }
    }
    assert r == r[..32] + Ext(original);
  }

  /**
   * GenerateUniqueFilepath (oss/oss.go): without a directory the key is the
   * unique name; with one it never starts with a separator.
   */
  function UniqueFilepath(uuid: string, dir: string, original: string): (key: string)
    ensures dir == "" ==> key == UniqueFilename(uuid, original)
    ensures dir != "" ==> key == "" || key[0] != '/'
  {
    var filename := UniqueFilename(uuid, original);
    var joined := Join(ReplaceChar(dir, '\\', '/'), filename);
    TrimLeftSlashesShape(joined);
    if dir != "" then TrimLeftSlashes(joined)
    else filename
  }

  /** With a directory the key ends with the unique name. */
  lemma UniqueFilepathInDir(uuid: string, dir: string, original: string)
    requires IsCanonicalUuid(uuid) && dir != ""
    ensures HasSuffix(UniqueFilepath(uuid, dir, original), UniqueFilename(uuid, original))
  {
    var filename := UniqueFilename(uuid, original);
    var joined := Join(ReplaceChar(dir, '\\', '/'), filename);
    UniqueFilenameIsPlain(uuid, original);
    JoinEndsWithName(ReplaceChar(dir, '\\', '/'), filename);
    TrimLeftSlashesShape(joined);
    TrimLeftSlashesKeepsSuffix(joined, filename);
  }

  // ---------------------------------------------------------------------
  // UploadFile: the public URL and the error mapping
  // ---------------------------------------------------------------------

  /** What PutObject reports when it fails: an oss.ServiceError, or any other error. */
  datatype PutError = ServiceError(code: string, message: string) | OtherFailure(detail: string)

  datatype UploadError =
    | RegionMismatchDenied(message: string)
    | AccessDenied(message: string)
    | NoSuchBucket(bucket: string, message: string)
    | InvalidAccessKeyId(message: string)
    | InvalidAccessKeySecret(message: string)
    | ClockSkewed(message: string)
    | OssError(code: string, message: string)
    | UploadFailed(detail: string)

  /** The service error codes that get their own explanation. */
  const ExplainedCodes: set<string> :=
    {"AccessDenied", "NoSuchBucket", "InvalidAccessKeyId", "SignatureDoesNotMatch", "RequestTimeTooSkewed"}

  /**
   * The error switch of UploadFile. A service error keeps its message, and
   * its raw code exactly when the code is not an explained one; any other
   * failure becomes the generic upload failure.
   */
  function UploadErrorOf(bucketName: string, err: PutError): (r: UploadError)
    ensures QuotedMessage(r) == if err.ServiceError? then Some(err.message) else None
    ensures r.OssError? <==> err.ServiceError? && err.code !in ExplainedCodes
    ensures r.OssError? ==> r.code == err.code
  {
    match err
    case OtherFailure(detail) => UploadFailed(detail)
    case ServiceError(code, message) =>
      if code == "AccessDenied" then
        if Contains(message, "endpoint") then RegionMismatchDenied(message) else AccessDenied(message)
      else if code == "NoSuchBucket" then NoSuchBucket(bucketName, message)
      else if code == "InvalidAccessKeyId" then InvalidAccessKeyId(message)
      else if code == "SignatureDoesNotMatch" then InvalidAccessKeySecret(message)
      else if code == "RequestTimeTooSkewed" then ClockSkewed(message)
      else OssError(code, message)
  }

  /** The message of the service error every explanation quotes. */
  function QuotedMessage(e: UploadError): Option<string> {
    match e
    case UploadFailed(_) => None
    case RegionMismatchDenied(m) => Some(m)
    case AccessDenied(m) => Some(m)
    case NoSuchBucket(_, m) => Some(m)
    case InvalidAccessKeyId(m) => Some(m)
    case InvalidAccessKeySecret(m) => Some(m)
    case ClockSkewed(m) => Some(m)
    case OssError(_, m) => Some(m)
  }

  /** Any other failure is reported with its own detail, and only such a failure is. */
  lemma UploadErrorKeepsMessage(bucketName: string, err: PutError)
    ensures err.OtherFailure? ==> UploadErrorOf(bucketName, err) == UploadFailed(err.detail)
    ensures UploadErrorOf(bucketName, err).UploadFailed? ==> err.OtherFailure?
  {
  }

  /** An access denial is a region mismatch exactly when its message mentions the endpoint. */
  lemma AccessDeniedSplit(bucketName: string, message: string)
    ensures UploadErrorOf(bucketName, ServiceError("AccessDenied", message)) ==
      if Contains(message, "endpoint") then RegionMismatchDenied(message) else AccessDenied(message)
  {
  }

  /** The public URL of an object: the base URL without trailing separators, '/', the key. */
  function PublicUrl(baseUrl: string, key: string): string {
    TrimRightSlashes(baseUrl) + "/" + key
  }

  /**
   * The result of UploadFile for the outcome of PutObject: a URL that ends
   * with '/' and the key exactly when the upload succeeds, otherwise an error
   * quoting the service's message.
   */
  function UploadResult(c: OssConfig, key: string, put: Option<PutError>): (r: Result<string, UploadError>)
    ensures r.Success? <==> put.None?
    ensures r.Success? ==> HasSuffix(r.value, "/" + key)
    ensures put.Some? && put.value.ServiceError? ==> QuotedMessage(r.error) == Some(put.value.message)
  {
    assert TrimRightSlashes(c.baseUrl) + "/" + key == TrimRightSlashes(c.baseUrl) + ("/" + key);
    match put
    case None => Success(PublicUrl(c.baseUrl, key))
    case Some(err) => Failure(UploadErrorOf(c.bucketName, err))
  }

  /**
   * A public URL is a prefix of the base URL that ends in no separator,
   * exactly one '/', and the key; only separators of the base URL are dropped.
   */
  lemma PublicUrlShape(baseUrl: string, key: string)
    ensures var base := TrimRightSlashes(baseUrl);
      && PublicUrl(baseUrl, key) == base + "/" + key
      && HasPrefix(baseUrl, base)
      && (base == "" || base[|base| - 1] != '/')
      && (forall i :: |base| <= i < |baseUrl| ==> baseUrl[i] == '/')
  {
    TrimRightSlashesShape(baseUrl);
    var base := TrimRightSlashes(baseUrl);
    forall i | |base| <= i < |baseUrl| ensures baseUrl[i] == '/' {
      TrailingCountAll(baseUrl, IsSlash, i);
    }
  }

  // ---------------------------------------------------------------------
  // getContentType / GetContentType
  // ---------------------------------------------------------------------

  /** The fallback table of the content-type switch, for a lower-cased extension. */
  function FallbackContentType(ext: string): (r: string)
    ensures r != ""
  {
    if ext == ".fbx" then "model/fbx"
    else if ext == ".obj" then "model/obj"
    else if ext == ".dae" then "model/vnd.collada+xml"
    else if ext == ".gltf" then "model/gltf+json"
    else if ext == ".glb" then "model/gltf-binary"
    else if ext == ".3ds" then "model/3ds"
    else if ext == ".blend" then "application/x-blender"
    else if ext == ".max" then "application/x-3dsmax"
    else if ext == ".ma" || ext == ".mb" then "application/x-maya"
    else if ext == ".mp4" then "video/mp4"
    else if ext == ".avi" then "video/x-msvideo"
    else if ext == ".mov" then "video/quicktime"
    else "application/octet-stream"
  }

  /**
   * The content type of a file name; `mimeType` stands for
   * mime.TypeByExtension. It is never empty, and a registered type wins.
   */
  function ContentType(mimeType: string -> string, filename: string): (r: string)
    ensures r != ""
    ensures mimeType(Lower(Ext(filename))) != "" ==> r == mimeType(Lower(Ext(filename)))
  {
    var ext := Lower(Ext(filename));
    if mimeType(ext) != "" then mimeType(ext) else FallbackContentType(ext)
  }

  /** Without a registered MIME type the table decides. */
  lemma ContentTypeChoice(mimeType: string -> string, filename: string)
    ensures var ext := Lower(Ext(filename));
      mimeType(ext) == "" ==> ContentType(mimeType, filename) == FallbackContentType(ext)
  {
  }

  /** The content type depends on the extension's letters, not on their case. */
  lemma ContentTypeIgnoresCase(mimeType: string -> string, filename: string)
    ensures ContentType(mimeType, Lower(filename)) == ContentType(mimeType, filename)
  {
    ExtOfLower(filename);
    var e := Ext(filename);
    assert Lower(Lower(e)) == Lower(e);
  }

  /** Without a registered type, the table decides by the lower-cased extension. */
  lemma FallbackByExtension(mimeType: string -> string, stem: string, e: string)
    requires e != [] && e[0] == '.' && '/' !in e && '.' !in e[1..]
    requires mimeType(Lower(e)) == ""
    ensures ContentType(mimeType, stem + e) == FallbackContentType(Lower(e))
  {
    ExtOfDottedSuffix(stem, e);
  }

  /** 3D formats are recognised whatever the case of their extension. */
  lemma ModelContentTypes(mimeType: string -> string, stem: string)
    requires mimeType(".fbx") == "" && mimeType(".mb") == ""
    ensures ContentType(mimeType, stem + ".FBX") == "model/fbx"
    ensures ContentType(mimeType, stem + ".mb") == "application/x-maya"
  {
    assert Lower(".FBX") == ".fbx";
    assert Lower(".mb") == ".mb";
    FallbackByExtension(mimeType, stem, ".FBX");
    FallbackByExtension(mimeType, stem, ".mb");
  }

  // ---------------------------------------------------------------------
  // SetBucketCORS
  // ---------------------------------------------------------------------

  datatype CorsRule = CorsRule(allowedOrigin: seq<string>, allowedMethod: seq<string>, allowedHeader: seq<string>,
                               exposeHeader: seq<string>, maxAgeSeconds: int)

  /** defaultCorsRule */
  const DefaultCorsRule := CorsRule(["*"], ["GET", "HEAD"], ["*"], ["ETag", "Content-Length", "Content-Type"], 86400)

  /** The rules SetBucketCORS hands to the client. */
  function CorsRulesToSet(rules: seq<CorsRule>): (r: seq<CorsRule>)
    ensures r != []
    ensures rules != [] ==> r == rules
    ensures rules == [] ==> r == [DefaultCorsRule]
  {
    if |rules| == 0 then rules + [DefaultCorsRule] else rules
  }
}
