# A Dafny model of the core of nuominmin/biz

This project models the core of the Go repository nuominmin/biz and proves properties of the model:

- **FBX texture-reference discovery** of the parser package:
  - the header sniff;
  - the ASCII line scanner with its three triggers;
  - the binary extension scanner;
  - the filter that keeps the textures an FBX file refers to.
- **The upload service's ExtractAndSaveModel3D.** It uploads every entry of a model archive and sorts the uploads into the model URL and the texture mappings. Beside it sit the service's small pure helpers.
- **The OSS rules:**
  - configuration validation;
  - object keys made from a UUID;
  - public URLs;
  - the upload-error mapping;
  - the content-type table;
  - the default CORS rule.
- **The bounded top-N heap**, as a class over a sequence with in-place `Add` and sift-down.
- **Page requests and their options**, as a class whose methods overwrite the page and the page size.
- **The static file server:**
  - the request path;
  - the path check, a string-prefix test of the cleaned file path against the cleaned root;
  - the SPA fallback rule;
  - the answer;
  - the cache header.
- **The client-IP header precedence.**
- **The two bearer-token middlewares.**

Modules follow the source:

| module | file | models |
|---|---|---|
| `Wrappers` | wrappers.dfy | Option and Result |
| `Sequences` | sequences.dfy | the membership search, de-duplication, multiset count and concatenation helpers |
| `GoStrings` | gostrings.dfy | the `strings` functions the code calls, with ASCII case folding |
| `GoPath` | gopath.dfy | `filepath.Ext`, `filepath.Base`, `path.Clean` and `path.Join` on Unix paths |
| `FbxFormat` | fbx_format.dfy | extension tables, `isTextureFile`, `isValidFileName` |
| `FbxAscii` | fbx_ascii.dfy | `parseASCIIFBXTextures` |
| `FbxBinary` | fbx_binary.dfy | `parseBinaryFBXTextures` |
| `FbxParser` | fbx_parser.dfy | `ParseTextureReferences`, `FilterTexturesByFBX` |
| `ObjectStorage` | storage.dfy | oss/oss.go and the shared rules of upload/oss.go |
| `UploadService` | upload_service.dfy | upload/service.go, AddDomain/RemoveDomain and UploadFile of upload/oss.go |
| `TopNHeap` | topnheap.dfy | queues/topnheap |
| `Pagination` | pagination.dfy | pagination |
| `StaticServer` | static_server.dfy | krs/server/static.go |
| `ClientIp` | client_ip.dfy | krs/middleware/request.go |
| `TokenAuth` | token_auth.dfy | both token.go files |

Loops in the source are modelled as Dafny methods with loop invariants. Each method is proved equal to a specification function, and the properties are proved about that function. The source loops modelled this way are:

- the ASCII line loop;
- the binary scan over extensions, offsets and the back-scan;
- the reconciler's nested loops;
- both passes of ExtractAndSaveModel3D;
- `newOptions`;
- the heap's sift-down.

The heap and the page request are classes whose methods update their fields.

Foreign calls are parameters of the model:

- `mime.TypeByExtension`;
- `url.Parse`;
- `net.ParseIP` and `net.SplitHostPort`;
- `uuid.New`;
- `os.Stat` and `os.ReadFile`;
- the upload collaborator and the outcome of `PutObject`.

## Model

| member | source | states |
|---|---|---|
| FbxFormat.AsString | parser/fbx_parser.go:196 | `string(content)` keeps one character per byte |
| FbxFormat.CheckFileName | parser/fbx_parser.go:323-343 | the length check, the '.' check, the printable-character loop and the texture test together decide `IsValidFileName` |
| FbxFormat.ModelAndTextureExtensionsDisjoint | parser/fbx_parser.go:281-308 | no extension is both a model and a texture format |
| FbxFormat.BinaryScanExtensionsAreTextures | parser/fbx_parser.go:194 | every searched extension is a texture extension; ".webp" is accepted by isTextureFile but never searched for |
| FbxFormat.IsTextureFileIgnoresCase | parser/fbx_parser.go:312-320 | the texture test ignores letter case |
| FbxFormat.IsTextureFile | parser/fbx_parser.go:312-320 | a texture file name has a non-empty extension |
| FbxFormat.IsValidFileName | parser/fbx_parser.go:323-343 | a valid file name holds a '.' and is a texture file name |
| FbxParser.HeaderBuffer | parser/fbx_parser.go:45-46 | the 23-byte header holds the file's first bytes, zero-padded |
| FbxParser.ParseTextureReferences | parser/fbx_parser.go:37-62 | the open failure, the header-read failure, and the binary or ASCII scan chosen by the header |
| FbxParser.BinaryHeaderIff | parser/fbx_parser.go:55 | binary mode is chosen exactly when the file starts with "Kaydara FBX Binary" |
| FbxParser.ShortFileIsAscii | parser/fbx_parser.go:45-61 | a non-empty file shorter than the magic text is parsed as ASCII |
| FbxParser.EmptyFileFails | parser/fbx_parser.go:46-49 | an empty file fails on the header read |
| FbxParser.BinaryReferencesAreValid | parser/fbx_parser.go:55-57 | names from a binary file are valid file names with a searched extension |
| FbxParser.TextureReferences | parser/fbx_parser.go:37-62 | the open failure is reported exactly when opening fails, the header-read failure exactly for an empty file that opens, and a successful parse never reports a name twice |
| FbxParser.FindReference | parser/fbx_parser.go:268-274 | the inner loop finds a match exactly when some reference matches, ignoring case and directories |
| FbxParser.FilterTexturesByFbx | parser/fbx_parser.go:255-278 | the result is the reconciliation of the available list with the parse result |
| FbxParser.ReferencedMembership | parser/fbx_parser.go:266-275 | an entry is kept exactly when it is available and referenced |
| FbxParser.ReferencedAppend | parser/fbx_parser.go:267 | the selection keeps the available list's order (it distributes over concatenation) |
| FbxParser.ReferencedCount | parser/fbx_parser.go:267-273 | a referenced entry is kept as often as it is available, because of the break after the first match |
| FbxParser.Reconcile | parser/fbx_parser.go:255-278 | the parse error is passed on exactly when parsing fails, with the available list unchanged; the filtered list is never longer than the available one |
| FbxParser.Referenced | parser/fbx_parser.go:266-275 | the selection is never longer than the available list |
| FbxParser.ReconcileWithoutReferences | parser/fbx_parser.go:261-264 | with no references the available list is returned unchanged |
| FbxParser.ReconcileSelects | parser/fbx_parser.go:266-277 | with references, an entry is kept exactly when its base name equals a reference or that reference's base name, ignoring case |
| FbxParser.MatchIgnoresCaseAndDirectory | parser/fbx_parser.go:269-270 | an entry matches a reference to the same name under another directory and in another case |
| FbxAscii.DropCR | parser/fbx_parser.go:69-73 | the line scanner drops one trailing carriage return |
| FbxAscii.ScanLinesNoNewline | parser/fbx_parser.go:69-73 | no scanned line holds a newline |
| FbxAscii.ScanLinesOfTerminated | parser/fbx_parser.go:69-73 | scanning newline-terminated lines gives them back |
| FbxAscii.QuotedTextSpan | parser/fbx_parser.go:103-107 | quoted text lies between the first quote and a distinct last quote |
| FbxAscii.QuotedTextNone | parser/fbx_parser.go:104-106 | there is no quoted text exactly when the line holds fewer than two quotes |
| FbxAscii.QuotedTextOf | parser/fbx_parser.go:103-107 | the text between a quote-free prefix and a quote-free suffix is extracted |
| FbxAscii.PathName | parser/fbx_parser.go:109 | the base name after replacing '\\' by '/' is non-empty and has no separators (or is "/") |
| FbxAscii.PathNameOfWindowsPath | parser/fbx_parser.go:109 | the directories of a Windows-style path are dropped |
| FbxAscii.Advance | parser/fbx_parser.go:130 | the scan always moves forward |
| FbxAscii.VisitsContinue | parser/fbx_parser.go:73 | after an examined line the scan goes on from the line it advances to |
| FbxAscii.ShadingConsumesNextLine | parser/fbx_parser.go:120-131 | the line after a shading-channel key is never examined as a line of its own |
| FbxAscii.VisitsEveryFreeLine | parser/fbx_parser.go:73-170 | every line not consumed by a shading key is examined |
| FbxAscii.AsciiTexturesMembership | parser/fbx_parser.go:73-176 | a name is reported exactly when some examined line contributes it |
| FbxAscii.AsciiTexturesOrder | parser/fbx_parser.go:110-113 | names are listed once each, in the order the scan first meets them |
| FbxAscii.AsciiTextures | parser/fbx_parser.go:110-113 | names are listed once each, and each is one the line scan found |
| FbxAscii.FlagsNeedOpeningLine | parser/fbx_parser.go:77-96 | without a Model:+Texture or Model:+Material line the flags stay cleared and Filename: lines contribute nothing |
| FbxAscii.FilenameTakesPathName | parser/fbx_parser.go:96-113 | inside a block a Filename: line contributes the base name of its quoted path |
| FbxAscii.ConnectKeepsQuotedText | parser/fbx_parser.go:150-164 | a Connect: part contributes its quoted text verbatim, without taking a base name |
| FbxAscii.RecordFilename | parser/fbx_parser.go:96-117 | the Filename: trigger appends its finds to the de-duplicated list |
| FbxAscii.RecordShading | parser/fbx_parser.go:130-146 | the shading trigger appends the quoted base name of the next line when it holds a '.' |
| FbxAscii.RecordPart | parser/fbx_parser.go:154-167 | one Connect: part appends its quoted text when it is a texture file |
| FbxAscii.RecordParts | parser/fbx_parser.go:152-168 | the parts are handled in turn |
| FbxAscii.RecordConnect | parser/fbx_parser.go:150-169 | the Connect: trigger |
| FbxAscii.RecordLine | parser/fbx_parser.go:96-169 | one content line runs the three triggers and reports whether it consumed the next line |
| FbxAscii.BlockLineStep | parser/fbx_parser.go:77-93 | a block line only changes the flags |
| FbxAscii.ContentLineStep | parser/fbx_parser.go:96-169 | any other line contributes its finds and keeps the flags |
| FbxAscii.ParseAsciiTextures | parser/fbx_parser.go:65-177 | the scan fails on a scanner error, and otherwise returns the de-duplicated finds in discovery order |
| FbxBinary.ScanStart | parser/fbx_parser.go:202-206 | the back-scan stops at offset 0 or after a boundary byte |
| FbxBinary.ScanStartSkipsNoBoundary | parser/fbx_parser.go:203-204 | the back-scan steps only over non-boundary bytes |
| FbxBinary.SkipUnprintable | parser/fbx_parser.go:211-213 | the left trim stops at the first printable byte |
| FbxBinary.TrimMatchedName | parser/fbx_parser.go:209-213 | trimming the scanned text gives the candidate name, because a match ends printable |
| FbxBinary.SearchExtensionsShape | parser/fbx_parser.go:194 | every searched extension is a '.' followed by lower-case letters |
| FbxBinary.Bound | parser/fbx_parser.go:199 | offsets run below `len(content)-len(ext)` |
| FbxBinary.BackScan | parser/fbx_parser.go:202-206 | the back-scan loop computes ScanStart |
| FbxBinary.AcceptName | parser/fbx_parser.go:216 | the acceptance test, short-circuiting on the length |
| FbxBinary.ConsiderOffset | parser/fbx_parser.go:200-219 | one offset appends its accepted candidate to the de-duplicated list |
| FbxBinary.ScanExtension | parser/fbx_parser.go:199-221 | the offset loop for one extension |
| FbxBinary.ParseBinaryTextures | parser/fbx_parser.go:180-225 | a read error fails; otherwise the de-duplicated finds by extension, then by offset |
| FbxBinary.PositionFindMember | parser/fbx_parser.go:200-218 | a find is the accepted candidate of a case-insensitive match |
| FbxBinary.ReportedName | parser/fbx_parser.go:209-216 | a reported name is longer than its extension, valid, shorter than the content, and ends with the extension up to case |
| FbxBinary.BinaryTexturesAreValid | parser/fbx_parser.go:209-216 | every reported name is valid and longer than the extension that found it |
| FbxBinary.BinaryTexturesHaveSearchedExtension | parser/fbx_parser.go:194 | every reported extension is a searched one, so never ".webp" |
| FbxBinary.BinaryTextures | parser/fbx_parser.go:216-218 | each name is reported once |
| FbxBinary.BinaryTexturesOrder | parser/fbx_parser.go:197-221 | names come in the order of their first find |
| FbxBinary.ShortContentHasNoTextures | parser/fbx_parser.go:199-216 | a file of five bytes or fewer yields no names |
| FbxBinary.LastByteIgnored | parser/fbx_parser.go:199 | the last byte never affects the result, so a match ending at the last byte is missed |
| ObjectStorage.ValidateOssConfig | oss/oss.go:58-81 | a configuration is accepted exactly when all five fields are set and the base URL contains the endpoint; a reported error names a rule the configuration breaks |
| ObjectStorage.ValidateOssConfigFirstFailure | oss/oss.go:59-78 | no rule checked before the reported one is broken |
| ObjectStorage.ValidateOssConfigRejectsBroken | upload/oss.go:63-86 | every broken configuration is rejected, with a rule checked no later |
| ObjectStorage.UuidWithoutDashes | upload/service.go:146 | a canonical UUID without its dashes is its 32 hex digits |
| ObjectStorage.UniqueFilenameShape | upload/service.go:144-148 | the name is a 32-hex-digit token followed by `filepath.Ext(original)` in its original case |
| ObjectStorage.UniqueFilename | upload/service.go:144-148 | the name ends with `filepath.Ext(original)` and holds no '-' before it |
| ObjectStorage.UniqueFilenameIsPlain | oss/oss.go:150-152 | a unique name is a plain file name |
| ObjectStorage.UniqueFilepath | oss/oss.go:149-160 | without a directory the key is the unique name; with one it does not start with '/' |
| ObjectStorage.UniqueFilepathInDir | oss/oss.go:154-159 | with a directory the key ends with the unique name |
| ObjectStorage.UploadErrorKeepsMessage | oss/oss.go:97-119 | a non-service error gives the generic upload failure, and only a non-service error does |
| ObjectStorage.UploadErrorOf | oss/oss.go:97-119 | the service message is kept exactly for service errors; an OSS error carrying its code is given exactly for codes without an explanation |
| ObjectStorage.UploadResult | oss/oss.go:96-124 | the upload succeeds exactly when PutObject does, at a URL ending in '/' and the key; a service error keeps its message |
| ObjectStorage.AccessDeniedSplit | upload/oss.go:110-114 | AccessDenied is a region mismatch exactly when its message mentions "endpoint" |
| ObjectStorage.PublicUrlShape | oss/oss.go:122-124 | the URL is the base URL without trailing '/', one '/', and the key |
| ObjectStorage.ContentTypeChoice | oss/oss.go:164-202 | without a registered MIME type the table entry of the lower-cased extension decides |
| ObjectStorage.ContentType | oss/oss.go:164-202 | the registered MIME type of the lower-cased extension wins, and the result is never empty |
| ObjectStorage.ContentTypeIgnoresCase | oss/oss.go:165 | the content type does not depend on the case of the extension |
| ObjectStorage.FallbackByExtension | upload/service.go:209-247 | without a registered type the lower-cased extension selects the table entry |
| ObjectStorage.ModelContentTypes | oss/oss.go:174-191 | ".FBX" gives model/fbx and ".mb" gives application/x-maya |
| ObjectStorage.CorsRulesToSet | upload/oss.go:175-181 | no rules means exactly the default rule; given rules are passed on |
| UploadService.NewService | upload/service.go:38-44 | the host loses its trailing '/' only and the directory is kept |
| UploadService.AddDomainToUrl | upload/service.go:189-206 | the result is empty exactly for an empty path; a relative path follows the host without trailing '/' and one '/' |
| UploadService.RemoveDomainFromUrl | upload/service.go:151-185 | a URL is changed only when it is absolute, parses, and has the known host or a local one, and it then becomes its path part |
| UploadService.JoinPath | upload/service.go:133-140 | a key never starts with '/' |
| UploadService.JoinPathEndsWithName | upload/service.go:137 | the key of a plain name ends with that name |
| UploadService.AddDomainKeepsAbsolute | upload/service.go:189-197 | "" and http(s) URLs come back unchanged, in both services |
| UploadService.AddDomainJoinsOnce | upload/service.go:199-205 | otherwise: the host without trailing '/', one '/', and the path without one leading '/' |
| UploadService.OssAddDomainToUrl | upload/oss.go:224-247 | the OSS variant is the local rule with the base URL as host |
| UploadService.AddDomainIdempotent | upload/service.go:189-206 | with an absolute host, adding the domain twice adds it once |
| UploadService.RemoveDomainKeepsRelative | upload/service.go:151-166 | "", relative paths and unparsable URLs come back unchanged |
| UploadService.RemoveDomainKeepsForeign | upload/service.go:168-185 | a URL neither of the known host nor local comes back unchanged |
| UploadService.RemoveDomainUndoesAdd | upload/service.go:151-206 | removing the domain undoes adding it, leaving the rooted path, when url.Parse gives back a known host and the rooted path with no query or fragment |
| UploadService.OssUploadFileUrl | upload/oss.go:89-132 | a successful upload is published at the base URL plus '/' plus a key that starts with no '/' |
| UploadService.OssUploadFileError | upload/oss.go:104-128 | a failed upload reports the mapped error |
| UploadService.OssUploadFile | upload/oss.go:89-132 | the upload succeeds exactly when PutObject does, at a URL ending in '/' and the joined key |
| UploadService.FindFbxEntry | upload/service.go:277-292 | the first pass finds the first non-directory ".fbx" entry that extracts, or reports none |
| UploadService.Outcomes | upload/service.go:308-334 | one upload outcome per entry |
| UploadService.UploadEntry | upload/service.go:308-346 | one loop turn: a skipped entry changes nothing, an uploaded one is classified |
| UploadService.SecondPassNext | upload/service.go:308 | the second pass over one more entry is one more classification step |
| UploadService.UploadAll | upload/service.go:308-347 | the second-pass loop computes the second pass over all entries |
| UploadService.ParseModelTextures | upload/service.go:294-305 | the references are those of the first extracted FBX entry, none when there is no such entry, and a parse failure implies there was one |
| UploadService.ExtractAndSaveModel3D | upload/service.go:250-355 | the whole operation equals ExtractResult |
| UploadService.ExtractResult | upload/service.go:250-355 | a failing zip open, then a failing temporary directory, fail first; a success has a non-empty model URL, the first non-empty model upload, and the uploaded textures as mappings |
| UploadService.FirstNonEmpty | upload/service.go:337-339 | the first non-empty URL, "" exactly when there is none |
| UploadService.SecondPassCollects | upload/service.go:315-346 | the mappings are the uploaded texture entries in archive order, duplicates kept; the model URL is the first non-empty model upload |
| UploadService.ClassifyEffect | upload/service.go:337-346 | a texture adds a mapping; a model sets the URL only when none is set yet |
| UploadService.Classify | upload/service.go:337-346 | at most one mapping is added, for the entry, and the model URL is set only when none is set yet |
| UploadService.NoModelIff | upload/service.go:349-352 | the archive is rejected for lack of a model exactly when no model entry was uploaded to a non-empty URL |
| UploadService.FirstModelUpload | upload/service.go:337-339 | with non-empty URLs, the model URL is that of the first model upload; later ones are lost |
| UploadService.OutcomeUrlsNonEmpty | upload/service.go:330-333 | an upload that never returns "" gives every uploaded entry a non-empty URL |
| UploadService.EntryOutcomeUploads | upload/service.go:310-334 | an entry is uploaded exactly when it is a file that opens and whose upload succeeds, under a unique name made from its base name |
| UploadService.EntryOutcome | upload/service.go:308-334 | an uploaded entry is a file that opens, recorded under its base name and extension |
| UploadService.TextureUploadMember | upload/service.go:340-345 | every mapping is the base name and URL of an uploaded texture entry |
| UploadService.TextureUploadsCount | upload/service.go:340-345 | every uploaded texture entry gets one mapping of its own, so mappings are never merged |
| TopNHeap.TopNHeap.New | queues/topnheap/topnheap.go:24-29 | a new heap is empty and has the given capacity |
| TopNHeap.TopNHeap.LessAt | queues/topnheap/topnheap.go:32 | Less on positions is the items' Less |
| TopNHeap.TopNHeap.Swap | queues/topnheap/topnheap.go:33 | exchanges two positions |
| TopNHeap.TopNHeap.Push | queues/topnheap/topnheap.go:34-40 | appends the item |
| TopNHeap.TopNHeap.Pop | queues/topnheap/topnheap.go:41-46 | removes and returns the last item |
| TopNHeap.TopNHeap.SiftDown | queues/topnheap/topnheap.go:57-58 | the sift-down loop `heap.Fix` runs computes `Down` |
| TopNHeap.TopNHeap.Fix | queues/topnheap/topnheap.go:58 | heap.Fix at the root |
| TopNHeap.TopNHeap.Add | queues/topnheap/topnheap.go:49-59 | the new contents are `Added` of the old, and the size stays within the capacity |
| TopNHeap.TopNHeap.SortedDesc | queues/topnheap/topnheap.go:62-69 | a permutation of the contents, descending under a strict order; the heap is unchanged |
| TopNHeap.TopNHeap.First | queues/topnheap/topnheap.go:72-78 | the root, or nothing for an empty heap |
| TopNHeap.TopNHeap.Size | queues/topnheap/topnheap.go:80-82 | the number of items |
| TopNHeap.SmallerChild | queues/topnheap/topnheap.go:32 | the sift-down goes to the left child, or to the right one only when that is strictly less |
| TopNHeap.DownStep | queues/topnheap/topnheap.go:58 | one exchange of the sift-down |
| TopNHeap.Down | queues/topnheap/topnheap.go:31-33 | the sift-down keeps the length and only rearranges the items |
| TopNHeap.DownKeepsPrefix | queues/topnheap/topnheap.go:58 | positions before the start stay as they were |
| TopNHeap.DownStopsAtOrderedRoot | queues/topnheap/topnheap.go:58 | a root that is not greater than its children stays |
| TopNHeap.ReplaceRootContents | queues/topnheap/topnheap.go:57-58 | replacing the root and fixing trades the old root for the item and keeps the size |
| TopNHeap.Added | queues/topnheap/topnheap.go:49-59 | the size stays within the capacity; the fill phase appends and keeps the rest; a full heap ignores an item less than the root; otherwise the size is kept and the old root is traded for the item |
| TopNHeap.AddedAllSize | queues/topnheap/topnheap_test.go:28-41 | the size never exceeds the capacity, and reaches it after enough adds |
| TopNHeap.KeepsNotTopThree | queues/topnheap/topnheap.go:48-56 | capacity 3 and adds 5, 1, 9, 7 end with [1, 7, 9], not the top three |
| TopNHeap.InsertDesc | queues/topnheap/topnheap.go:65-67 | insertion adds exactly the item |
| TopNHeap.InsertDescSorted | queues/topnheap/topnheap.go:65-67 | insertion keeps a descending list descending |
| TopNHeap.SortDesc | queues/topnheap/topnheap.go:63-67 | sorting keeps the items |
| TopNHeap.SortDescSorted | queues/topnheap/topnheap.go:65-67 | the sorted list is descending under a strict order |
| Pagination.Apply | pagination/option.go:22-33 | WithDefaultPageSize changes only the default, WithMaxPageSize only the maximum |
| Pagination.NewOptions | pagination/option.go:10-19 | the defaults with the options applied left to right |
| Pagination.ApplyAllSnoc | pagination/option.go:15-17 | a further option overrides only its own field |
| Pagination.ApplyAll | pagination/option.go:15-17 | each field ends with the value of its last setter, or keeps its default |
| Pagination.NoOptionsAreDefaults | pagination/option.go:10-14 | no options give default 20 and maximum 500 |
| Pagination.SanitizedPage | pagination/pagination.go:22-24 | 0 becomes 1; a page of at least 1 is kept |
| Pagination.SanitizedPageSize | pagination/pagination.go:27-36 | 0 becomes the default, above the maximum the maximum, anything else stays |
| Pagination.DefaultSanitizeBounds | pagination/pagination.go:4-37 | with default options the page is at least 1 and the page size between 1 and 500 |
| Pagination.SanitizeIdempotent | pagination/pagination.go:19-37 | sanitizing twice is sanitizing once when the default lies within 1 and the maximum |
| Pagination.SanitizeNotIdempotentWhenDefaultExceedsMax | pagination/pagination.go:27-36 | with default 50 and maximum 10, a second Sanitize changes the page size again |
| Pagination.OffsetOf | pagination/pagination.go:45 | without wrap-around, the offset is the number of items on the earlier pages, one page short of page times page size; page 0 gives 2^64 minus the page size |
| Pagination.OffsetWrapsAround | pagination/pagination.go:45 | uint arithmetic wraps: page 2^63+1 of 2 items gives offset 0 |
| Pagination.PageReq.constructor | pagination/pagination.go:13-16 | a request holds its page and page size |
| Pagination.PageReq.Sanitize | pagination/pagination.go:19-37 | the fields become the sanitized page and page size under the options |
| Pagination.PageReq.Offset | pagination/pagination.go:40-46 | sanitizes with defaults only when a field is 0, then returns the wrapped offset; a page size above 500 is kept otherwise |
| Pagination.PageReq.Default | pagination/pagination.go:48-51 | page 1 and page size 20 |
| Sequences.Listed | krs/server/static.go:179-183 | the search loop finds exactly the listed items; the static-extension loop and the ignore loop of krs/middleware/token/token.go:51-56 are both this search |
| StaticServer.ShouldFallbackToIndex | krs/server/static.go:174-191 | a path falls back exactly when its lower-cased extension is not static and it is not under "assets/" |
| StaticServer.RoutesFallBack | krs/server/static.go:190 | extensionless route paths fall back |
| StaticServer.AssetFilesDoNotFallBack | krs/server/static.go:176-183 | a static extension in any case never falls back |
| StaticServer.AssetsDoNotFallBack | krs/server/static.go:186-188 | nothing under "assets/" falls back; "Assets/" is not covered |
| StaticServer.RequestPath | krs/server/static.go:75-80 | one leading '/' is removed and an empty path becomes "index.html" |
| StaticServer.RequestPathCases | krs/server/static.go:75-80 | "" and "/" ask for index.html, "/x" for x |
| StaticServer.CacheControl | krs/server/static.go:160-164 | "no-cache" exactly when the file path contains "index.html" |
| StaticServer.ContentTypeOf | krs/server/static.go:152-156 | the MIME type of the extension, or application/octet-stream; never empty |
| StaticServer.PathsOf | krs/server/static.go:75-91 | the request path, the joined file path, both index paths and the path check |
| StaticServer.ServeStaticFile | krs/server/static.go:75-164 | corrected: 403 exactly when the cleaned file path does not start with the cleaned root (a string-prefix test, so a sibling directory such as dist2/ passes); a served file has a content type and one of the two cache values |
| StaticServer.ServeStaticFileAsWritten | krs/server/static.go:75-164 | as written: 403 exactly when the cleaned file path does not start with the cleaned root (a string-prefix test, so a sibling directory such as dist2/ passes); wherever it differs from the corrected handler it answers 500 and the corrected one serves the root's index.html |
| StaticServer.VersionsAgreeElsewhere | krs/server/static.go:101-149 | as written and corrected differ only on a missing route path with an index.html present |
| StaticServer.SpaFallbackFailsAsWritten | krs/server/static.go:101-127 | as written, a missing route path with an index.html present is answered with 500 |
| StaticServer.SpaFallbackServesIndex | krs/server/static.go:105-111 | corrected, the same request is answered with index.html, uncached |
| StaticServer.MissingAssetIsNotFound | krs/server/static.go:118-121 | a missing static asset is 404 |
| StaticServer.ReadAndServe | krs/server/static.go:142-164 | a read failure is 500; a served file has a content type and one of the two cache values |
| StaticServer.Answer | krs/server/static.go:91-164 | corrected: 403 exactly when the cleaned file path does not start with the cleaned root (a string-prefix test, so a sibling directory such as dist2/ passes); a served file has a content type and one of the two cache values |
| StaticServer.AnswerInside | krs/server/static.go:100-164 | when the prefix check passes the answer is never 403, and a served file has a content type and a cache value |
| StaticServer.AnswerMissing | krs/server/static.go:103-122 | corrected: a missing file is answered with 404 or with the root index.html read and served |
| StaticServer.AnswerAsWritten | krs/server/static.go:91-164 | as written: 403 exactly when the cleaned file path does not start with the cleaned root (a string-prefix test, so a sibling directory such as dist2/ passes), a missing file always fails, and a served file has a content type and a cache value |
| StaticServer.JoinedIndexMentionsIndex | krs/server/static.go:132 | a path joined with index.html mentions index.html |
| StaticServer.IndexPathsMentionIndex | krs/server/static.go:108-132 | both index paths mention index.html |
| StaticServer.RootIsNotCached | krs/server/static.go:130-164 | whatever answers the site root is not cached |
| StaticServer.RootRequestPaths | krs/server/static.go:75-85 | a request for "" or "/" asks for index.html under the root |
| StaticServer.ServeSpaRouteAsWritten | krs/server/static.go:101-127 | as written, a request for a missing route path gets 500 whenever index.html exists |
| StaticServer.ServeSpaRoute | krs/server/static.go:105-164 | corrected, it gets index.html under the root, uncached |
| StaticServer.ServeRootNotCached | krs/server/static.go:78-161 | the answer to "/" is never cached |
| StaticServer.DashboardFallback | krs/server/static.go:101-127 | for root "dist" and "/dashboard" with an index.html present, the handler as written answers 500 and the corrected one serves dist/index.html |
| StaticServer.SiblingDirectoryPasses | krs/server/static.go:85-96 | a request that climbs into a sibling directory whose name extends the root's name is joined outside the root, yet passes the prefix check in both handlers and is not refused |
| StaticServer.DistTwoPasses | krs/server/static.go:85-96 | with the root "dist", a request for "/../dist2/x" is not refused |
| StaticServer.SiblingPassesPathCheck | krs/server/static.go:85-91 | the file path of "../sibling/name" is "sibling/name", outside the root, yet it passes the prefix check when the sibling's name extends the root's |
| ClientIp.ExtractClientIp | krs/middleware/request.go:40-70 | the address is one of the four sources |
| ClientIp.ForwardedForFirst | krs/middleware/request.go:42-50 | a parseable first X-Forwarded-For entry wins |
| ClientIp.LaterForwardedIgnored | krs/middleware/request.go:45-47 | entries after the first comma never matter |
| ClientIp.SameFirstEntrySameIp | krs/middleware/request.go:45-47 | requests that differ only after the first forwarded entry report the same address |
| ClientIp.RealIpSecond | krs/middleware/request.go:53-56 | then a parseable X-Real-IP |
| ClientIp.CloudflareThird | krs/middleware/request.go:59-62 | then a parseable CF-Connecting-IP |
| ClientIp.RemoteAddrLast | krs/middleware/request.go:65-69 | otherwise the host of RemoteAddr, or RemoteAddr when it does not split |
| ClientIp.HeaderValuesParse | krs/middleware/request.go:40-70 | an unparseable answer only ever comes from the remote address |
| TokenAuth.Decide | krs/middleware/token/token.go:47-71 | a request bypasses exactly when it has a transport and a listed operation; an accepted token is what follows "Bearer " in the header |
| TokenAuth.Middleware | krs/middleware/token/token.go:42-83 | a request is rejected exactly when Decide rejects it, with 401 and "missing token" or "invalid token"; no transport is a missing token; an ignored operation reaches the handler unchanged |
| TokenAuth.NoTransportIsMissingToken | krs/middleware/token/token.go:69-71 | no server transport: missing token |
| TokenAuth.IgnoredOperationBypasses | krs/authorization/token/token.go:46-51 | an ignored operation bypasses every check |
| TokenAuth.EmptyHeaderIsMissingToken | krs/middleware/token/token.go:58-61 | an empty Authorization header: missing token |
| TokenAuth.BearerIff | krs/middleware/token/token.go:63-68 | a non-empty header is accepted with token t exactly when it is "Bearer " + t; otherwise the token is invalid |
| TokenAuth.BearerIsExact | krs/authorization/token/token.go:58-61 | "bearer abc" and "Bearer" are invalid |
| TokenAuth.GetToken | krs/middleware/token/token.go:89-94 | succeeds exactly when a string is stored under the key |
| TokenAuth.HandlerSeesToken | krs/middleware/token/token.go:68-80 | an accepted request reaches the handler with the token that GetToken finds; a bypassed one with the context as it was; a rejected one not at all |
| TokenAuth.StoringKeepsOtherKeys | krs/middleware/token/token.go:85-87 | storing the token changes only its own key |
| TokenAuth.TypedKeyIsSeparate | krs/authorization/token/token.go:14-89 | a token under the string key "token" is not found under the typed key, and the other way round |
| TokenAuth.GeneratedTokenShape | krs/middleware/token/token.go:38-40 | the 32 characters of a generated token are lower-case hex digits |
| TokenAuth.GenerateToken | krs/middleware/token/token.go:38-40 | a token holds no '-', and is 32 characters long for a canonical UUID |
| GoPath.Ext | parser/fbx_parser.go:313 | `filepath.Ext` is a suffix that starts with '.' and has no other '.' and no '/' |
| GoPath.ExtOfLower | parser/fbx_parser.go:313 | lower-casing a name lower-cases its extension |
| GoPath.Base | parser/fbx_parser.go:109 | `filepath.Base` is never empty and has no '/', unless it is "/" |
| GoPath.BaseIdempotent | parser/fbx_parser.go:269-270 | taking the base name twice changes nothing |
| GoPath.JoinNoDoubleLeadingSlash | upload/service.go:137 | path.Join never starts with two separators |
| GoPath.JoinUpToSibling | krs/server/static.go:85 | path.Join of a plain directory and "../sibling/name" is "sibling/name" |
| GoPath.CleanOfTwoNames | krs/server/static.go:89 | two plain names joined by one '/' are already clean |

## Left out

- **I/O is not modelled.** This covers opening, reading and seeking files, `bufio.Scanner` buffering, `zip.OpenReader`, temporary files and `os.Remove`. A file is what reading it yields: whether open fails, its bytes, and whether the scanner or `io.ReadAll` fails. A scanner's token-size limit is part of the scanner-failure flag.
- **Header read.** `file.Read` into the 23-byte header is taken to fail only on an empty file (io.EOF), and to read the first bytes in one call otherwise.
- **`ExtractSingleFileFromZip` and `GetFBXInfo` are not modelled.** The first is file copying, which becomes the entry's `extracts` flag. The second re-reads the file and is not called by the core.
- **Local-disk services are not modelled:** `UploadFile`, `SaveFile`, `DownloadFile` and `DeleteFile` of upload/service.go. Uploading is a function from bytes and name to an optional URL.
- **OSS SDK calls are not modelled:** `oss.New`, `Bucket`, `PutObject`, `GetObject`, `DeleteObject` and `client.SetBucketCORS`. Only their outcomes are inputs.
- **Stale calls.** upload/oss.go calls `newService(optFns...)` and a missing `s.getContentType`, and neither matches the code it calls. The model uses the content-type rule of oss/oss.go and the `newService` of upload/service.go.
- **Case folding is ASCII only**, which affects `strings.ToLower` and `strings.EqualFold`. `strings.TrimSpace` trims ASCII white space only.
- **Paths are Unix paths.** On Unix `filepath.ToSlash` is the identity, so joinPath does not convert '\\'. `filepath.HasPrefix` is a plain prefix test.
- **`uuid.New` is a parameter.** The UUID of an archive entry is a function of its position. That brings no bias, since each call draws a fresh UUID.
- UploadService.RemoveDomainUndoesAdd: assumes that `url.Parse` gives back the rooted path with no query or fragment. Go's `url.Parse` breaks the round trip in two cases. It decodes percent-escapes in the path. A bare trailing '?' or '#' is dropped, because upload/service.go:175-180 appends a query or a fragment only when it is non-empty.
- **Texts the code only formats or logs are left out:** error messages (errors are kinds carrying their data), log lines, `fmt.Printf`, and the fixed texts of status bodies.
- **The SDK's other upload options** (ACL, cache control, disposition) are left out.
- **No cleanup is modelled.** The temporary FBX file's removal and the `srcFile` that is not closed on an upload failure only release resources.
- **FbxBinary.ConsiderOffset, FbxBinary.ScanExtension and FbxBinary.ScanStep require `IsSearchExtension`.** They are called only with the fixed list at parser/fbx_parser.go:194.
- **Two parser quirks are kept as written**, because they are fidelity points of the scan rather than failures of it:
  - the binary loop bound misses a match ending at the last byte (FbxBinary.LastByteIgnored);
  - `.webp` is not searched for.
- **TopNHeap.TopNHeap.Add does not promise to keep the top N**, as the comment at queues/topnheap/topnheap.go:48 claims. The fill phase appends without heapifying, so `data[0]` need not be the smallest item. TopNHeap.KeepsNotTopThree exhibits this. No corrected version is proposed: what the authors meant to keep is not evident.
- **TopNHeap.TopNHeap.First returns an Option** instead of Go's (zero value, false).
- **TopNHeap.TopNHeap.SortedDesc sorts by insertion sort.** It promises a permutation that is descending under a strict order. It does not promise the order `sort.Slice` gives to equivalent items, which Go leaves unspecified.
- **TopNHeap.TopNHeap.Push carries no type assertion.** Dafny's typing makes the panic at queues/topnheap/topnheap.go:36-38 impossible.
- **TopNHeap.TopNHeap.New requires a non-negative capacity**, since `make` panics on a negative one. TopNHeap.TopNHeap.Add requires a positive capacity, since with capacity 0 it indexes an empty slice.
- TopNHeap.TopNHeap.Pop: requires a non-empty heap, where Go panics on indexing an empty slice (queues/topnheap/topnheap.go:42-44); `container/heap` never pops an empty heap.
- TopNHeap.TopNHeap.Swap: requires both positions in range, where Go panics on an out-of-range index (queues/topnheap/topnheap.go:33).
- TopNHeap.TopNHeap.LessAt: requires both positions in range, where Go panics on an out-of-range index (queues/topnheap/topnheap.go:32).
- **Pagination: `uint` is 64 bits.** `uint` is modelled as an unsigned 64-bit integer, its size on 64-bit platforms.
- **Handler chaining is left out.** Both token middlewares reassign the captured handler with `handler = m[i](handler)` (krs/middleware/token/token.go:76-78). That is closure behaviour across requests. The handler is a function of the context it is called with.
- **Constructors of the token services are not modelled separately.** `NewService` and `NewServiceWithContextKey` of krs/middleware/token only choose the string key ("token" or a given one). The key is a parameter of TokenAuth.Middleware.
- **The JWT middlewares are not part of this model.** Signing and verification belong to golang-jwt. Their header checks repeat the token model.
- **Plumbing is left out.** This covers StaticServerWithConfig, StaticServer, the ClientIP filter and middleware, and the other HTTP handlers and response types.
- **`os.Stat`, `os.ReadFile` and `mime.TypeByExtension` are parameters** of StaticServer.
- StaticServer.InsideRoot: keeps the prefix test of krs/server/static.go:88-91 as written. It compares strings, so with the root "dist" the file path "dist2/x" (from the request "/../dist2/x") passes, although the comment at line 87 says the check guards against path traversal (StaticServer.SiblingDirectoryPasses, StaticServer.DistTwoPasses). No element-wise check is proposed in its place, because the intended treatment of roots such as "." (where `filepath.Join` drops the "./") is not evident.
- **StaticServer.DashboardFallback is stated over the request's computed paths**, written out as a value, rather than over PathsOf("dist", "/dashboard").
- **`net.ParseIP` and `net.SplitHostPort` are parameters** of ClientIp.
- **CAPTCHA is not part of this model.**

## Findings

| source | as written | input that shows it | evidently intended | confidence | as-written member | corrected member |
|---|---|---|---|---|---|---|
| krs/server/static.go:101-127 | when the requested file does not exist and the path should fall back, finding index.html only sets `filePath`; control then leaves the `os.IsNotExist` branch and reaches the 500 answer at lines 124-127, still inside `if err != nil` | root "dist" with dist/index.html present and no dist/dashboard; a request for "/dashboard" | serve dist/index.html (uncached), as the comments at lines 105-106 and 110 describe | not executed | StaticServer.ServeStaticFileAsWritten, with StaticServer.ServeSpaRouteAsWritten and StaticServer.DashboardFallback | StaticServer.ServeStaticFile, with StaticServer.ServeSpaRoute and StaticServer.SpaFallbackServesIndex |
