/**
 * The entry points of the FBX parser: ParseTextureReferences, which sniffs
 * the header and hands the file to the binary or the ASCII scan, and
 * FilterTexturesByFBX, which keeps the available textures an FBX file refers to.
 *
 * A file is described by what reading it yields: whether opening it fails,
 * its bytes, and whether the line scanner or io.ReadAll reports an error.
 */
module FbxParser {
  import opened Wrappers
  import opened Sequences
  import opened GoStrings
  import opened GoPath
  import opened FbxFormat
  import opened FbxAscii
  import opened FbxBinary

  datatype FbxFile = FbxFile(openFails: bool, content: seq<byte>, scanFails: bool, readAllFails: bool)

  /** The size of the header buffer ParseTextureReferences reads into. */
  const HeaderSize := 23

  /** The prefix that marks a binary FBX file. */
  const BinaryMagic := "Kaydara FBX Binary"

  /**
   * The 23-byte buffer after one file.Read: the first bytes of the file, and
   * zero bytes where the file is shorter than the buffer.
   */
  function HeaderBuffer(content: seq<byte>): (h: string)
    ensures |h| == HeaderSize
    ensures forall i :: 0 <= i < |h| ==> h[i] == if i < |content| then content[i] as int as char else '\0'
  {
    var n := if |content| < HeaderSize then |content| else HeaderSize;
    AsString(content[..n]) + seq(HeaderSize - n, _ => '\0')
  }

  predicate IsBinaryHeader(header: string) {
    HasPrefix(header, BinaryMagic)
  }

  /**
   * The parse result: an open failure, a failed header read (file.Read
   * reports io.EOF on an empty file), or the result of the scan the header
   * selects.
   */
  function TextureReferences(file: FbxFile): (r: Result<seq<string>, ParseError>)
    ensures r == Failure(OpenFailed) <==> file.openFails
    ensures r == Failure(HeaderReadFailed) <==> !file.openFails && |file.content| == 0
    ensures r.Success? ==> NoDuplicates(r.value)
  {
    if file.openFails then Failure(OpenFailed)
    else if |file.content| == 0 then Failure(HeaderReadFailed)
    else if IsBinaryHeader(HeaderBuffer(file.content)) then
      if file.readAllFails then Failure(BinaryReadFailed) else Success(BinaryTextures(file.content))
    else if file.scanFails then Failure(ScanFailed)
    else Success(AsciiTextures(ScanLines(AsString(file.content))))
  }

  /** ParseTextureReferences */
  method ParseTextureReferences(file: FbxFile) returns (r: Result<seq<string>, ParseError>)
    ensures r == TextureReferences(file)
  {
    if file.openFails {
      return Failure(OpenFailed);
    }
    if |file.content| == 0 {
      return Failure(HeaderReadFailed);
    }
    var header := HeaderBuffer(file.content);
    if HasPrefix(header, BinaryMagic) {
      r := ParseBinaryTextures(file.content, file.readAllFails);
    } else {
      r := ParseAsciiTextures(ScanLines(AsString(file.content)), file.scanFails);
    }
  }

  /**
   * Binary mode is chosen exactly when the file starts with the magic text:
   * the zero bytes that pad a short header never complete it.
   */
  lemma BinaryHeaderIff(content: seq<byte>)
    ensures IsBinaryHeader(HeaderBuffer(content)) <==> HasPrefix(AsString(content), BinaryMagic)
  {
    var h := HeaderBuffer(content);
    var s := AsString(content);
    if |content| >= |BinaryMagic| {
      assert h[..|BinaryMagic|] == s[..|BinaryMagic|];
    } else {
      assert h[|content|] == '\0' != BinaryMagic[|content|];
    }
  }

  /** A non-empty file shorter than the magic text is parsed as ASCII. */
  lemma ShortFileIsAscii(file: FbxFile)
    requires !file.openFails && 0 < |file.content| < |BinaryMagic|
    ensures TextureReferences(file) == if file.scanFails then Failure(ScanFailed)
                                       else Success(AsciiTextures(ScanLines(AsString(file.content))))
  {
    BinaryHeaderIff(file.content);
  }

  /** An empty file that opens fails on the header read, whatever follows. */
  lemma EmptyFileFails(file: FbxFile)
    requires !file.openFails && file.content == []
    ensures TextureReferences(file) == Failure(HeaderReadFailed)
  {
  }

  /** A successful parse of a binary file reports only valid texture names. */
  lemma BinaryReferencesAreValid(file: FbxFile, x: string)
    requires TextureReferences(file).Success? && HasPrefix(AsString(file.content), BinaryMagic)
    requires x in TextureReferences(file).value
    ensures IsValidFileName(x) && Lower(Ext(x)) in BinaryScanExtensions
  {
    BinaryHeaderIff(file.content);
    BinaryTexturesAreValid(file.content, x);
    BinaryTexturesHaveSearchedExtension(file.content, x);
  }

  // ---------------------------------------------------------------------
  // FilterTexturesByFBX
  // ---------------------------------------------------------------------

  /** The inner loop's test: the base name of `available` equals a reference or its base name, ignoring case. */
  predicate MatchesReference(available: string, required: string) {
    EqualFold(Base(available), required) || EqualFold(Base(available), Base(required))
  }

  predicate IsReferenced(available: string, required: seq<string>) {
    exists j :: 0 <= j < |required| && MatchesReference(available, required[j])
  }

  /** The available textures a non-empty reference list selects, in their order. */
  function Referenced(available: seq<string>, required: seq<string>): (r: seq<string>)
    ensures |r| <= |available|
  {
    if available == [] then []
    else
      var init := Referenced(available[..|available| - 1], required);
      var a := available[|available| - 1];
      if IsReferenced(a, required) then init + [a] else init
  }

  /**
   * What FilterTexturesByFBX returns for a parse result: on an error the
   * available list and the error, on an empty reference list the available
   * list, otherwise the referenced textures.
   */
  function Reconcile(available: seq<string>, parsed: Result<seq<string>, ParseError>): (r: (seq<string>, Option<ParseError>))
    ensures r.1 == if parsed.Failure? then Some(parsed.error) else None
    ensures parsed.Failure? ==> r.0 == available
    ensures |r.0| <= |available|
  {
    match parsed
    case Failure(e) => (available, Some(e))
    case Success(required) => (if required == [] then available else Referenced(available, required), None)
  }

  /** The inner loop over the references, leaving at the first match. */
  method FindReference(available: string, required: seq<string>) returns (found: bool)
    ensures found == IsReferenced(available, required)
  {
    var j := 0;
    while j < |required|
      invariant j <= |required|
      invariant forall m :: 0 <= m < j ==> !MatchesReference(available, required[m])
    {
      if MatchesReference(available, required[j]) {
        ReferencedByOne(available, required, j);
        return true;
      }
      j := j + 1;
    }
    ReferencedByNone(available, required);
    return false;
  }

  /** One matching reference is enough. */
  lemma ReferencedByOne(available: string, required: seq<string>, j: nat)
    requires j < |required| && MatchesReference(available, required[j])
    ensures IsReferenced(available, required)
  {
  }

  /** Without a matching reference the entry is not referenced. */
  lemma ReferencedByNone(available: string, required: seq<string>)
    requires forall m :: 0 <= m < |required| ==> !MatchesReference(available, required[m])
    ensures !IsReferenced(available, required)
  {
  }

  /** FilterTexturesByFBX */
  method FilterTexturesByFbx(file: FbxFile, available: seq<string>) returns (filtered: seq<string>, err: Option<ParseError>)
    ensures (filtered, err) == Reconcile(available, TextureReferences(file))
  {
    var parsed := ParseTextureReferences(file);
    if parsed.Failure? {
      return available, Some(parsed.error);
    }
    var required := parsed.value;
    if |required| == 0 {
      return available, None;
    }
    filtered := [];
    var i := 0;
    while i < |available|
      invariant i <= |available|
      invariant filtered == Referenced(available[..i], required)
    {
      var hit := FindReference(available[i], required);
      assert available[..i + 1][..i] == available[..i];
      if hit {
        filtered := filtered + [available[i]];
      }
      i := i + 1;
    }
    assert available[..i] == available;
    err := None;
  }

  /** The selection keeps exactly the referenced entries. */
  lemma {:induction false} ReferencedMembership(available: seq<string>, required: seq<string>, x: string)
    ensures x in Referenced(available, required) <==> x in available && IsReferenced(x, required)
    decreases |available|
  {
    if available != [] {
      var init := available[..|available| - 1];
      var last := available[|available| - 1];
      assert available == init + [last];
      ReferencedMembership(init, required, x);
      var r := Referenced(init, required);
      if IsReferenced(last, required) {
        assert Referenced(available, required) == r + [last];
      } else {
        assert Referenced(available, required) == r;
      }
      assert x in available <==> x in init || x == last;
    }
  }

  /** The selection keeps the order of the available list: it distributes over concatenation. */
  lemma {:induction false} ReferencedAppend(a: seq<string>, b: seq<string>, required: seq<string>)
    ensures Referenced(a + b, required) == Referenced(a, required) + Referenced(b, required)
    decreases |b|
  {
    if b == [] {
      assert a + b == a;
    } else {
      var binit := b[..|b| - 1];
      assert (a + b)[..|a + b| - 1] == a + binit;
      ReferencedAppend(a, binit, required);
    }
  }

  /** Every referenced entry is kept as often as it is available, the others never. */
  lemma {:induction false} ReferencedCount(available: seq<string>, required: seq<string>, x: string)
    ensures Count(Referenced(available, required), x) == if IsReferenced(x, required) then Count(available, x) else 0
    decreases |available|
  {
    if available != [] {
      var init := available[..|available| - 1];
      assert available == init + [available[|available| - 1]];
      ReferencedCount(init, required, x);
    }
  }

  /** An FBX file without references keeps every available texture. */
  lemma ReconcileWithoutReferences(file: FbxFile, available: seq<string>)
    requires TextureReferences(file) == Success([])
    ensures Reconcile(available, TextureReferences(file)) == (available, None)
  {
  }

  /** With references, an entry is kept exactly when its base name matches one of them, ignoring case. */
  lemma ReconcileSelects(available: seq<string>, required: seq<string>, x: string)
    requires required != []
    ensures x in Reconcile(available, Success(required)).0 <==>
      x in available && exists j :: 0 <= j < |required| && MatchesReference(x, required[j])
  {
    ReferencedMembership(available, required, x);
  }

  /** Directories and case never matter: an entry is selected by a reference to the same name elsewhere. */
  lemma MatchIgnoresCaseAndDirectory(dir: string, name: string, refDir: string, refName: string)
    requires name != "" && '/' !in name && refName != "" && '/' !in refName
    requires Lower(name) == Lower(refName)
    ensures MatchesReference(dir + "/" + name, refDir + "/" + refName)
  {
    BaseAfterSlash(dir, name);
    BaseAfterSlash(refDir, refName);
  }
}
