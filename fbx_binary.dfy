/**
 * The binary FBX texture scan (parseBinaryFBXTextures): for every extension
 * of the search list, every offset of the file where that extension occurs
 * (ignoring ASCII case) is taken as the end of a file name; the name starts
 * after the nearest NUL, '\\', '/', '"' or space before it, loses unprintable
 * bytes at both ends and is kept when it is a valid texture file name.
 *
 * The file's bytes are read as characters of the same value (FbxFormat.AsString).
 * Working byte by byte is exact for what the source does on runes: every
 * extension is ASCII, a byte of 128 or more never lowers to ASCII and always
 * decodes to a rune above 126 (or to the replacement rune), so lowering,
 * trimming and the printable test give the same answers on bytes as on runes.
 */
module FbxBinary {
  import opened Wrappers
  import opened Sequences
  import opened GoStrings
  import opened GoPath
  import opened FbxFormat

  // ---------------------------------------------------------------------
  // One candidate.
  // ---------------------------------------------------------------------

  /** The bytes at which the backward search for the start of a name stops. */
  predicate IsNameBoundary(c: char) {
    c == '\0' || c == '\\' || c == '/' || c == '"' || c == ' '
  }

  /** The trimming predicate of the scan: outside printable ASCII. */
  predicate IsUnprintable(c: char) {
    c as int < 32 || c as int > 126
  }

  /** strings.TrimFunc with IsUnprintable. */
  function TrimUnprintable(x: string): string {
    TrimRightWhile(TrimLeftWhile(x, IsUnprintable), IsUnprintable)
  }

  /** The extension `ext` occurs at offset `i`, ignoring ASCII case. */
  predicate MatchAt(s: string, i: nat, ext: string)
    requires i + |ext| <= |s|
  {
    Lower(s[i..i + |ext|]) == ext
  }

  /** Where the name ending at offset `i` starts: step left while the byte before is no boundary. */
  function ScanStart(s: string, i: nat): (r: nat)
    requires i <= |s|
    ensures r <= i
    ensures r == 0 || IsNameBoundary(s[r - 1])
    decreases i
  {
    if i > 0 && !IsNameBoundary(s[i - 1]) then ScanStart(s, i - 1) else i
  }

  /** The bytes the backward search steps over are no boundaries. */
  lemma {:induction false} ScanStartSkipsNoBoundary(s: string, i: nat, k: nat)
    requires i <= |s| && ScanStart(s, i) <= k < i
    ensures !IsNameBoundary(s[k])
    decreases i
  {
    if k < i - 1 {
      ScanStartSkipsNoBoundary(s, i - 1, k);
    }
  }

  /** The first offset from `lo` on, below `hi`, that holds a printable byte (or `hi`). */
  function SkipUnprintable(s: string, lo: nat, hi: nat): (r: nat)
    requires lo <= hi <= |s|
    ensures lo <= r <= hi
    ensures r < hi ==> !IsUnprintable(s[r])
    decreases hi - lo
  {
    if lo < hi && IsUnprintable(s[lo]) then SkipUnprintable(s, lo + 1, hi) else lo
  }

  /** Where the name found by a match at offset `i` starts once trimmed. */
  function NameStart(s: string, i: nat, ext: string): (r: nat)
    requires i + |ext| <= |s|
    ensures ScanStart(s, i) <= r <= i + |ext|
  {
    SkipUnprintable(s, ScanStart(s, i), i + |ext|)
  }

  /**
   * The name that ends where the match at `i` ends, with its unprintable
   * head removed. TrimFunc also trims the tail, but the tail of a match is a
   * letter, so nothing is removed there (TrimMatchedName).
   */
  function Candidate(s: string, i: nat, ext: string): string
    requires i + |ext| <= |s|
  {
    s[NameStart(s, i, ext)..i + |ext|]
  }

  /** The acceptance test: longer than the extension and a valid file name. */
  predicate Accepted(name: string, ext: string) {
    |name| > |ext| && IsValidFileName(name)
  }

  /** What the offset `i` contributes for `ext`, before de-duplication. */
  function PositionFind(s: string, i: nat, ext: string): seq<string> {
    if i + |ext| <= |s| && MatchAt(s, i, ext) && Accepted(Candidate(s, i, ext), ext)
    then [Candidate(s, i, ext)] else []
  }

  /** The shape shared by all extensions of the search list. */
  predicate IsSearchExtension(ext: string) {
    && |ext| >= 4 && ext[0] == '.'
    && '/' !in ext && '.' !in ext[1..]
    && 'a' <= ext[|ext| - 1] <= 'z'
  }

  lemma SearchExtensionsShape(k: nat)
    requires k < |BinaryScanExtensions|
    ensures IsSearchExtension(BinaryScanExtensions[k])
  {
  }

  /** A match of a search extension ends with a printable byte. */
  lemma MatchEndsPrintable(s: string, i: nat, ext: string)
    requires i + |ext| <= |s| && IsSearchExtension(ext) && MatchAt(s, i, ext)
    ensures !IsUnprintable(s[i + |ext| - 1])
  {
    assert Lower(s[i..i + |ext|])[|ext| - 1] == LowerChar(s[i + |ext| - 1]);
  }

  /** TrimLeftFunc on a slice skips exactly the unprintable head. */
  lemma {:induction false} LeadingUnprintable(s: string, lo: nat, hi: nat)
    requires lo <= hi <= |s|
    ensures LeadingCount(s[lo..hi], IsUnprintable) == SkipUnprintable(s, lo, hi) - lo
    decreases hi - lo
  {
    if lo < hi {
      assert s[lo..hi][0] == s[lo];
      if IsUnprintable(s[lo]) {
        assert s[lo..hi][1..] == s[lo + 1..hi];
        LeadingUnprintable(s, lo + 1, hi);
      }
    }
  }

  /** Trimming both ends of the scanned text gives the candidate when the text ends printable. */
  lemma TrimMatchedName(s: string, i: nat, ext: string)
    requires i + |ext| <= |s| && ext != [] && !IsUnprintable(s[i + |ext| - 1])
    ensures TrimUnprintable(s[ScanStart(s, i)..i + |ext|]) == Candidate(s, i, ext)
  {
    var lo, hi := ScanStart(s, i), i + |ext|;
    LeadingUnprintable(s, lo, hi);
    var left := TrimLeftWhile(s[lo..hi], IsUnprintable);
    assert left == s[NameStart(s, i, ext)..hi];
    if left != [] {
      assert left[|left| - 1] == s[hi - 1];
    }
    TrimRightNothing(left, IsUnprintable);
  }

  // ---------------------------------------------------------------------
  // The whole scan.
  // ---------------------------------------------------------------------

  /**
   * The number of offsets examined for `ext`: the loop runs while
   * i < len(content) - len(ext), so a match that ends at the last byte is
   * never examined.
   */
  function Bound(s: string, ext: string): (n: nat)
    ensures n == 0 || n + |ext| == |s|
    ensures n + |ext| <= |s| || n == 0
  {
    if |s| > |ext| then |s| - |ext| else 0
  }

  /** The finds for `ext` at the offsets below `n`, in offset order. */
  function ExtFinds(s: string, ext: string, n: nat): seq<string> {
    ConcatUpTo(i => PositionFind(s, i, ext), n)
  }

  /** The finds for one extension. */
  function ExtScan(s: string, ext: string): seq<string> {
    ExtFinds(s, ext, Bound(s, ext))
  }

  /** The finds for a list of extensions, extension by extension. */
  function AllFinds(s: string, exts: seq<string>): seq<string> {
    if exts == [] then [] else AllFinds(s, exts[..|exts| - 1]) + ExtScan(s, exts[|exts| - 1])
  }

  /** The result of the binary scan when reading succeeds: each name once. */
  function BinaryTextures(content: seq<byte>): (r: seq<string>)
    ensures NoDuplicates(r)
  {
    DedupNoDuplicates(AllFinds(AsString(content), BinaryScanExtensions));
    Dedup(AllFinds(AsString(content), BinaryScanExtensions))
  }

  // ---------------------------------------------------------------------
  // The scan as the source performs it.
  // ---------------------------------------------------------------------

  /** The backward search loop. */
  method BackScan(s: string, i: nat) returns (start: nat)
    requires i <= |s|
    ensures start == ScanStart(s, i)
  {
    start := i;
    while start > 0 && !IsNameBoundary(s[start - 1])
      invariant start <= i
      invariant ScanStart(s, start) == ScanStart(s, i)
    {
      start := start - 1;
    }
  }

  /** The acceptance test as the source evaluates it, short-circuiting on the length. */
  method AcceptName(name: string, ext: string) returns (ok: bool)
    ensures ok == Accepted(name, ext)
  {
    ok := false;
    if |name| > |ext| {
      ok := CheckFileName(name);
    }
  }

  /** The body of the offset loop for offset `i`. */
  method ConsiderOffset(s: string, i: nat, ext: string, textures: seq<string>, seen: set<string>, ghost found: seq<string>)
    returns (textures': seq<string>, seen': set<string>, ghost found': seq<string>)
    requires i + |ext| <= |s| && IsSearchExtension(ext)
    requires Collected(textures, seen, found)
    ensures found' == found + PositionFind(s, i, ext) && Collected(textures', seen', found')
  {
    textures', seen', found' := textures, seen, found;
    if Lower(s[i..i + |ext|]) == ext {
      var start := BackScan(s, i);
      var fileName := TrimUnprintable(s[start..i + |ext|]);
      MatchEndsPrintable(s, i, ext);
      TrimMatchedName(s, i, ext);
      var ok := AcceptName(fileName, ext);
      if ok {
        textures', seen' := AddUnique(textures, seen, found, fileName);
        found' := found + [fileName];
      }
    }
  }

  /** The offset loop for one extension. */
  method ScanExtension(s: string, ext: string, textures: seq<string>, seen: set<string>, ghost found: seq<string>)
    returns (textures': seq<string>, seen': set<string>, ghost found': seq<string>)
    requires IsSearchExtension(ext)
    requires Collected(textures, seen, found)
    ensures found' == found + ExtScan(s, ext) && Collected(textures', seen', found')
  {
    textures', seen', found' := textures, seen, found;
    var i := 0;
    while i + |ext| < |s|
      invariant i <= Bound(s, ext)
      invariant found' == found + ExtFinds(s, ext, i)
      invariant Collected(textures', seen', found')
    {
      textures', seen', found' := ScanStep(s, ext, i, textures', seen', found, found');
      i := i + 1;
    }
    assert i == Bound(s, ext);
  }

  /** One turn of the offset loop, stated against the finds so far. */
  method ScanStep(s: string, ext: string, i: nat, textures: seq<string>, seen: set<string>,
                  ghost start: seq<string>, ghost found: seq<string>)
    returns (textures': seq<string>, seen': set<string>, ghost found': seq<string>)
    requires i < Bound(s, ext) && found == start + ExtFinds(s, ext, i) && IsSearchExtension(ext)
    requires Collected(textures, seen, found)
    ensures found' == start + ExtFinds(s, ext, i + 1) && Collected(textures', seen', found')
  {
    textures', seen', found' := ConsiderOffset(s, i, ext, textures, seen, found);
    assert ExtFinds(s, ext, i + 1) == ExtFinds(s, ext, i) + PositionFind(s, i, ext);
    AppendThree(start, ExtFinds(s, ext, i), PositionFind(s, i, ext));
  }

  lemma AllFindsSnoc(s: string, exts: seq<string>, e: nat)
    requires e < |exts|
    ensures AllFinds(s, exts[..e + 1]) == AllFinds(s, exts[..e]) + ExtScan(s, exts[e])
  {
    assert exts[..e + 1][..e] == exts[..e];
  }

  /**
   * parseBinaryFBXTextures over the file's bytes; `readFailed` stands for
   * io.ReadAll reporting an error.
   */
  method ParseBinaryTextures(content: seq<byte>, readFailed: bool) returns (r: Result<seq<string>, ParseError>)
    ensures r == if readFailed then Failure(BinaryReadFailed) else Success(BinaryTextures(content))
  {
    if readFailed {
      return Failure(BinaryReadFailed);
    }
    var s := AsString(content);
    var textures: seq<string> := [];
    var seen: set<string> := {};
    ghost var found: seq<string> := [];
    var e := 0;
    while e < |BinaryScanExtensions|
      invariant e <= |BinaryScanExtensions|
      invariant found == AllFinds(s, BinaryScanExtensions[..e])
      invariant Collected(textures, seen, found)
    {
      SearchExtensionsShape(e);
      textures, seen, found := ScanExtension(s, BinaryScanExtensions[e], textures, seen, found);
      AllFindsSnoc(s, BinaryScanExtensions, e);
      e := e + 1;
    }
    assert BinaryScanExtensions[..e] == BinaryScanExtensions;
    return Success(textures);
  }

  // ---------------------------------------------------------------------
  // Properties.
  // ---------------------------------------------------------------------

  /** A candidate is at most as long as the scanned text and ends with the matched bytes. */
  lemma CandidateEndsWithMatch(s: string, i: nat, ext: string)
    requires i + |ext| <= |s|
    ensures |Candidate(s, i, ext)| <= i + |ext| - ScanStart(s, i)
    ensures |Candidate(s, i, ext)| >= |ext| ==>
      Candidate(s, i, ext)[|Candidate(s, i, ext)| - |ext|..] == s[i..i + |ext|]
  {
  }

  /** Whatever the scan finds for a list of extensions comes from some examined offset. */
  lemma {:induction false} FoundAt(s: string, exts: seq<string>, x: string) returns (k: nat, i: nat)
    requires x in AllFinds(s, exts)
    ensures k < |exts| && i + |exts[k]| < |s| && x in PositionFind(s, i, exts[k])
    decreases |exts|
  {
    var init := exts[..|exts| - 1];
    var ext := exts[|exts| - 1];
    if x in AllFinds(s, init) {
      k, i := FoundAt(s, init, x);
    } else {
      k := |exts| - 1;
      i := FoundInExtFinds(s, ext, Bound(s, ext), x);
    }
  }

  lemma FoundInExtFinds(s: string, ext: string, n: nat, x: string) returns (i: nat)
    requires n <= Bound(s, ext) && x in ExtFinds(s, ext, n)
    ensures i < n && i + |ext| < |s| && x in PositionFind(s, i, ext)
  {
    i := ConcatUpToMember(i => PositionFind(s, i, ext), n, x);
  }

  /** A find at offset `i` is the accepted candidate of a match there. */
  lemma PositionFindMember(s: string, i: nat, ext: string, x: string)
    requires i + |ext| <= |s| && x in PositionFind(s, i, ext)
    ensures MatchAt(s, i, ext) && x == Candidate(s, i, ext) && Accepted(x, ext)
  {
  }

  /** Lower-casing never produces a '.' or a '/' from anything else. */
  lemma LowerKeepsPunctuation(c: char)
    ensures LowerChar(c) == '.' <==> c == '.'
    ensures LowerChar(c) == '/' <==> c == '/'
  {
  }

  /** A text that lower-cases to a search extension has the same dots and slashes. */
  lemma MatchedSuffixShape(r: string, ext: string)
    requires IsSearchExtension(ext) && Lower(r) == ext
    ensures r[0] == '.' && '/' !in r && '.' !in r[1..]
  {
    forall k | 0 <= k < |r|
      ensures (r[k] == '.' <==> ext[k] == '.') && (r[k] == '/' <==> ext[k] == '/')
    {
      assert Lower(r)[k] == LowerChar(r[k]);
      LowerKeepsPunctuation(r[k]);
    }
    assert '.' !in r[1..] by {
      forall k | 1 <= k < |r| ensures r[k] != '.' {
        assert ext[k] == ext[1..][k - 1];
      }
    }
  }

  /** A suffix that lower-cases to a search extension is the file name's extension. */
  lemma ExtOfMatchedSuffix(x: string, ext: string)
    requires IsSearchExtension(ext) && |x| >= |ext| && Lower(x[|x| - |ext|..]) == ext
    ensures Lower(Ext(x)) == ext
  {
    var r := x[|x| - |ext|..];
    MatchedSuffixShape(r, ext);
    assert x == x[..|x| - |ext|] + r;
    ExtOfDottedSuffix(x[..|x| - |ext|], r);
  }

  /** A name the scan finds ends, up to case, with the search extension that found it. */
  lemma FoundName(s: string, x: string) returns (k: nat)
    requires x in AllFinds(s, BinaryScanExtensions)
    ensures k < |BinaryScanExtensions| && IsSearchExtension(BinaryScanExtensions[k])
    ensures |x| > |BinaryScanExtensions[k]| && IsValidFileName(x) && |x| < |s|
    ensures Lower(x[|x| - |BinaryScanExtensions[k]|..]) == BinaryScanExtensions[k]
  {
    k := FoundNameIn(s, BinaryScanExtensions, x);
    SearchExtensionsShape(k);
  }

  /** A valid name shorter than the text that ends, up to case, with `ext`. */
  predicate FoundFor(s: string, x: string, ext: string) {
    |x| > |ext| && IsValidFileName(x) && |x| < |s| && Lower(x[|x| - |ext|..]) == ext
  }

  /** FoundName for any list of extensions. */
  lemma FoundNameIn(s: string, exts: seq<string>, x: string) returns (k: nat)
    requires x in AllFinds(s, exts)
    ensures k < |exts| && FoundFor(s, x, exts[k])
  {
    var i;
    k, i := FoundAt(s, exts, x);
    FindEndsWithMatch(s, i, exts[k], x);
  }

  /** A find at offset `i` is a valid name shorter than the text, ending with the bytes matched there. */
  lemma FindEndsWithMatch(s: string, i: nat, ext: string, x: string)
    requires i + |ext| < |s| && x in PositionFind(s, i, ext)
    ensures FoundFor(s, x, ext)
  {
    PositionFindMember(s, i, ext, x);
    CandidateEndsWithMatch(s, i, ext);
  }

  lemma ReportedName(content: seq<byte>, x: string) returns (k: nat)
    requires x in BinaryTextures(content)
    ensures k < |BinaryScanExtensions| && IsSearchExtension(BinaryScanExtensions[k])
    ensures |x| > |BinaryScanExtensions[k]| && IsValidFileName(x) && |x| < |content|
    ensures Lower(x[|x| - |BinaryScanExtensions[k]|..]) == BinaryScanExtensions[k]
  {
    DedupMembership(AllFinds(AsString(content), BinaryScanExtensions), x);
    k := FoundName(AsString(content), x);
  }

  /**
   * Every reported name is a valid file name (5 to 255 printable ASCII
   * characters, a '.', a texture extension), is shorter than the file, and is
   * longer than an extension of the search list that it ends with, up to case.
   */
  lemma BinaryTexturesAreValid(content: seq<byte>, x: string)
    requires x in BinaryTextures(content)
    ensures IsValidFileName(x) && |x| < |content|
    ensures exists k :: (0 <= k < |BinaryScanExtensions| && |x| > |BinaryScanExtensions[k]|
      && Lower(x[|x| - |BinaryScanExtensions[k]|..]) == BinaryScanExtensions[k])
  {
    var k := ReportedName(content, x);
  }

  /** The extension of every reported name is one the scan searches for, so never ".webp". */
  lemma BinaryTexturesHaveSearchedExtension(content: seq<byte>, x: string)
    requires x in BinaryTextures(content)
    ensures Lower(Ext(x)) in BinaryScanExtensions && Lower(Ext(x)) != ".webp"
  {
    var k := ReportedName(content, x);
    ExtOfMatchedSuffix(x, BinaryScanExtensions[k]);
    SearchListMember(k);
  }

  /** An extension of the search list is in it, and is not ".webp". */
  lemma SearchListMember(k: nat)
    requires k < |BinaryScanExtensions|
    ensures BinaryScanExtensions[k] in BinaryScanExtensions && BinaryScanExtensions[k] != ".webp"
  {
    BinaryScanExtensionsAreTextures();
  }

  /** Names are reported in the order of their first find: by extension, then by offset. */
  lemma BinaryTexturesOrder(content: seq<byte>, i: nat, j: nat)
    requires i < j < |BinaryTextures(content)|
    ensures BinaryTextures(content)[i] in AllFinds(AsString(content), BinaryScanExtensions)
    ensures BinaryTextures(content)[j] in AllFinds(AsString(content), BinaryScanExtensions)
    ensures FirstIndex(AllFinds(AsString(content), BinaryScanExtensions), BinaryTextures(content)[i])
          < FirstIndex(AllFinds(AsString(content), BinaryScanExtensions), BinaryTextures(content)[j])
  {
    DedupFirstOccurrenceOrder(AllFinds(AsString(content), BinaryScanExtensions), i, j);
  }

  /** A file of five bytes or fewer yields no names. */
  lemma ShortContentHasNoTextures(content: seq<byte>)
    requires |content| <= 5
    ensures BinaryTextures(content) == []
  {
    if BinaryTextures(content) != [] {
      BinaryTexturesAreValid(content, BinaryTextures(content)[0]);
    }
  }

  // The last byte of the file is never read.

  lemma {:induction false} ScanStartAgree(s: string, t: string, i: nat)
    requires i <= |s| && i <= |t| && s[..i] == t[..i]
    ensures ScanStart(s, i) == ScanStart(t, i)
    decreases i
  {
    if i > 0 {
      assert s[i - 1] == s[..i][i - 1] && t[i - 1] == t[..i][i - 1];
      assert s[..i - 1] == s[..i][..i - 1] && t[..i - 1] == t[..i][..i - 1];
      ScanStartAgree(s, t, i - 1);
    }
  }

  lemma {:induction false} SkipUnprintableAgree(s: string, t: string, lo: nat, hi: nat)
    requires lo <= hi <= |s| && hi <= |t| && s[..hi] == t[..hi]
    ensures SkipUnprintable(s, lo, hi) == SkipUnprintable(t, lo, hi)
    decreases hi - lo
  {
    if lo < hi {
      assert s[lo] == s[..hi][lo] && t[lo] == t[..hi][lo];
      SkipUnprintableAgree(s, t, lo + 1, hi);
    }
  }

  lemma CandidateAgree(s: string, t: string, i: nat, ext: string)
    requires i + |ext| <= |s| && i + |ext| <= |t| && s[..i + |ext|] == t[..i + |ext|]
    ensures MatchAt(s, i, ext) == MatchAt(t, i, ext)
    ensures Candidate(s, i, ext) == Candidate(t, i, ext)
  {
    var n := i + |ext|;
    assert s[..i] == s[..n][..i] && t[..i] == t[..n][..i];
    ScanStartAgree(s, t, i);
    SkipUnprintableAgree(s, t, ScanStart(s, i), n);
    var lo := NameStart(s, i, ext);
    assert s[i..n] == s[..n][i..] && t[i..n] == t[..n][i..];
    assert s[lo..n] == s[..n][lo..] && t[lo..n] == t[..n][lo..];
  }

  /** What an offset contributes depends on the bytes up to the end of the match only. */
  lemma PositionFindAgree(s: string, t: string, i: nat, ext: string)
    requires i + |ext| <= |s| && i + |ext| <= |t| && s[..i + |ext|] == t[..i + |ext|]
    ensures PositionFind(s, i, ext) == PositionFind(t, i, ext)
  {
    CandidateAgree(s, t, i, ext);
  }

  lemma ExtFindsAgree(s: string, t: string, ext: string, n: nat)
    requires |s| == |t| > 0 && s[..|s| - 1] == t[..|t| - 1] && n <= Bound(s, ext)
    ensures ExtFinds(s, ext, n) == ExtFinds(t, ext, n)
  {
    forall i | 0 <= i < n
      ensures PositionFind(s, i, ext) == PositionFind(t, i, ext)
    {
      var m := i + |ext|;
      assert s[..m] == s[..|s| - 1][..m] && t[..m] == t[..|t| - 1][..m];
      PositionFindAgree(s, t, i, ext);
    }
    ConcatUpToAgree(i => PositionFind(s, i, ext), i => PositionFind(t, i, ext), n);
  }

  lemma ExtScanAgree(s: string, t: string, ext: string)
    requires |s| == |t| > 0 && s[..|s| - 1] == t[..|t| - 1]
    ensures ExtScan(s, ext) == ExtScan(t, ext)
  {
    var n := Bound(s, ext);
    assert n == Bound(t, ext);
    ExtFindsAgree(s, t, ext, n);
    assert ExtScan(s, ext) == ExtFinds(s, ext, n);
    assert ExtScan(t, ext) == ExtFinds(t, ext, n);
  }

  lemma {:induction false} AllFindsAgree(s: string, t: string, exts: seq<string>)
    requires |s| == |t| > 0 && s[..|s| - 1] == t[..|t| - 1]
    ensures AllFinds(s, exts) == AllFinds(t, exts)
    decreases |exts|
  {
    if exts != [] {
      AllFindsAgree(s, t, exts[..|exts| - 1]);
      ExtScanAgree(s, t, exts[|exts| - 1]);
    }
  }

  /**
   * Replacing the last byte changes nothing: the offset bound keeps every
   * examined match, and everything before it, strictly inside the file.
   */
  lemma LastByteIgnored(content: seq<byte>, b: byte)
    requires |content| > 0
    ensures BinaryTextures(content[..|content| - 1] + [b]) == BinaryTextures(content)
  {
    var other := content[..|content| - 1] + [b];
    var s := AsString(content);
    var t := AsString(other);
    assert s[..|s| - 1] == t[..|t| - 1];
    AllFindsAgree(s, t, BinaryScanExtensions);
  }
}
