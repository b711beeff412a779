/**
 * The ASCII FBX texture scan (parseASCIIFBXTextures): a line-by-line state
 * machine with two block flags and three extraction triggers, all feeding
 * one ordered list without duplicates.
 */
module FbxAscii {
  import opened Wrappers
  import opened Sequences
  import opened GoStrings
  import opened GoPath
  import opened FbxFormat

  // ---------------------------------------------------------------------
  // The lines a bufio.Scanner with ScanLines yields.
  // ---------------------------------------------------------------------

  /** One trailing carriage return is dropped from every line. */
  function DropCR(line: string): (r: string)
    ensures |r| <= |line| && r == line[..|r|]
    ensures |line| > 0 && line[|line| - 1] == '\r' ==> line == r + "\r"
    ensures !(|line| > 0 && line[|line| - 1] == '\r') ==> r == line
  {
    if |line| > 0 && line[|line| - 1] == '\r' then line[..|line| - 1] else line
  }

  /**
   * The tokens of bufio.ScanLines: the text between newlines, each without
   * one trailing '\r'; a final empty piece after the last newline is no line.
   */
  function ScanLines(content: string): seq<string> {
    var pieces := SplitOn(content, '\n');
    var tokens := if pieces[|pieces| - 1] == "" then pieces[..|pieces| - 1] else pieces;
    seq(|tokens|, k requires 0 <= k < |tokens| => DropCR(tokens[k]))
  }

  /** No scanned line holds a newline. */
  lemma ScanLinesNoNewline(content: string, k: nat)
    requires k < |ScanLines(content)|
    ensures '\n' !in ScanLines(content)[k]
  {
    var t := SplitOn(content, '\n')[k];
    SplitOnPieces(content, '\n', k);
    assert ScanLines(content)[k] == DropCR(t);
    assert forall m :: 0 <= m < |DropCR(t)| ==> DropCR(t)[m] == t[m];
  }

  /** Lines written out, each followed by a newline. */
  function Terminated(lines: seq<string>): string {
    if lines == [] then ""
    else Terminated(lines[..|lines| - 1]) + lines[|lines| - 1] + "\n"
  }

  lemma {:induction false} SplitTerminated(lines: seq<string>, tail: string)
    requires forall k :: 0 <= k < |lines| ==> '\n' !in lines[k]
    requires '\n' !in tail
    ensures SplitOn(Terminated(lines) + tail, '\n') == lines + [tail]
    decreases |lines|
  {
    if lines == [] {
      assert Terminated(lines) + tail == tail;
    } else {
      var init := lines[..|lines| - 1];
      var last := lines[|lines| - 1];
      SplitTerminated(init, last);
      SplitOnSnoc(Terminated(init) + last, '\n', tail);
      assert Terminated(lines) + tail == (Terminated(init) + last) + ['\n'] + tail;
      assert init + [last] == lines;
    }
  }

  /** Scanning newline-terminated lines without carriage returns gives them back. */
  lemma ScanLinesOfTerminated(lines: seq<string>)
    requires forall k :: 0 <= k < |lines| ==> '\n' !in lines[k]
    requires forall k :: 0 <= k < |lines| ==> lines[k] == [] || lines[k][|lines[k]| - 1] != '\r'
    ensures ScanLines(Terminated(lines)) == lines
  {
    var content := Terminated(lines);
    assert SplitOn(content, '\n') == lines + [""] by {
      SplitTerminated(lines, "");
      assert content + "" == content;
    }
    assert (lines + [""])[..|lines|] == lines;
    forall k | 0 <= k < |lines|
      ensures DropCR(lines[k]) == lines[k]
    {
    }
  }

  // ---------------------------------------------------------------------
  // Line classification.
  // ---------------------------------------------------------------------

  /** The two flags of the scan. */
  datatype BlockState = BlockState(inTexture: bool, inMaterial: bool)

  const Outside := BlockState(false, false)

  predicate OpensTexture(line: string) {
    Contains(line, "Model:") && Contains(line, "Texture")
  }

  predicate OpensMaterial(line: string) {
    Contains(line, "Model:") && Contains(line, "Material")
  }

  /** Any trimmed line that starts with '}' leaves the current block. */
  predicate ClosesBlock(line: string) {
    HasPrefix(line, "}")
  }

  /** A line that only changes the flags and is otherwise skipped. */
  predicate IsBlockLine(line: string) {
    OpensTexture(line) || OpensMaterial(line) || ClosesBlock(line)
  }

  predicate HasFilenameKey(line: string) {
    Contains(line, "RelativeFilename:") || Contains(line, "Filename:") || Contains(line, "FileName:")
  }

  /** The Properties70 shading-channel keys. */
  predicate HasShadingKey(line: string) {
    || Contains(line, "DiffuseColor")
    || Contains(line, "BaseColor")
    || Contains(line, "NormalMap")
    || Contains(line, "SpecularColor")
    || Contains(line, "EmissiveColor")
    || Contains(line, "Bump")
    || Contains(line, "DisplacementColor")
    || Contains(line, "TransparencyFactor")
    || Contains(line, "ReflectionColor")
  }

  predicate HasConnectKey(line: string) {
    Contains(line, "Connect:") && Contains(line, "Texture")
  }

  /** How the flags change on a line. */
  function NextState(line: string, b: BlockState): BlockState {
    if OpensTexture(line) then b.(inTexture := true)
    else if OpensMaterial(line) then b.(inMaterial := true)
    else if ClosesBlock(line) then Outside
    else b
  }

  // ---------------------------------------------------------------------
  // Extraction.
  // ---------------------------------------------------------------------

  /** `v` is the text between the first quote (at `i`) and the last quote of `line`. */
  predicate QuotedSpan(line: string, i: int, v: string) {
    && 0 <= i && i + |v| + 1 < |line|
    && line[i] == '"' && line[i + 1..i + 1 + |v|] == v && line[i + 1 + |v|] == '"'
    && '"' !in line[..i] && '"' !in line[i + |v| + 2..]
  }

  /** The text between the first and the last '"', when there are two quotes. */
  function QuotedText(line: string): Option<string> {
    var start := IndexOf(line, '"');
    if start == -1 then None
    else
      var end := LastIndexOf(line, '"');
      if end > start then Some(line[start + 1..end]) else None
  }

  /** Quoted text lies between the first quote and the last one, which are distinct. */
  lemma QuotedTextSpan(line: string)
    requires QuotedText(line).Some?
    ensures QuotedSpan(line, IndexOf(line, '"'), QuotedText(line).value)
  {
    var start := IndexOf(line, '"');
    var end := LastIndexOf(line, '"');
    assert line[start + 1..end] == line[start + 1..start + 1 + (end - start - 1)];
  }

  /** There is no quoted text exactly when the line holds fewer than two quotes. */
  lemma QuotedTextNone(line: string, i: nat, j: nat)
    requires QuotedText(line).None? && i < j < |line| && line[i] == '"'
    ensures line[j] != '"'
  {
    IndexOfAtMost(line, '"', i);
    LastIndexOfAtLeast(line, '"', j);
  }

  /** Quoted text is found between a quote-free prefix and a quote-free suffix. */
  lemma QuotedTextOf(pre: string, v: string, post: string)
    requires '"' !in pre && '"' !in post
    ensures QuotedText(pre + "\"" + v + "\"" + post) == Some(v)
  {
    var line := pre + "\"" + v + "\"" + post;
    QuotedLineShape(pre, v, post);
    FirstQuoteAfter(pre, v + "\"" + post);
    LastQuoteBefore(pre + "\"" + v, post);
    QuotedTextBetween(line, |pre|, |pre| + |v| + 1, v);
  }

  /** The pieces of a line with one quoted text. */
  lemma QuotedLineShape(pre: string, v: string, post: string)
    ensures pre + "\"" + v + "\"" + post == pre + "\"" + (v + "\"" + post)
    ensures (pre + "\"" + v + "\"" + post)[|pre| + 1..|pre| + |v| + 1] == v
  {
    var line := pre + "\"" + v + "\"" + post;
    assert line == pre + "\"" + (v + "\"" + post);
    assert line[|pre| + 1..|pre| + |v| + 1] == v;
  }

  lemma FirstQuoteAfter(pre: string, rest: string)
    requires '"' !in pre
    ensures IndexOf(pre + "\"" + rest, '"') == |pre|
  {
    var line := pre + "\"" + rest;
    assert line[..|pre|] == pre;
    IndexOfAt(line, '"', |pre|);
  }

  lemma LastQuoteBefore(rest: string, post: string)
    requires '"' !in post
    ensures LastIndexOf(rest + "\"" + post, '"') == |rest|
  {
    var line := rest + "\"" + post;
    assert line[|rest| + 1..] == post;
    LastIndexOfAt(line, '"', |rest|);
  }

  lemma QuotedTextBetween(line: string, i: nat, e: nat, v: string)
    requires i < e < |line| && IndexOf(line, '"') == i && LastIndexOf(line, '"') == e
    requires line[i + 1..e] == v
    ensures QuotedText(line) == Some(v)
  {
  }

  /** The file name of a path written with either kind of separator. */
  function PathName(path: string): (r: string)
    ensures r != ""
    ensures r == "/" || ('/' !in r && '\\' !in r)
  {
    Base(ReplaceChar(path, '\\', '/'))
  }

  /** A name without separators is its own file name. */
  lemma PathNameOfName(name: string)
    requires name != "" && '/' !in name && '\\' !in name
    ensures PathName(name) == name
  {
    ReplaceCharAbsent(name, '\\', '/');
    BaseOfName(name);
  }

  /** The directories of a Windows-style path are dropped. */
  lemma PathNameOfWindowsPath(dir: string, name: string)
    requires name != "" && '/' !in name && '\\' !in name
    ensures PathName(dir + "\\" + name) == name
  {
    var d := ReplaceChar(dir, '\\', '/');
    ReplaceCharAppend(dir, "\\", '\\', '/');
    ReplaceCharAppend(dir + "\\", name, '\\', '/');
    ReplaceCharAbsent(name, '\\', '/');
    assert ReplaceChar("\\", '\\', '/') == "/";
    BaseAfterSlash(d, name);
  }

  /** The Filename:-property trigger, active only inside a block. */
  function FilenameFind(line: string, b: BlockState): seq<string> {
    if (b.inTexture || b.inMaterial) && HasFilenameKey(line) then
      match QuotedText(line)
      case Some(p) => if PathName(p) != "" then [PathName(p)] else []
      case None => []
    else []
  }

  /** The shading-channel trigger, applied to the line that follows a key. */
  function ShadingFind(next: string): seq<string> {
    if Contains(next, "\"") then
      match QuotedText(next)
      case Some(p) =>
        var n := PathName(p);
        if n != "" && Contains(n, ".") then [n] else []
      case None => []
    else []
  }

  /** One comma-separated part of a Connect: line: its quoted text, verbatim. */
  function ConnectPart(part: string): seq<string> {
    var p := TrimSpace(part);
    if Contains(p, "\"") then
      match QuotedText(p)
      case Some(v) => if IsTextureFile(v) then [v] else []
      case None => []
    else []
  }

  function ConnectParts(parts: seq<string>): seq<string> {
    if parts == [] then []
    else ConnectParts(parts[..|parts| - 1]) + ConnectPart(parts[|parts| - 1])
  }

  /** The Connect: trigger. */
  function ConnectFind(line: string): seq<string> {
    if HasConnectKey(line) then ConnectParts(SplitOn(line, ',')) else []
  }

  // ---------------------------------------------------------------------
  // The scan.
  // ---------------------------------------------------------------------

  function LineAt(lines: seq<string>, k: nat): string
    requires k < |lines|
  {
    TrimSpace(lines[k])
  }

  /** A shading-key line reads the following line when there is one. */
  predicate ReadsNext(lines: seq<string>, k: nat)
    requires k < |lines|
  {
    k + 1 < |lines| && HasShadingKey(LineAt(lines, k))
  }

  /** The line after an examined shading-key line is consumed and not examined itself. */
  predicate ConsumesNext(lines: seq<string>, k: nat)
    requires k < |lines|
  {
    !IsBlockLine(LineAt(lines, k)) && ReadsNext(lines, k)
  }

  /** The next line the scan examines. */
  function Advance(lines: seq<string>, k: nat): (r: nat)
    requires k < |lines|
    ensures k < r <= |lines|
  {
    if ConsumesNext(lines, k) then k + 2 else k + 1
  }

  /** What the three triggers contribute on line `k` under flags `b`, in the order they append. */
  function LineFinds(lines: seq<string>, k: nat, b: BlockState): seq<string>
    requires k < |lines|
  {
    FilenameFind(LineAt(lines, k), b)
    + (if ReadsNext(lines, k) then ShadingFind(LineAt(lines, k + 1)) else [])
    + ConnectFind(LineAt(lines, k))
  }

  /** What line `k`, examined under flags `b`, contributes; block lines contribute nothing. */
  function Finds(lines: seq<string>, k: nat, b: BlockState): seq<string>
    requires k < |lines|
  {
    if IsBlockLine(LineAt(lines, k)) then [] else LineFinds(lines, k, b)
  }

  /** Everything appended from line `k` on, duplicates included. */
  function Discover(lines: seq<string>, k: nat, b: BlockState): seq<string>
    decreases |lines| - k
  {
    if k >= |lines| then []
    else Finds(lines, k, b) + Discover(lines, Advance(lines, k), NextState(LineAt(lines, k), b))
  }

  /** The result of the ASCII scan when reading succeeds: each name once, and only names the scan finds. */
  function AsciiTextures(lines: seq<string>): (r: seq<string>)
    ensures NoDuplicates(r)
    ensures forall i :: 0 <= i < |r| ==> r[i] in Discover(lines, 0, Outside)
  {
    var found := Discover(lines, 0, Outside);
    DedupNoDuplicates(found);
    forall i | 0 <= i < |Dedup(found)| ensures Dedup(found)[i] in found {
      DedupMembership(found, Dedup(found)[i]);
    }
    Dedup(found)
  }

  /** Line `j` is examined, under flags `s`, by a scan that starts at line `k` under flags `b`. */
  predicate Visits(lines: seq<string>, k: nat, b: BlockState, j: nat, s: BlockState)
    decreases |lines| - k
  {
    k < |lines| && j < |lines| && ((j == k && s == b) || Visits(lines, Advance(lines, k), NextState(LineAt(lines, k), b), j, s))
  }

  // ---------------------------------------------------------------------
  // Properties of the scan.
  // ---------------------------------------------------------------------

  lemma {:induction false} VisitsInRange(lines: seq<string>, k: nat, b: BlockState, j: nat, s: BlockState)
    requires Visits(lines, k, b, j, s)
    ensures k <= j < |lines|
    decreases |lines| - k
  {
    if !(j == k && s == b) {
      VisitsInRange(lines, Advance(lines, k), NextState(LineAt(lines, k), b), j, s);
    }
  }

  /** After an examined line the scan goes on from the line it advances to. */
  lemma {:induction false} VisitsContinue(lines: seq<string>, k: nat, b: BlockState, j: nat, s: BlockState, j2: nat, s2: BlockState)
    requires Visits(lines, k, b, j, s) && Visits(lines, k, b, j2, s2) && j < j2
    ensures Visits(lines, Advance(lines, j), NextState(LineAt(lines, j), s), j2, s2)
    decreases |lines| - k
  {
    var k2, b2 := Advance(lines, k), NextState(LineAt(lines, k), b);
    if j == k && s == b {
    } else {
      VisitsInRange(lines, k2, b2, j, s);
      VisitsContinue(lines, k2, b2, j, s, j2, s2);
    }
  }

  /** The line after a shading-key line is never examined as a line of its own. */
  lemma ShadingConsumesNextLine(lines: seq<string>, j: nat, s: BlockState, s2: BlockState)
    requires Visits(lines, 0, Outside, j, s) && ConsumesNext(lines, j)
    ensures !Visits(lines, 0, Outside, j + 1, s2)
  {
    if Visits(lines, 0, Outside, j + 1, s2) {
      VisitsContinue(lines, 0, Outside, j, s, j + 1, s2);
      VisitsInRange(lines, j + 2, NextState(LineAt(lines, j), s), j + 1, s2);
    }
  }

  /** Every line that is not consumed by a shading key is examined. */
  lemma {:induction false} VisitsEveryFreeLine(lines: seq<string>, k: nat, b: BlockState, j: nat) returns (s: BlockState)
    requires k <= j < |lines|
    requires forall i :: k <= i < j ==> !ConsumesNext(lines, i)
    ensures Visits(lines, k, b, j, s)
    decreases j - k
  {
    if j == k {
      s := b;
    } else {
      assert Advance(lines, k) == k + 1 by {
        assert !ConsumesNext(lines, k);
      }
      s := VisitsEveryFreeLine(lines, k + 1, NextState(LineAt(lines, k), b), j);
    }
  }

  /** Whatever an examined line contributes is in the result. */
  lemma {:induction false} FindsCollected(lines: seq<string>, k: nat, b: BlockState, j: nat, s: BlockState)
    requires Visits(lines, k, b, j, s)
    ensures forall i :: 0 <= i < |Finds(lines, j, s)| ==> Finds(lines, j, s)[i] in Discover(lines, k, b)
    decreases |lines| - k
  {
    if !(j == k && s == b) {
      FindsCollected(lines, Advance(lines, k), NextState(LineAt(lines, k), b), j, s);
    }
  }

  /** Whatever is in the result was contributed by an examined line. */
  lemma {:induction false} DiscoveredAt(lines: seq<string>, k: nat, b: BlockState, x: string) returns (j: nat, s: BlockState)
    requires x in Discover(lines, k, b)
    ensures Visits(lines, k, b, j, s) && x in Finds(lines, j, s)
    decreases |lines| - k
  {
    if x in Finds(lines, k, b) {
      j, s := k, b;
    } else {
      j, s := DiscoveredAt(lines, Advance(lines, k), NextState(LineAt(lines, k), b), x);
    }
  }

  /** A name is reported exactly when some examined line contributes it. */
  lemma AsciiTexturesMembership(lines: seq<string>, x: string)
    ensures x in AsciiTextures(lines) <==> exists j: nat, s :: Visits(lines, 0, Outside, j, s) && x in Finds(lines, j, s)
  {
    var d := Discover(lines, 0, Outside);
    DedupMembership(d, x);
    if x in d {
      var j, s := DiscoveredAt(lines, 0, Outside, x);
    }
    if exists j: nat, s :: Visits(lines, 0, Outside, j, s) && x in Finds(lines, j, s) {
      var j: nat, s :| Visits(lines, 0, Outside, j, s) && x in Finds(lines, j, s);
      FindsCollected(lines, 0, Outside, j, s);
    }
  }

  /** Names are listed once each, in the order the scan first meets them. */
  lemma AsciiTexturesOrder(lines: seq<string>, i: nat, j: nat)
    requires i < j < |AsciiTextures(lines)|
    ensures AsciiTextures(lines)[i] != AsciiTextures(lines)[j]
    ensures AsciiTextures(lines)[i] in Discover(lines, 0, Outside) && AsciiTextures(lines)[j] in Discover(lines, 0, Outside)
    ensures FirstIndex(Discover(lines, 0, Outside), AsciiTextures(lines)[i])
          < FirstIndex(Discover(lines, 0, Outside), AsciiTextures(lines)[j])
  {
    DedupNoDuplicates(Discover(lines, 0, Outside));
    DedupFirstOccurrenceOrder(Discover(lines, 0, Outside), i, j);
  }

  /** Without a Model: Texture or Model: Material line, the flags stay cleared. */
  lemma {:induction false} FlagsNeedOpeningLine(lines: seq<string>, k: nat, j: nat, s: BlockState)
    requires forall i :: 0 <= i < |lines| ==> !OpensTexture(LineAt(lines, i)) && !OpensMaterial(LineAt(lines, i))
    requires Visits(lines, k, Outside, j, s)
    ensures s == Outside
    ensures FilenameFind(LineAt(lines, j), s) == []
    decreases |lines| - k
  {
    if !(j == k && s == Outside) {
      FlagsNeedOpeningLine(lines, Advance(lines, k), j, s);
    }
  }

  /** Inside a block, a Filename: line contributes the file name of its quoted path. */
  lemma FilenameTakesPathName(pre: string, path: string, post: string, b: BlockState)
    requires b.inTexture || b.inMaterial
    requires '"' !in pre && '"' !in post
    requires HasFilenameKey(pre + "\"" + path + "\"" + post)
    ensures FilenameFind(pre + "\"" + path + "\"" + post, b) == [PathName(path)]
  {
    QuotedTextOf(pre, path, post);
  }

  lemma TrimSpaceOfQuoted(v: string)
    ensures TrimSpace("\"" + v + "\"") == "\"" + v + "\""
  {
    var p := "\"" + v + "\"";
    assert LeadingCount(p, IsSpace) == 0;
    assert TrailingCount(p, IsSpace) == 0;
  }

  lemma ConnectPartOf(part: string, v: string)
    requires TrimSpace(part) == part && Contains(part, "\"") && QuotedText(part) == Some(v)
    requires IsTextureFile(v)
    ensures ConnectPart(part) == [v]
  {
  }

  /** A Connect: part contributes its quoted text as it is, separators included. */
  lemma ConnectKeepsQuotedText(v: string)
    requires IsTextureFile(v)
    ensures ConnectPart("\"" + v + "\"") == [v]
  {
    QuotedWhole(v);
    ConnectPartOf("\"" + v + "\"", v);
  }

  lemma QuotedWhole(v: string)
    ensures TrimSpace("\"" + v + "\"") == "\"" + v + "\""
    ensures Contains("\"" + v + "\"", "\"")
    ensures QuotedText("\"" + v + "\"") == Some(v)
  {
    var p := "\"" + v + "\"";
    TrimSpaceOfQuoted(v);
    ContainsAt(p, "\"", 0);
    assert QuotedText(p) == Some(v) by {
      QuotedTextOf("", v, "");
      assert "" + "\"" + v + "\"" + "" == p;
    }
  }

  // ---------------------------------------------------------------------
  // The scan as the source performs it.
  // ---------------------------------------------------------------------

  /** The Filename:-property trigger on one line. */
  method RecordFilename(line: string, b: BlockState, textures: seq<string>, seen: set<string>, ghost found: seq<string>)
    returns (textures': seq<string>, seen': set<string>, ghost found': seq<string>)
    requires Collected(textures, seen, found)
    ensures found' == found + FilenameFind(line, b) && Collected(textures', seen', found')
  {
    textures', seen', found' := textures, seen, found;
    if b.inTexture || b.inMaterial {
      if HasFilenameKey(line) {
        var quoted := QuotedText(line);
        if quoted.Some? {
          var fileName := PathName(quoted.value);
          if fileName != "" {
            textures', seen' := AddUnique(textures, seen, found, fileName);
            found' := found + [fileName];
          }
        }
      }
    }
  }

  /** The shading-channel trigger on the line after a key. */
  method RecordShading(nextLine: string, textures: seq<string>, seen: set<string>, ghost found: seq<string>)
    returns (textures': seq<string>, seen': set<string>, ghost found': seq<string>)
    requires Collected(textures, seen, found)
    ensures found' == found + ShadingFind(nextLine) && Collected(textures', seen', found')
  {
    textures', seen', found' := textures, seen, found;
    if Contains(nextLine, "\"") {
      var quoted := QuotedText(nextLine);
      if quoted.Some? {
        var fileName := PathName(quoted.value);
        if fileName != "" && Contains(fileName, ".") {
          textures', seen' := AddUnique(textures, seen, found, fileName);
          found' := found + [fileName];
        }
      }
    }
  }

  /** One comma-separated part of a Connect: line. */
  method RecordPart(rawPart: string, textures: seq<string>, seen: set<string>, ghost found: seq<string>)
    returns (textures': seq<string>, seen': set<string>, ghost found': seq<string>)
    requires Collected(textures, seen, found)
    ensures found' == found + ConnectPart(rawPart) && Collected(textures', seen', found')
  {
    textures', seen', found' := textures, seen, found;
    var part := TrimSpace(rawPart);
    if Contains(part, "\"") {
      var quoted := QuotedText(part);
      if quoted.Some? {
        var potential := quoted.value;
        if IsTextureFile(potential) {
          textures', seen' := AddUnique(textures, seen, found, potential);
          found' := found + [potential];
        }
      }
    }
  }

  lemma ConnectPartsSnoc(parts: seq<string>, j: nat)
    requires j < |parts|
    ensures ConnectParts(parts[..j + 1]) == ConnectParts(parts[..j]) + ConnectPart(parts[j])
  {
    assert parts[..j + 1][..j] == parts[..j];
  }

  /** The comma-separated parts of a Connect: line, in turn. */
  method RecordParts(parts: seq<string>, textures: seq<string>, seen: set<string>, ghost found: seq<string>)
    returns (textures': seq<string>, seen': set<string>, ghost found': seq<string>)
    requires Collected(textures, seen, found)
    ensures found' == found + ConnectParts(parts) && Collected(textures', seen', found')
  {
    textures', seen', found' := textures, seen, found;
    var j := 0;
    while j < |parts|
      invariant j <= |parts|
      invariant found' == found + ConnectParts(parts[..j])
      invariant Collected(textures', seen', found')
    {
      ghost var before := found';
      textures', seen', found' := RecordPart(parts[j], textures', seen', found');
      ConnectPartsSnoc(parts, j);
      AppendThree(found, ConnectParts(parts[..j]), ConnectPart(parts[j]));
      j := j + 1;
    }
    assert parts[..|parts|] == parts;
  }

  /** The Connect: trigger. */
  method RecordConnect(line: string, textures: seq<string>, seen: set<string>, ghost found: seq<string>)
    returns (textures': seq<string>, seen': set<string>, ghost found': seq<string>)
    requires Collected(textures, seen, found)
    ensures found' == found + ConnectFind(line) && Collected(textures', seen', found')
  {
    textures', seen', found' := textures, seen, found;
    if HasConnectKey(line) {
      var parts := SplitOn(line, ',');
      textures', seen', found' := RecordParts(parts, textures, seen, found);
    }
  }

  /**
   * The three triggers on a line that does not open or close a block;
   * `consumed` tells whether the following line was read as well.
   */
  method RecordLine(lines: seq<string>, k: nat, b: BlockState, textures: seq<string>, seen: set<string>, ghost found: seq<string>)
    returns (consumed: bool, textures': seq<string>, seen': set<string>, ghost found': seq<string>)
    requires k < |lines|
    requires Collected(textures, seen, found)
    ensures consumed == ReadsNext(lines, k)
    ensures found' == found + LineFinds(lines, k, b) && Collected(textures', seen', found')
  {
    var line := TrimSpace(lines[k]);
    ghost var fromName := FilenameFind(line, b);
    ghost var fromShading: seq<string> := [];
    ghost var fromConnect := ConnectFind(line);
    textures', seen', found' := RecordFilename(line, b, textures, seen, found);
    ghost var afterName := found';
    consumed := false;
    if HasShadingKey(line) && k + 1 < |lines| {
      consumed := true;
      fromShading := ShadingFind(TrimSpace(lines[k + 1]));
      textures', seen', found' := RecordShading(TrimSpace(lines[k + 1]), textures', seen', found');
    } else {
      assert afterName + fromShading == afterName;
    }
    assert found' == found + fromName + fromShading;
    textures', seen', found' := RecordConnect(line, textures', seen', found');
    assert LineFinds(lines, k, b) == fromName + fromShading + fromConnect;
    AppendFour(found, fromName, fromShading, fromConnect);
  }

  /** A block line only changes the flags. */
  lemma BlockLineStep(lines: seq<string>, k: nat, b: BlockState)
    requires k < |lines| && IsBlockLine(LineAt(lines, k))
    ensures Discover(lines, k, b) == Discover(lines, k + 1, NextState(LineAt(lines, k), b))
  {
  }

  /** Any other line contributes its finds and keeps the flags. */
  lemma ContentLineStep(lines: seq<string>, k: nat, b: BlockState)
    requires k < |lines| && !IsBlockLine(LineAt(lines, k))
    ensures Discover(lines, k, b) == LineFinds(lines, k, b) + Discover(lines, if ReadsNext(lines, k) then k + 2 else k + 1, b)
  {
  }

  /**
   * parseASCIIFBXTextures over the scanned lines; `scanFailed` stands for the
   * scanner reporting a read error once the lines run out.
   */
  method ParseAsciiTextures(lines: seq<string>, scanFailed: bool) returns (r: Result<seq<string>, ParseError>)
    ensures r == if scanFailed then Failure(ScanFailed) else Success(AsciiTextures(lines))
  {
    var textures: seq<string> := [];
    var seen: set<string> := {};
    var inTexture, inMaterial := false, false;
    ghost var found: seq<string> := [];
    var k := 0;
    while k < |lines|
      invariant k <= |lines|
      invariant Discover(lines, 0, Outside) == found + Discover(lines, k, BlockState(inTexture, inMaterial))
      invariant Collected(textures, seen, found)
      decreases |lines| - k
    {
      var line := TrimSpace(lines[k]);
      var b := BlockState(inTexture, inMaterial);
      if OpensTexture(line) {
        BlockLineStep(lines, k, b);
        inTexture := true;
        k := k + 1;
        continue;
      }
      if OpensMaterial(line) {
        BlockLineStep(lines, k, b);
        inMaterial := true;
        k := k + 1;
        continue;
      }
      if ClosesBlock(line) {
        BlockLineStep(lines, k, b);
        inTexture, inMaterial := false, false;
        k := k + 1;
        continue;
      }
      ContentLineStep(lines, k, b);
      ghost var before := found;
      var consumed;
      consumed, textures, seen, found := RecordLine(lines, k, b, textures, seen, found);
      var next := if consumed then k + 2 else k + 1;
      AppendThree(before, LineFinds(lines, k, b), Discover(lines, next, b));
      k := next;
    }
    assert found == Discover(lines, 0, Outside);
    if scanFailed {
      return Failure(ScanFailed);
    }
    return Success(textures);
  }
}
