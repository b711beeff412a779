/**
 * The parts of Go's `strings` package the core relies on, over Dafny strings.
 * A Go string is a byte string; every character here stands for one byte
 * (see FbxFormat.AsString), so byte offsets and character offsets coincide.
 * Case mapping and white space are the ASCII ones.
 */
module GoStrings {

  /** strings.HasPrefix */
  predicate HasPrefix(s: string, p: string) {
    |p| <= |s| && s[..|p|] == p
  }

  /** strings.HasSuffix */
  predicate HasSuffix(s: string, p: string) {
    |p| <= |s| && s[|s| - |p|..] == p
  }

  /** A suffix stays a suffix when text is put in front. */
  lemma HasSuffixAfter(p: string, s: string, x: string)
    requires HasSuffix(s, x)
    ensures HasSuffix(p + s, x)
  {
    assert (p + s)[|p + s| - |x|..] == s[|s| - |x|..];
  }

  /** strings.Contains: `sub` occurs at some offset of `s`. */
  predicate Contains(s: string, sub: string)
    decreases |s|
  {
    HasPrefix(s, sub) || (|s| > 0 && Contains(s[1..], sub))
  }

  lemma {:induction false} ContainsAt(s: string, sub: string, i: nat)
    requires i + |sub| <= |s| && s[i..i + |sub|] == sub
    ensures Contains(s, sub)
    decreases i
  {
    if i > 0 {
      assert s[1..][i - 1..i - 1 + |sub|] == s[i..i + |sub|];
      ContainsAt(s[1..], sub, i - 1);
    }
  }

  lemma {:induction false} ContainsWitness(s: string, sub: string) returns (i: nat)
    requires Contains(s, sub)
    ensures i + |sub| <= |s| && s[i..i + |sub|] == sub
    decreases |s|
  {
    if HasPrefix(s, sub) {
      i := 0;
    } else {
      var k := ContainsWitness(s[1..], sub);
      i := k + 1;
      assert s[i..i + |sub|] == s[1..][k..k + |sub|];
    }
  }

  /** A suffix is contained. */
  lemma SuffixIsContained(s: string, x: string)
    requires HasSuffix(s, x)
    ensures Contains(s, x)
  {
    ContainsAt(s, x, |s| - |x|);
  }

  /** A one-character needle is found exactly when the character occurs. */
  lemma ContainsChar(s: string, c: char)
    ensures Contains(s, [c]) <==> c in s
  {
    if c in s {
      var i :| 0 <= i < |s| && s[i] == c;
      ContainsAt(s, [c], i);
    }
    if Contains(s, [c]) {
      var i := ContainsWitness(s, [c]);
      assert s[i] == c;
    }
  }

  /** A text that contains `sub` still does when it is extended on either side. */
  lemma ContainsInside(pre: string, s: string, post: string, sub: string)
    requires Contains(s, sub)
    ensures Contains(pre + s + post, sub)
  {
    var i := ContainsWitness(s, sub);
    assert (pre + s + post)[|pre| + i..|pre| + i + |sub|] == s[i..i + |sub|];
    ContainsAt(pre + s + post, sub, |pre| + i);
  }

  /** strings.IndexByte: the first offset of `c`, or -1. */
  function IndexOf(s: string, c: char): (r: int)
    ensures -1 <= r < |s|
    ensures r >= 0 ==> s[r] == c && c !in s[..r]
    ensures r < 0 <==> c !in s
  {
    if s == [] then -1
    else if s[0] == c then 0
    else
      var k := IndexOf(s[1..], c);
      assert s[1..][..k + 1] == s[1..k + 2] by { if k >= 0 { assert k + 2 <= |s|; } }
      if k < 0 then -1 else k + 1
  }

  /** The first occurrence is determined by its two defining facts. */
  lemma IndexOfAt(s: string, c: char, i: nat)
    requires i < |s| && s[i] == c && c !in s[..i]
    ensures IndexOf(s, c) == i
  {
    assert s[i] in s;
  }

  /** The first occurrence is at or before any occurrence. */
  lemma IndexOfAtMost(s: string, c: char, i: nat)
    requires i < |s|
    ensures s[i] == c ==> 0 <= IndexOf(s, c) <= i
  {
    assert s[i] == c ==> s[i] in s;
    assert i < IndexOf(s, c) ==> s[..IndexOf(s, c)][i] == s[i];
  }

  /** strings.LastIndexByte: the last offset of `c`, or -1. */
  function LastIndexOf(s: string, c: char): (r: int)
    ensures -1 <= r < |s|
    ensures r >= 0 ==> s[r] == c && c !in s[r + 1..]
    ensures r < 0 <==> c !in s
  {
    if s == [] then -1
    else if s[|s| - 1] == c then |s| - 1
    else
      var k := LastIndexOf(s[..|s| - 1], c);
      assert k >= 0 ==> s[k + 1..] == s[..|s| - 1][k + 1..] + [s[|s| - 1]];
      assert s == s[..|s| - 1] + [s[|s| - 1]];
      k
  }

  /** The last occurrence is determined by its two defining facts. */
  lemma LastIndexOfAt(s: string, c: char, i: nat)
    requires i < |s| && s[i] == c && c !in s[i + 1..]
    ensures LastIndexOf(s, c) == i
  {
    assert s[i] in s;
  }

  /** The last occurrence is at or after any occurrence. */
  lemma LastIndexOfAtLeast(s: string, c: char, i: nat)
    requires i < |s|
    ensures s[i] == c ==> LastIndexOf(s, c) >= i
  {
    assert s[i] == c ==> s[i] in s;
    assert 0 <= LastIndexOf(s, c) < i ==> s[LastIndexOf(s, c) + 1..][i - LastIndexOf(s, c) - 1] == s[i];
  }

  /** ASCII letter case mapping (unicode.ToLower restricted to 'A'..'Z'). */
  function LowerChar(c: char): char {
    if 'A' <= c <= 'Z' then (c as int + 32) as char else c
  }

  /** strings.ToLower for ASCII text. */
  function Lower(s: string): (r: string)
    ensures |r| == |s|
  {
    seq(|s|, i requires 0 <= i < |s| => LowerChar(s[i]))
  }

  lemma LowerAppend(a: string, b: string)
    ensures Lower(a + b) == Lower(a) + Lower(b)
  {
  }

  /** strings.EqualFold, with ASCII case folding. */
  predicate EqualFold(a: string, b: string) {
    Lower(a) == Lower(b)
  }

  /** strings.ReplaceAll(s, [a], [b]) for one-character patterns. */
  function ReplaceChar(s: string, a: char, b: char): (r: string)
    ensures |r| == |s|
  {
    seq(|s|, i requires 0 <= i < |s| => if s[i] == a then b else s[i])
  }

  /** Replacing characters works piece by piece. */
  lemma ReplaceCharAppend(s: string, t: string, a: char, b: char)
    ensures ReplaceChar(s + t, a, b) == ReplaceChar(s, a, b) + ReplaceChar(t, a, b)
  {
    var r := ReplaceChar(s, a, b) + ReplaceChar(t, a, b);
    forall i | 0 <= i < |s + t| ensures ReplaceChar(s + t, a, b)[i] == r[i] {
      if i < |s| {
        assert (s + t)[i] == s[i];
      } else {
        assert (s + t)[i] == t[i - |s|];
      }
    }
  }

  /** A string without the replaced character is left as it is. */
  lemma ReplaceCharAbsent(s: string, a: char, b: char)
    requires a !in s
    ensures ReplaceChar(s, a, b) == s
  {
  }

  /** The white space strings.TrimSpace removes (its ASCII members). */
  predicate IsSpace(c: char) {
    c == ' ' || c == '\t' || c == '\n' || c == '\r' || c == '\U{B}' || c == '\U{C}'
  }

  predicate IsSlash(c: char) {
    c == '/'
  }

  /** The length of the longest prefix of `s` whose characters satisfy `f`. */
  function LeadingCount(s: string, f: char -> bool): (n: nat)
    ensures n <= |s|
    ensures n < |s| ==> !f(s[n])
    decreases |s|
  {
    if s != [] && f(s[0]) then 1 + LeadingCount(s[1..], f) else 0
  }

  /** Every character of the counted prefix satisfies `f`. */
  lemma {:induction false} LeadingCountAll(s: string, f: char -> bool, i: nat)
    requires i < LeadingCount(s, f)
    ensures f(s[i])
    decreases |s|
  {
    if i > 0 {
      LeadingCountAll(s[1..], f, i - 1);
    }
  }

  /** The length of the longest suffix of `s` whose characters satisfy `f`. */
  function TrailingCount(s: string, f: char -> bool): (n: nat)
    ensures n <= |s|
    ensures n < |s| ==> !f(s[|s| - 1 - n])
    decreases |s|
  {
    if s != [] && f(s[|s| - 1]) then 1 + TrailingCount(s[..|s| - 1], f) else 0
  }

  /** Every character of the counted suffix satisfies `f`. */
  lemma {:induction false} TrailingCountAll(s: string, f: char -> bool, i: nat)
    requires |s| - TrailingCount(s, f) <= i < |s|
    ensures f(s[i])
    decreases |s|
  {
    if i < |s| - 1 {
      TrailingCountAll(s[..|s| - 1], f, i);
    }
  }

  /** strings.TrimLeftFunc */
  function TrimLeftWhile(s: string, f: char -> bool): string {
    s[LeadingCount(s, f)..]
  }

  /** strings.TrimRightFunc */
  function TrimRightWhile(s: string, f: char -> bool): string {
    s[..|s| - TrailingCount(s, f)]
  }

  /** A text that does not end with a trimmed character is left as it is. */
  lemma TrimRightNothing(s: string, f: char -> bool)
    requires s == [] || !f(s[|s| - 1])
    ensures TrimRightWhile(s, f) == s
  {
    assert TrailingCount(s, f) == 0;
  }

  /** strings.TrimSpace */
  function TrimSpace(s: string): string {
    TrimRightWhile(TrimLeftWhile(s, IsSpace), IsSpace)
  }

  /** strings.TrimRight(s, "/") */
  function TrimRightSlashes(s: string): string {
    TrimRightWhile(s, IsSlash)
  }

  /** strings.TrimLeft(s, "/") */
  function TrimLeftSlashes(s: string): string {
    TrimLeftWhile(s, IsSlash)
  }

  /** strings.TrimPrefix */
  function TrimPrefix(s: string, p: string): (r: string)
    ensures HasPrefix(s, p) ==> s == p + r
    ensures !HasPrefix(s, p) ==> r == s
  {
    if HasPrefix(s, p) then s[|p|..] else s
  }

  /** strings.Join(parts, [c]) */
  function JoinWith(parts: seq<string>, c: char): string {
    if |parts| == 0 then ""
    else if |parts| == 1 then parts[0]
    else parts[0] + [c] + JoinWith(parts[1..], c)
  }

  /**
   * strings.Split(s, [c]): the pieces between the occurrences of `c`. There
   * is always at least one piece and joining them again gives back `s`.
   */
  function SplitOn(s: string, c: char): (r: seq<string>)
    ensures |r| >= 1
    decreases |s|
  {
    var i := IndexOf(s, c);
    if i < 0 then [s] else [s[..i]] + SplitOn(s[i + 1..], c)
  }

  /** Joining the pieces of strings.Split(s, [c]) with `c` gives back `s`. */
  lemma {:induction false} SplitOnJoin(s: string, c: char)
    ensures JoinWith(SplitOn(s, c), c) == s
    decreases |s|
  {
    var i := IndexOf(s, c);
    if i >= 0 {
      var rest := SplitOn(s[i + 1..], c);
      SplitOnJoin(s[i + 1..], c);
      JoinWithCons(s[..i], rest, c);
      CutAt(s, i);
    }
  }

  /** Joining a piece in front of at least one other puts the separator between them. */
  lemma JoinWithCons(x: string, rest: seq<string>, c: char)
    requires |rest| >= 1
    ensures JoinWith([x] + rest, c) == x + [c] + JoinWith(rest, c)
  {
    assert ([x] + rest)[1..] == rest;
  }

  /** A text is its prefix, the character at the cut and the rest. */
  lemma CutAt(s: string, i: nat)
    requires i < |s|
    ensures s == s[..i] + [s[i]] + s[i + 1..]
  {
  }

  /** No piece of strings.Split(s, [c]) holds a `c`. */
  lemma {:induction false} SplitOnPieces(s: string, c: char, k: nat)
    requires k < |SplitOn(s, c)|
    ensures c !in SplitOn(s, c)[k]
    decreases |s|
  {
    var i := IndexOf(s, c);
    if i >= 0 && k > 0 {
      SplitOnPieces(s[i + 1..], c, k - 1);
    }
  }

  /** The first piece of strings.Split(s, [c]) is the text before the first `c`. */
  lemma SplitOnFirst(s: string, c: char)
    ensures SplitOn(s, c)[0] == if c in s then s[..IndexOf(s, c)] else s
  {
  }

  /**
   * strings.SplitN(s, [c], 2): one piece when `c` does not occur, otherwise
   * the text before the first `c` and everything after it.
   */
  function SplitFirst(s: string, c: char): (r: seq<string>)
    ensures 1 <= |r| <= 2
    ensures |r| == 1 <==> c !in s
    ensures |r| == 1 ==> r[0] == s
    ensures |r| == 2 ==> s == r[0] + [c] + r[1] && c !in r[0]
  {
    var i := IndexOf(s, c);
    if i < 0 then [s]
    else
      assert s == s[..i] + [c] + s[i + 1..];
      [s[..i], s[i + 1..]]
  }

  /** strings.TrimRight(s, "/") keeps a prefix with no trailing separator. */
  lemma TrimRightSlashesShape(s: string)
    ensures HasPrefix(s, TrimRightSlashes(s))
    ensures TrimRightSlashes(s) == "" || TrimRightSlashes(s)[|TrimRightSlashes(s)| - 1] != '/'
  {
  }

  /** strings.TrimLeft(s, "/") leaves a text that does not start with a separator. */
  lemma TrimLeftSlashesShape(s: string)
    ensures HasSuffix(s, TrimLeftSlashes(s))
    ensures TrimLeftSlashes(s) == "" || TrimLeftSlashes(s)[0] != '/'
  {
  }

  /** A suffix that does not start with a separator survives strings.TrimLeft(s, "/"). */
  lemma TrimLeftSlashesKeepsSuffix(s: string, x: string)
    requires HasSuffix(s, x) && x != "" && x[0] != '/'
    ensures HasSuffix(TrimLeftSlashes(s), x)
  {
    var n := LeadingCount(s, IsSlash);
    if n > |s| - |x| {
      LeadingCountAll(s, IsSlash, |s| - |x|);
    }
    assert TrimLeftSlashes(s)[|TrimLeftSlashes(s)| - |x|..] == s[|s| - |x|..];
  }

  /** strings.ReplaceAll(s, [c], ""): every `c` removed. */
  function DeleteChar(s: string, c: char): (r: string)
    ensures c !in r && |r| <= |s|
    decreases |s|
  {
    if s == [] then []
    else DeleteChar(s[..|s| - 1], c) + (if s[|s| - 1] == c then [] else [s[|s| - 1]])
  }

  lemma {:induction false} DeleteCharAppend(a: string, b: string, c: char)
    ensures DeleteChar(a + b, c) == DeleteChar(a, c) + DeleteChar(b, c)
    decreases |b|
  {
    if b == [] {
      assert a + b == a;
    } else {
      var init := b[..|b| - 1];
      assert (a + b)[..|a + b| - 1] == a + init;
      DeleteCharAppend(a, init, c);
    }
  }

  /** Removing a character that does not occur changes nothing. */
  lemma {:induction false} DeleteCharAbsent(s: string, c: char)
    requires c !in s
    ensures DeleteChar(s, c) == s
    decreases |s|
  {
    if s != [] {
      var init := s[..|s| - 1];
      assert forall k :: 0 <= k < |init| ==> init[k] == s[k];
      DeleteCharAbsent(init, c);
    }
  }
}
