/**
 * Go's `path` and `path/filepath` functions as they behave on Unix, where
 * '/' is the only separator (so filepath.ToSlash is the identity and
 * filepath.Clean is path.Clean).
 */
module GoPath {
  import opened GoStrings

  /** filepath.Ext: the suffix from the last '.' of the final element, or "". */
  function Ext(path: string): (r: string)
    ensures HasSuffix(path, r)
    ensures r != "" ==> r[0] == '.' && '/' !in r && '.' !in r[1..]
    decreases |path|
  {
    if path == [] || path[|path| - 1] == '/' then ""
    else if path[|path| - 1] == '.' then path[|path| - 1..]
    else
      var init := path[..|path| - 1];
      var last := path[|path| - 1];
      var e := Ext(init);
      assert path == init + [last];
      if e == "" then "" else e + [last]
  }

  /** With no extension, every '.' is followed by a later separator. */
  lemma {:induction false} NoExtMeansDotsInDirectories(path: string, k: nat)
    requires Ext(path) == "" && k < |path| && path[k] == '.'
    ensures '/' in path[k + 1..]
    decreases |path|
  {
    var n := |path|;
    if path[n - 1] == '/' {
      assert path[n - 1] in path[k + 1..];
    } else if path[n - 1] != '.' {
      var init := path[..n - 1];
      assert path == init + [path[n - 1]];
      NoExtMeansDotsInDirectories(init, k);
      assert path[k + 1..] == init[k + 1..] + [path[n - 1]];
    }
  }

  /** One more ordinary character extends an extension that is there. */
  lemma ExtStep(path: string)
    requires path != [] && path[|path| - 1] != '/' && path[|path| - 1] != '.'
    ensures var e := Ext(path[..|path| - 1]);
      Ext(path) == if e == "" then "" else e + [path[|path| - 1]]
  {
  }

  /** A text with no '.' has no extension. */
  lemma ExtWithoutDot(s: string)
    requires '.' !in s
    ensures Ext(s) == ""
  {
  }

  /** A dotted, separator-free suffix with a single '.' is the extension. */
  lemma {:induction false} ExtOfDottedSuffix(base: string, e: string)
    requires e != [] && e[0] == '.' && '/' !in e && '.' !in e[1..]
    ensures Ext(base + e) == e
    decreases |e|
  {
    var s := base + e;
    if |e| == 1 {
      assert s[|s| - 1] == '.';
      assert s[|s| - 1..] == e;
    } else {
      var init := e[..|e| - 1];
      assert s[..|s| - 1] == base + init;
      assert s[|s| - 1] == e[|e| - 1];
      assert e[|e| - 1] in e[1..];
      ExtOfDottedSuffix(base, init);
      ExtStep(s);
      assert init + [e[|e| - 1]] == e;
    }
  }

  /** Lower-casing a name lower-cases its extension and nothing else about it. */
  lemma {:induction false} ExtOfLower(name: string)
    ensures Ext(Lower(name)) == Lower(Ext(name))
    decreases |name|
  {
    if name != [] {
      var init := name[..|name| - 1];
      var last := name[|name| - 1];
      var l := Lower(name);
      assert l[..|l| - 1] == Lower(init);
      assert l[|l| - 1] == LowerChar(last);
      ExtOfLower(init);
      if last != '/' && last != '.' {
        ExtOfLowerStep(name);
      } else if last == '.' {
        assert l[|l| - 1..] == [last];
        assert Lower(Ext(name)) == Lower([last]);
      }
    }
  }

  /** The step of ExtOfLower for a last character that is neither '/' nor '.'. */
  lemma ExtOfLowerStep(name: string)
    requires name != [] && name[|name| - 1] != '/' && name[|name| - 1] != '.'
    requires Lower(name)[..|name| - 1] == Lower(name[..|name| - 1])
    requires Lower(name)[|name| - 1] == LowerChar(name[|name| - 1])
    requires Ext(Lower(name[..|name| - 1])) == Lower(Ext(name[..|name| - 1]))
    ensures Ext(Lower(name)) == Lower(Ext(name))
  {
    var init := name[..|name| - 1];
    var last := name[|name| - 1];
    var l := Lower(name);
    assert l[|l| - 1] != '/' && l[|l| - 1] != '.';
    ExtStep(name);
    ExtStep(l);
    assert Ext(l[..|l| - 1]) == Lower(Ext(init));
    if Ext(init) != "" {
      LowerAppend(Ext(init), [last]);
      assert Lower([last]) == [l[|l| - 1]];
    }
  }

  /**
   * filepath.Base: the last element after trailing slashes are removed;
   * "." for the empty path and "/" for a path made only of slashes.
   */
  function Base(path: string): (r: string)
    ensures r != ""
    ensures r == "/" || '/' !in r
  {
    if path == "" then "."
    else
      var t := TrimRightSlashes(path);
      if t == "" then "/"
      else t[LastIndexOf(t, '/') + 1..]
  }

  /** The base name of a non-empty path is made of characters of that path. */
  lemma BaseChars(path: string, k: nat)
    requires path != "" && k < |Base(path)|
    ensures Base(path)[k] in path
  {
    var t := TrimRightSlashes(path);
    TrimRightSlashesShape(path);
    if t != "" {
      var i := LastIndexOf(t, '/') + 1;
      assert Base(path) == t[i..];
      assert t == path[..|t|];
      assert Base(path)[k] == t[i + k] == path[i + k];
    }
  }

  /** A non-empty name without a separator is its own base name. */
  lemma BaseOfName(name: string)
    requires name != "" && '/' !in name
    ensures Base(name) == name
  {
    assert name[|name| - 1] in name;
  }

  /** The base name of a path ending in `/name` is `name`. */
  lemma BaseAfterSlash(dir: string, name: string)
    requires name != "" && '/' !in name
    ensures Base(dir + "/" + name) == name
  {
    var path := dir + "/" + name;
    assert path[|path| - 1] == name[|name| - 1];
    assert name[|name| - 1] in name;
    assert TrimRightSlashes(path) == path;
    assert path[|dir| + 1..] == name;
    LastIndexOfAt(path, '/', |dir|);
  }

  /** Taking the base name twice changes nothing. */
  lemma BaseIdempotent(path: string)
    ensures Base(Base(path)) == Base(path)
  {
    var b := Base(path);
    if b != "/" {
      BaseOfName(b);
    }
  }

  /** A path element that path.Clean keeps as it is. */
  predicate IsPlainName(name: string) {
    name != "" && '/' !in name && name != "." && name != ".."
  }

  /** How path.Clean treats one element, given the elements kept so far. */
  function CleanStep(kept: seq<string>, e: string, rooted: bool): seq<string> {
    if e == "" || e == "." then kept
    else if e == ".." then
      if |kept| > 0 && kept[|kept| - 1] != ".." then kept[..|kept| - 1]
      else if rooted then kept
      else kept + [".."]
    else kept + [e]
  }

  /**
   * The elements path.Clean keeps: empty and "." elements are dropped, ".."
   * removes the previous kept element, and a leading ".." survives only in a
   * relative path.
   */
  function CleanElements(elems: seq<string>, rooted: bool): (r: seq<string>)
    ensures forall k :: 0 <= k < |r| ==> r[k] != "" && (r[k] == ".." || r[k] in elems)
  {
    if elems == [] then []
    else
      var init := elems[..|elems| - 1];
      assert forall x :: x in init ==> x in elems;
      CleanStep(CleanElements(init, rooted), elems[|elems| - 1], rooted)
  }

  /** path.Clean (equivalently filepath.Clean on Unix). */
  function Clean(path: string): string {
    if path == "" then "."
    else
      var rooted := path[0] == '/';
      var body := JoinWith(CleanElements(SplitOn(path, '/'), rooted), '/');
      if rooted then "/" + body else if body == "" then "." else body
  }

  /** path.Join with two elements (empty elements are ignored). */
  function Join(a: string, b: string): string {
    if a != "" then Clean(a + "/" + b)
    else if b != "" then Clean(b)
    else ""
  }

  /** strings.Split cuts at the first separator and splits the rest. */
  lemma SplitOnAt(s: string, c: char, i: nat)
    requires i < |s| && IndexOf(s, c) == i
    ensures SplitOn(s, c) == [s[..i]] + SplitOn(s[i + 1..], c)
  {
  }

  lemma {:induction false} SplitOnSnoc(a: string, c: char, b: string)
    requires c !in b
    ensures SplitOn(a + [c] + b, c) == SplitOn(a, c) + [b]
    decreases |a|
  {
    var s := a + [c] + b;
    var i := IndexOf(a, c);
    if i < 0 {
      SnocPieces(a, c, b, |a|);
      assert s[..|a|] == a;
      IndexOfAt(s, c, |a|);
      SplitOnAt(s, c, |a|);
      assert s[|a| + 1..] == b;
    } else {
      SnocPieces(a, c, b, i);
      IndexOfAt(s, c, i);
      assert s[i + 1..] == a[i + 1..] + [c] + b;
      SplitOnSnoc(a[i + 1..], c, b);
      SplitOnAt(s, c, i);
      SplitOnAt(a, c, i);
      var rest := SplitOn(a[i + 1..], c);
      assert [a[..i]] + (rest + [b]) == [a[..i]] + rest + [b];
    }
  }

  /** The pieces of `a + [c] + b` around an offset within `a` or at the added character. */
  lemma SnocPieces(a: string, c: char, b: string, i: nat)
    requires i <= |a|
    ensures (a + [c] + b)[..i] == a[..i]
    ensures i == |a| ==> (a + [c] + b)[i + 1..] == b
    ensures i < |a| ==> (a + [c] + b)[i + 1..] == a[i + 1..] + [c] + b
  {
  }

  lemma {:induction false} JoinWithSnoc(parts: seq<string>, x: string, c: char)
    ensures JoinWith(parts + [x], c) == if parts == [] then x else JoinWith(parts, c) + [c] + x
    decreases |parts|
  {
    if |parts| >= 2 {
      assert (parts + [x])[1..] == parts[1..] + [x];
      JoinWithSnoc(parts[1..], x, c);
    } else if |parts| == 1 {
      assert (parts + [x])[1..] == [x];
    }
  }

  /** A plain name after a separator survives path.Clean as the last element. */
  lemma CleanElementsWithName(dir: string, name: string, rooted: bool)
    requires IsPlainName(name)
    ensures CleanElements(SplitOn(dir + "/" + name, '/'), rooted) == CleanElements(SplitOn(dir, '/'), rooted) + [name]
  {
    SplitOnSnoc(dir, '/', name);
    var elems := SplitOn(dir, '/') + [name];
    assert elems[..|elems| - 1] == SplitOn(dir, '/');
  }

  /** path.Clean of a non-empty path puts its kept elements back together. */
  lemma CleanByElements(path: string, body: string)
    requires path != "" && body == JoinWith(CleanElements(SplitOn(path, '/'), path[0] == '/'), '/')
    ensures Clean(path) == if path[0] == '/' then "/" + body else if body == "" then "." else body
  {
  }

  /** Joining a directory with a plain file name ends with that name. */
  lemma JoinEndsWithName(dir: string, name: string)
    requires IsPlainName(name)
    ensures HasSuffix(Join(dir, name), name)
  {
    if dir != "" {
      var s := dir + "/" + name;
      var rooted := s[0] == '/';
      var kept := CleanElements(SplitOn(dir, '/'), rooted);
      CleanElementsWithName(dir, name, rooted);
      var body := JoinWith(kept + [name], '/');
      JoinWithSnoc(kept, name, '/');
      HasSuffixAfter(JoinWith(kept, '/') + "/", name, name);
      CleanByElements(s, body);
      HasSuffixAfter("/", body, name);
    } else {
      CleanOfName(name);
    }
  }

  /** A plain name is already clean. */
  lemma CleanOfName(name: string)
    requires IsPlainName(name)
    ensures Clean(name) == name
  {
    assert SplitOn(name, '/') == [name];
    assert CleanElements([name], false) == CleanStep([], name, false);
    CleanByElements(name, name);
  }

  /** Two plain names joined by one separator are already clean. */
  lemma CleanOfTwoNames(b: string, c: string)
    requires IsPlainName(b) && IsPlainName(c)
    ensures Clean(b + "/" + c) == b + "/" + c
  {
    TwoNameElements(b, c);
    assert (b + "/" + c)[0] == b[0] && b[0] in b;
    assert JoinWith([b, c], '/') == b + "/" + c;
    CleanByElements(b + "/" + c, b + "/" + c);
  }

  /** path.Clean keeps both elements of two plain names joined by one separator. */
  lemma TwoNameElements(b: string, c: string)
    requires IsPlainName(b) && IsPlainName(c)
    ensures CleanElements(SplitOn(b + "/" + c, '/'), false) == [b, c]
  {
    assert IndexOf(b, '/') < 0;
    SplitOnSnoc(b, '/', c);
    var e := [b, c];
    assert e[..1] == [b];
    assert CleanElements([b], false) == [b];
  }

  /** The elements of a directory joined with a path that climbs into a sibling. */
  lemma SiblingElements(a: string, b: string, c: string)
    requires IsPlainName(a) && IsPlainName(b) && IsPlainName(c)
    ensures SplitOn(a + "/" + ("../" + b + "/" + c), '/') == [a, "..", b, c]
  {
    var up := a + "/" + "..";
    var mid := up + "/" + b;
    assert a + "/" + ("../" + b + "/" + c) == mid + "/" + c;
    assert IndexOf(a, '/') < 0;
    assert SplitOn(a, '/') == [a];
    SplitOnSnoc(a, '/', "..");
    assert SplitOn(up, '/') == [a, ".."];
    SplitOnSnoc(up, '/', b);
    assert SplitOn(mid, '/') == [a, "..", b];
    SplitOnSnoc(mid, '/', c);
    assert SplitOn(mid + "/" + c, '/') == [a, "..", b] + [c];
  }

  /** The ".." cancels the directory, leaving the sibling and the name. */
  lemma SiblingKept(a: string, b: string, c: string)
    requires IsPlainName(a) && IsPlainName(b) && IsPlainName(c)
    ensures CleanElements([a, "..", b, c], false) == [b, c]
  {
    var e := [a, "..", b, c];
    assert e[..3][..2][..1] == [a] && e[..3][..2] == [a, ".."] && e[..3] == [a, "..", b];
    assert CleanElements([a], false) == [a];
    assert CleanElements([a, ".."], false) == [];
    assert CleanElements([a, "..", b], false) == [b];
  }

  /** path.Join of a directory and "../sibling/name" leaves the directory. */
  lemma JoinUpToSibling(a: string, b: string, c: string)
    requires IsPlainName(a) && IsPlainName(b) && IsPlainName(c)
    ensures Join(a, "../" + b + "/" + c) == b + "/" + c
  {
    var s := a + "/" + ("../" + b + "/" + c);
    SiblingElements(a, b, c);
    SiblingKept(a, b, c);
    assert s[0] == a[0] && a[0] in a;
    assert JoinWith([b, c], '/') == b + "/" + c;
    CleanByElements(s, b + "/" + c);
  }

  /** Joined kept elements never start with a separator. */
  lemma JoinWithNoLeadingSlash(parts: seq<string>)
    requires forall k :: 0 <= k < |parts| ==> parts[k] != "" && '/' !in parts[k]
    ensures JoinWith(parts, '/') == "" || JoinWith(parts, '/')[0] != '/'
  {
    if |parts| >= 2 {
      assert JoinWith(parts, '/')[0] == parts[0][0];
      assert parts[0][0] in parts[0];
    } else if |parts| == 1 {
      assert parts[0][0] in parts[0];
    }
  }

  /** Every element path.Clean keeps is non-empty and free of separators. */
  lemma KeptElementIsName(path: string, rooted: bool, k: nat)
    requires k < |CleanElements(SplitOn(path, '/'), rooted)|
    ensures CleanElements(SplitOn(path, '/'), rooted)[k] != ""
    ensures '/' !in CleanElements(SplitOn(path, '/'), rooted)[k]
  {
    var elems := SplitOn(path, '/');
    var kept := CleanElements(elems, rooted);
    if kept[k] != ".." {
      var j :| 0 <= j < |elems| && elems[j] == kept[k];
      SplitOnPieces(path, '/', j);
    }
  }

  lemma CleanBodyNoLeadingSlash(path: string, rooted: bool)
    ensures var body := JoinWith(CleanElements(SplitOn(path, '/'), rooted), '/');
      body == "" || body[0] != '/'
  {
    var kept := CleanElements(SplitOn(path, '/'), rooted);
    forall k | 0 <= k < |kept| ensures kept[k] != "" && '/' !in kept[k] {
      KeptElementIsName(path, rooted, k);
    }
    JoinWithNoLeadingSlash(kept);
  }

  /** path.Clean reports a rooted path with exactly one leading separator. */
  lemma CleanNoDoubleLeadingSlash(path: string)
    ensures !HasPrefix(Clean(path), "//")
  {
    if path != "" {
      var body := JoinWith(CleanElements(SplitOn(path, '/'), path[0] == '/'), '/');
      CleanBodyNoLeadingSlash(path, path[0] == '/');
      CleanByElements(path, body);
      NoDoubleSlashAround(body, path[0] == '/');
    }
  }

  lemma NoDoubleSlashAround(body: string, rooted: bool)
    requires body == "" || body[0] != '/'
    ensures !HasPrefix(if rooted then "/" + body else if body == "" then "." else body, "//")
  {
    if rooted {
      assert body != "" ==> ("/" + body)[1] == body[0];
    }
  }

  /** path.Join never yields a path that starts with two separators. */
  lemma JoinNoDoubleLeadingSlash(a: string, b: string)
    ensures !HasPrefix(Join(a, b), "//")
  {
    if a != "" {
      CleanNoDoubleLeadingSlash(a + "/" + b);
    } else if b != "" {
      CleanNoDoubleLeadingSlash(b);
    }
  }
}
