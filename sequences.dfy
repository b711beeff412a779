/**
 * Generic facts about sequences: duplicate-freedom, first occurrences and
 * the insertion-ordered de-duplication that the texture scanners perform
 * with their `textures` slice and `textureMap` set.
 */
module Sequences {

  ghost predicate NoDuplicates<T>(s: seq<T>) {
    forall i, j :: 0 <= i < j < |s| ==> s[i] != s[j]
  }

  /**
   * The search loop the source writes for membership in a list: scan from
   * the front and leave at the first element equal to `x`.
   */
  function Listed<T(==)>(x: T, s: seq<T>): (r: bool)
    ensures r <==> x in s
  {
    if s == [] then false
    else if x == s[0] then true
    else Listed(x, s[1..])
  }

  /** The position of the first occurrence of `x` in `s`. */
  function FirstIndex<T(==)>(s: seq<T>, x: T): (k: nat)
    requires x in s
    ensures k < |s| && s[k] == x && x !in s[..k]
  {
    if s[0] == x then 0 else 1 + FirstIndex(s[1..], x)
  }

  lemma FirstIndexOfPrefix<T>(s: seq<T>, y: T, x: T)
    requires y in s
    ensures FirstIndex(s + [x], y) == FirstIndex(s, y)
  {
    var k := FirstIndex(s, y);
    assert (s + [x])[k] == y;
    assert (s + [x])[..k] == s[..k];
    FirstIndexUnique(s + [x], y, k);
  }

  lemma FirstIndexUnique<T>(s: seq<T>, x: T, k: nat)
    requires k < |s| && s[k] == x && x !in s[..k]
    ensures FirstIndex(s, x) == k
  {
  }

  /**
   * Insertion-ordered de-duplication: the first occurrence of every value is
   * kept, later ones are dropped. Defined from the end, like a loop that
   * appends a value only when it has not been seen yet.
   */
  function Dedup<T(==)>(xs: seq<T>): (r: seq<T>)
    ensures |r| <= |xs|
  {
    if xs == [] then []
    else
      var d := Dedup(xs[..|xs| - 1]);
      var x := xs[|xs| - 1];
      if x in d then d else d + [x]
  }

  /** De-duplication keeps exactly the values that occur. */
  lemma {:induction false} DedupMembership<T>(xs: seq<T>, x: T)
    ensures x in Dedup(xs) <==> x in xs
    decreases |xs|
  {
    if xs != [] {
      var init := xs[..|xs| - 1];
      assert xs == init + [xs[|xs| - 1]];
      DedupMembership(init, x);
    }
  }

  /** De-duplication leaves no value twice. */
  lemma {:induction false} DedupNoDuplicates<T>(xs: seq<T>)
    ensures NoDuplicates(Dedup(xs))
    decreases |xs|
  {
    if xs != [] {
      var init := xs[..|xs| - 1];
      DedupNoDuplicates(init);
      var d := Dedup(init);
      var x := xs[|xs| - 1];
      if x !in d {
        assert Dedup(xs) == d + [x];
      }
    }
  }

  /** One more value at the end is appended exactly when it is new. */
  lemma DedupSnoc<T>(xs: seq<T>, x: T)
    ensures Dedup(xs + [x]) == if x in xs then Dedup(xs) else Dedup(xs) + [x]
  {
    assert (xs + [x])[..|xs|] == xs;
    DedupMembership(xs, x);
  }

  /** De-duplication keeps values in the order of their first occurrence. */
  lemma {:induction false} DedupFirstOccurrenceOrder<T>(xs: seq<T>, i: nat, j: nat)
    requires i < j < |Dedup(xs)|
    ensures Dedup(xs)[i] in xs && Dedup(xs)[j] in xs
    ensures FirstIndex(xs, Dedup(xs)[i]) < FirstIndex(xs, Dedup(xs)[j])
    decreases |xs|
  {
    DedupMembership(xs, Dedup(xs)[i]);
    DedupMembership(xs, Dedup(xs)[j]);
    var init := xs[..|xs| - 1];
    var x := xs[|xs| - 1];
    assert xs == init + [x];
    var d := Dedup(init);
    var r := Dedup(xs);
    DedupSnoc(init, x);
    if j < |d| {
      DedupMembership(init, d[i]);
      DedupMembership(init, d[j]);
      DedupFirstOccurrenceOrder(init, i, j);
      FirstIndexOfPrefix(init, d[i], x);
      FirstIndexOfPrefix(init, d[j], x);
    } else {
      // r[j] is the newly appended x, whose first occurrence is the last position
      assert r == d + [x] && r[j] == x && x !in init;
      FirstIndexUnique(xs, x, |init|);
      DedupMembership(init, d[i]);
      FirstIndexOfPrefix(init, d[i], x);
    }
  }

  /** The list built so far holds the first occurrences of what was found, and `seen` is its set. */
  ghost predicate Collected<T>(textures: seq<T>, seen: set<T>, found: seq<T>) {
    textures == Dedup(found) && seen == (set y | y in textures)
  }

  /** Appends `x` unless it was appended before. */
  method AddUnique<T(==)>(textures: seq<T>, seen: set<T>, ghost found: seq<T>, x: T)
    returns (textures': seq<T>, seen': set<T>)
    requires Collected(textures, seen, found)
    ensures Collected(textures', seen', found + [x])
  {
    DedupSnoc(found, x);
    DedupMembership(found, x);
    if x !in seen {
      textures' := textures + [x];
      seen' := seen + {x};
    } else {
      textures', seen' := textures, seen;
    }
  }

  lemma AppendFour<T>(a: seq<T>, b: seq<T>, c: seq<T>, d: seq<T>)
    ensures a + (b + c + d) == a + b + c + d
  {
  }

  lemma AppendThree<T>(a: seq<T>, b: seq<T>, c: seq<T>)
    ensures a + (b + c) == a + b + c
  {
  }

  /** The concatenation f(0) + f(1) + ... + f(n - 1). */
  function ConcatUpTo<T>(f: nat -> seq<T>, n: nat): seq<T> {
    if n == 0 then [] else ConcatUpTo(f, n - 1) + f(n - 1)
  }

  /** Every element of the concatenation comes from one of its parts. */
  lemma {:induction false} ConcatUpToMember<T>(f: nat -> seq<T>, n: nat, x: T) returns (i: nat)
    requires x in ConcatUpTo(f, n)
    ensures i < n && x in f(i)
    decreases n
  {
    if x in ConcatUpTo(f, n - 1) {
      i := ConcatUpToMember(f, n - 1, x);
    } else {
      i := n - 1;
    }
  }

  /** Concatenations of parts that agree are equal. */
  lemma {:induction false} ConcatUpToAgree<T>(f: nat -> seq<T>, g: nat -> seq<T>, n: nat)
    requires forall i :: 0 <= i < n ==> f(i) == g(i)
    ensures ConcatUpTo(f, n) == ConcatUpTo(g, n)
    decreases n
  {
    if n > 0 {
      ConcatUpToAgree(f, g, n - 1);
    }
  }

  /** Number of occurrences of `x` in `s`. */
  function Count<T(==)>(s: seq<T>, x: T): nat {
    multiset(s)[x]
  }
}
