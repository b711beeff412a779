/**
 * A bounded heap of items ordered by the items' own Less. Add appends while
 * the heap has room and, once it is full, replaces the root with an item
 * that is not less than it and sifts the new root down, as heap.Fix(h, 0)
 * does. The order is a parameter of the heap: the items' Less method.
 */
module TopNHeap {
  import opened Wrappers

  /** The position the sift-down continues at from `i`: the smaller child, the right one only when it is strictly less. */
  function SmallerChild<T>(less: (T, T) -> bool, s: seq<T>, i: nat): (j: nat)
    requires 2 * i + 1 < |s|
    ensures j < |s|
    ensures j == 2 * i + 1 || (j == 2 * i + 2 && less(s[j], s[2 * i + 1]))
  {
    var j1 := 2 * i + 1;
    if j1 + 1 < |s| && less(s[j1 + 1], s[j1]) then j1 + 1 else j1
  }

  /** `s` with the elements at `i` and `j` exchanged. */
  function Swapped<T>(s: seq<T>, i: nat, j: nat): seq<T>
    requires i < |s| && j < |s|
  {
    s[i := s[j]][j := s[i]]
  }

  /** An exchange keeps the length and the elements. */
  lemma SwappedPermutes<T>(s: seq<T>, i: nat, j: nat)
    requires i < |s| && j < |s|
    ensures |Swapped(s, i, j)| == |s| && multiset(Swapped(s, i, j)) == multiset(s)
  {
  }

  /**
   * container/heap's down(h, i, len): while the smaller child of the current
   * position is less than it, exchange the two and continue at the child.
   */
  function Down<T>(less: (T, T) -> bool, s: seq<T>, i: nat): (r: seq<T>)
    requires i < |s|
    ensures |r| == |s| && multiset(r) == multiset(s)
    decreases |s| - i
  {
    if 2 * i + 1 >= |s| then s
    else
      var j := SmallerChild(less, s, i);
      if !less(s[j], s[i]) then s
      else
        SwappedPermutes(s, i, j);
        Down(less, Swapped(s, i, j), j)
  }

  /** One exchange of the sift-down. */
  lemma DownStep<T>(less: (T, T) -> bool, s: seq<T>, i: nat, j: nat)
    requires 2 * i + 1 < |s| && j == SmallerChild(less, s, i) && less(s[j], s[i])
    ensures Down(less, s, i) == Down(less, Swapped(s, i, j), j)
  {
  }

  /** The sift-down leaves every position before its start as it was. */
  lemma {:induction false} DownKeepsPrefix<T>(less: (T, T) -> bool, s: seq<T>, i: nat, k: nat)
    requires k < i < |s|
    ensures |Down(less, s, i)| == |s| && Down(less, s, i)[k] == s[k]
    decreases |s| - i
  {
    if 2 * i + 1 < |s| {
      var j := SmallerChild(less, s, i);
      if less(s[j], s[i]) {
        SwappedPermutes(s, i, j);
        DownKeepsPrefix(less, Swapped(s, i, j), j, k);
      }
    }
  }

  /** A root that is not greater than its children stays where it is. */
  lemma DownStopsAtOrderedRoot<T>(less: (T, T) -> bool, s: seq<T>)
    requires |s| > 0
    requires 1 < |s| ==> !less(s[1], s[0])
    requires 2 < |s| ==> !less(s[2], s[0])
    ensures Down(less, s, 0) == s
  {
  }

  /** Replacing the root and sifting down trades the old root for the new item and keeps the size. */
  lemma ReplaceRootContents<T>(less: (T, T) -> bool, s: seq<T>, item: T)
    requires |s| > 0
    ensures |Down(less, s[0 := item], 0)| == |s|
    ensures multiset(Down(less, s[0 := item], 0)) == multiset(s) - multiset{s[0]} + multiset{item}
  {
  }

  /** No element is less than a later one. */
  ghost predicate IsDescending<T>(less: (T, T) -> bool, r: seq<T>) {
    forall i, j :: 0 <= i < j < |r| ==> !less(r[i], r[j])
  }

  /** An order sort.Slice can sort by: irreflexive and transitive (so also asymmetric). */
  ghost predicate StrictOrder<T(!new)>(less: (T, T) -> bool) {
    (forall a :: !less(a, a)) &&
    (forall a, b, c :: less(a, b) && less(b, c) ==> less(a, c))
  }

  /** Inserts `x` before the first element that is less than it. */
  function InsertDesc<T>(less: (T, T) -> bool, r: seq<T>, x: T): (r': seq<T>)
    ensures multiset(r') == multiset(r) + multiset{x}
  {
    if r == [] then [x]
    else if less(r[0], x) then [x] + r
    else
      assert r == [r[0]] + r[1..];
      [r[0]] + InsertDesc(less, r[1..], x)
  }

  /** Insertion adds nothing but the item. */
  lemma InsertDescMember<T>(less: (T, T) -> bool, r: seq<T>, x: T, y: T)
    requires y in InsertDesc(less, r, x)
    ensures y == x || y in r
  {
    assert y in multiset(InsertDesc(less, r, x));
  }

  /** Insertion keeps a descending list descending. */
  lemma {:induction false} InsertDescSorted<T(!new)>(less: (T, T) -> bool, r: seq<T>, x: T)
    requires StrictOrder(less) && IsDescending(less, r)
    ensures IsDescending(less, InsertDesc(less, r, x))
    decreases |r|
  {
    if r != [] {
      if less(r[0], x) {
        InsertFrontSorted(less, r, x);
      } else {
        InsertDescSorted(less, r[1..], x);
        InsertBehindSorted(less, r, x);
      }
    }
  }

  /** An item greater than the head goes in front. */
  lemma InsertFrontSorted<T(!new)>(less: (T, T) -> bool, r: seq<T>, x: T)
    requires StrictOrder(less) && IsDescending(less, r)
    requires r != [] && less(r[0], x)
    ensures IsDescending(less, [x] + r)
  {
    var r' := [x] + r;
    forall j | 0 < j < |r'|
      ensures !less(r'[0], r'[j])
    {
      // otherwise less(r[0], r[j - 1]) by transitivity
      assert j - 1 == 0 || !less(r[0], r[j - 1]);
    }
  }

  /** An item not greater than the head goes behind it, into a tail that stays descending. */
  lemma InsertBehindSorted<T(!new)>(less: (T, T) -> bool, r: seq<T>, x: T)
    requires StrictOrder(less) && IsDescending(less, r)
    requires r != [] && !less(r[0], x)
    requires IsDescending(less, InsertDesc(less, r[1..], x))
    ensures IsDescending(less, [r[0]] + InsertDesc(less, r[1..], x))
  {
    var t := InsertDesc(less, r[1..], x);
    var r' := [r[0]] + t;
    forall j | 0 < j < |r'|
      ensures !less(r'[0], r'[j])
    {
      assert r'[j] == t[j - 1];
      InsertDescMember(less, r[1..], x, r'[j]);
    }
  }

  /** Insertion sort into descending order. */
  function SortDesc<T>(less: (T, T) -> bool, s: seq<T>): (r: seq<T>)
    ensures multiset(r) == multiset(s)
  {
    if s == [] then []
    else
      assert s == s[..|s| - 1] + [s[|s| - 1]];
      InsertDesc(less, SortDesc(less, s[..|s| - 1]), s[|s| - 1])
  }

  lemma {:induction false} SortDescSorted<T(!new)>(less: (T, T) -> bool, s: seq<T>)
    requires StrictOrder(less)
    ensures IsDescending(less, SortDesc(less, s))
    decreases |s|
  {
    if s != [] {
      SortDescSorted(less, s[..|s| - 1]);
      InsertDescSorted(less, SortDesc(less, s[..|s| - 1]), s[|s| - 1]);
    }
  }

  /**
   * The contents after Add on a heap of capacity `size` holding `s`: the
   * item appended while there is room, nothing when the heap is full and the
   * item is less than the root, otherwise the item at the root, sifted down.
   * It never exceeds the capacity, keeps the elements in place while there
   * is room, and on a full heap trades at most the root for the item.
   */
  function Added<T>(less: (T, T) -> bool, size: int, s: seq<T>, item: T): (r: seq<T>)
    requires 0 < size && |s| <= size
    ensures |r| <= size
    ensures |s| < size ==> |r| == |s| + 1 && r[..|s|] == s
    ensures |s| == size && less(item, s[0]) ==> r == s
    ensures |s| == size && !less(item, s[0]) ==>
      |r| == size && multiset(r) == multiset(s) - multiset{s[0]} + multiset{item}
  {
    if |s| < size then s + [item]
    else if less(item, s[0]) then s
    else
      ReplaceRootContents(less, s, item);
      Down(less, s[0 := item], 0)
  }

  /** The contents after adding `items` one after another. */
  function AddedAll<T>(less: (T, T) -> bool, size: int, s: seq<T>, items: seq<T>): seq<T>
    requires 0 < size && |s| <= size
    decreases |items|
  {
    if items == [] then s
    else
      AddedAll(less, size, Added(less, size, s, items[0]), items[1..])
  }

  /**
   * Any number of adds keeps the heap within its capacity, and once enough
   * items have been added to fill it, it is exactly full.
   */
  lemma {:induction false} AddedAllSize<T>(less: (T, T) -> bool, size: int, s: seq<T>, items: seq<T>)
    requires 0 < size && |s| <= size
    ensures |AddedAll(less, size, s, items)| <= size
    ensures |items| >= size - |s| ==> |AddedAll(less, size, s, items)| == size
    decreases |items|
  {
    if items != [] {
      AddedAllSize(less, size, Added(less, size, s, items[0]), items[1..]);
    }
  }

  function IntLess(a: int, b: int): bool {
    a < b
  }

  /** Below capacity 3, the adds 5, 1, 9 are appended as they come. */
  lemma FirstThreeAdds()
    ensures Added(IntLess, 3, Added(IntLess, 3, Added(IntLess, 3, [], 5), 1), 9) == [5, 1, 9]
  {
    assert Added(IntLess, 3, [], 5) == [5];
    assert Added(IntLess, 3, [5], 1) == [5, 1];
  }

  /**
   * The heap does not keep the greatest items: the fill phase does not
   * order the elements, so with capacity 3 and the order of integers the
   * adds 5, 1, 9, 7 replace 5, which is greater than 1, and keep 1, 7 and 9.
   */
  lemma KeepsNotTopThree()
    ensures Added(IntLess, 3, Added(IntLess, 3, Added(IntLess, 3, Added(IntLess, 3, [], 5), 1), 9), 7) == [1, 7, 9]
  {
    var full := Added(IntLess, 3, Added(IntLess, 3, Added(IntLess, 3, [], 5), 1), 9);
    FirstThreeAdds();
    assert full[0 := 7] == [7, 1, 9];
    assert Added(IntLess, 3, full, 7) == Down(IntLess, [7, 1, 9], 0);
    assert SmallerChild(IntLess, [7, 1, 9], 0) == 1;
    DownStep(IntLess, [7, 1, 9], 0, 1);
    assert Swapped([7, 1, 9], 0, 1) == [1, 7, 9];
    assert Down(IntLess, [1, 7, 9], 1) == [1, 7, 9];
  }

  class TopNHeap<T(==,!new)> {
    /** The heap's elements; `data[0]` is the root. */
    var data: seq<T>
    /** The capacity. */
    const size: int
    /** The items' Less. */
    const less: (T, T) -> bool

    ghost predicate Valid()
      reads this
    {
      |data| <= size
    }

    /** New: an empty heap of the given capacity (make panics on a negative one). */
    constructor New(capacity: int, less: (T, T) -> bool)
      requires capacity >= 0
      ensures Valid() && data == [] && size == capacity && this.less == less
    {
      data := [];
      size := capacity;
      this.less := less;
    }

    /** Less(i, j) of heap.Interface: the items' order on positions. */
    function LessAt(i: nat, j: nat): (b: bool)
      requires i < |data| && j < |data|
      reads this
      ensures b <==> less(data[i], data[j])
    {
      less(data[i], data[j])
    }

    method Swap(i: nat, j: nat)
      requires i < |data| && j < |data|
      modifies this
      ensures data == Swapped(old(data), i, j)
    {
      data := data[i := data[j]][j := data[i]];
    }

    method Push(x: T)
      modifies this
      ensures data == old(data) + [x]
    {
      data := data + [x];
    }

    method Pop() returns (item: T)
      requires |data| > 0
      modifies this
      ensures item == old(data)[|old(data)| - 1] && data == old(data)[..|old(data)| - 1]
      ensures data + [item] == old(data)
    {
      var n := |data|;
      item := data[n - 1];
      data := data[..n - 1];
    }

    /** The left child of `i`, or its right child when that one is less. */
    method ChildToCompare(i: nat) returns (j: nat)
      requires 2 * i + 1 < |data|
      ensures j == SmallerChild(less, data, i) && j < |data|
    {
      var j1: nat := 2 * i + 1;
      j := j1;
      var j2: nat := j1 + 1;
      if j2 < |data| && LessAt(j2, j1) {
        j := j2;
      }
    }

    /** container/heap's down(h, i0, h.Len()). */
    method SiftDown(i0: nat)
      requires i0 < |data|
      modifies this
      ensures data == Down(less, old(data), i0)
    {
      ghost var result := Down(less, data, i0);
      var i: nat := i0;
      while true
        invariant i < |data|
        invariant Down(less, data, i) == result
        decreases |data| - i
      {
        if 2 * i + 1 >= |data| {
          break;
        }
        var j := ChildToCompare(i);
        if !LessAt(j, i) {
          break;
        }
        DownStep(less, data, i, j);
        Swap(i, j);
        i := j;
      }
    }

    /**
     * heap.Fix(h, 0): the sift-down; the sift-up that follows when nothing
     * moved stops at once at the root.
     */
    method Fix()
      requires |data| > 0
      modifies this
      ensures data == Down(less, old(data), 0)
    {
      SiftDown(0);
    }

    /**
     * Add: appends while there is room; on a full heap, drops an item less
     * than the root and otherwise puts it at the root and sifts it down.
     * With capacity 0 the source indexes an empty slice.
     */
    method Add(item: T)
      requires Valid() && size > 0
      modifies this
      ensures Valid() && data == Added(less, size, old(data), item)
    {
      if |data| < size {
        data := data + [item];
        return;
      }
      if less(item, data[0]) {
        return;
      }
      data := data[0 := item];
      Fix();
    }

    /**
     * SortedDesc: a sorted copy of the elements. The order of items neither
     * less than the other is left to sort.Slice, so only the permutation
     * and, for a strict order, the descending order are promised.
     */
    method SortedDesc() returns (result: seq<T>)
      ensures multiset(result) == multiset(data)
      ensures StrictOrder(less) ==> IsDescending(less, result)
    {
      result := SortDesc(less, data);
      if StrictOrder(less) {
        SortDescSorted(less, data);
      }
    }

    /** First: the root, or None for an empty heap. */
    method First() returns (r: Option<T>)
      ensures data == [] ==> r == None
      ensures data != [] ==> r == Some(data[0])
    {
      if |data| == 0 {
        return None;
      }
      return Some(data[0]);
    }

    function Size(): (n: nat)
      reads this
      ensures n == |data|
    {
      |data|
    }
  }
}
