/** Heap sort of 7_section_6/7_heapSort.cpp. Its max and min versions differ in the
    direction of two comparisons only; `max` says which is meant. */
module HeapSort {
  import opened HeapShape
  import opened Sorting
  import QuickSort

  /** `x` may stand above `y`. */
  predicate Over(max: bool, x: int, y: int) {
    if max then x >= y else x <= y
  }

  ghost predicate Ordered(max: bool, s: seq<int>, k: int)
    requires 0 < k < |s|
  {
    Over(max, s[Parent(k)], s[k])
  }

  /** Among the first `n`, the nodes from `lo` on stand over their children. */
  ghost predicate HeapFrom(max: bool, s: seq<int>, n: nat, lo: nat)
    requires n <= |s|
  {
    forall k {:trigger Ordered(max, s, k)} :: 0 < k < n && Parent(k) >= lo ==> Ordered(max, s, k)
  }

  /** The same, except for node `i`, whose children may take its place. */
  ghost predicate HeapBut(max: bool, s: seq<int>, n: nat, lo: nat, i: nat)
    requires n <= |s|
  {
    && (forall k {:trigger Ordered(max, s, k)} :: 0 < k < n && Parent(k) >= lo && Parent(k) != i ==> Ordered(max, s, k))
    && (i > 0 && Parent(i) >= lo ==>
          forall c {:trigger Parent(c)} :: 0 < c < n && Parent(c) == i ==> Over(max, s[Parent(i)], s[c]))
  }

  lemma {:induction false} RootOver(max: bool, s: seq<int>, n: nat, k: nat)
    requires n <= |s| && HeapFrom(max, s, n, 0) && k < n
    ensures Over(max, s[0], s[k])
    decreases k
  {
    if k > 0 {
      assert Ordered(max, s, k);
      RootOver(max, s, n, Parent(k));
    }
  }

  /** `child` stands over all children of `i`. */
  ghost predicate TopChild(max: bool, s: seq<int>, n: nat, i: nat, child: nat)
    requires n <= |s|
  {
    && 0 < child < n && Parent(child) == i
    && forall c {:trigger Parent(c)} :: 0 < c < n && Parent(c) == i ==> Over(max, s[child], s[c])
  }

  lemma SwapWithChild(max: bool, s: seq<int>, n: nat, lo: nat, i: nat, child: nat)
    requires n <= |s| && lo <= i && HeapBut(max, s, n, lo, i) && TopChild(max, s, n, i, child)
    requires !Over(max, s[i], s[child])
    ensures HeapBut(max, s[i := s[child]][child := s[i]], n, lo, child)
  {
    var t := s[i := s[child]][child := s[i]];
    forall k | 0 < k < n && Parent(k) >= lo && Parent(k) != child ensures Ordered(max, t, k) {
      if Parent(k) != i && k != i {
        assert Ordered(max, s, k);
      }
    }
    forall c | 0 < c < n && Parent(c) == child ensures Over(max, t[Parent(child)], t[c]) {
      assert Ordered(max, s, c);
    }
  }

  /** What the two comparisons find. */
  lemma Largest(max: bool, s: seq<int>, n: nat, index: nat, largest: nat)
    requires n <= |s|
    requires var lson, rson := index * 2 + 1, index * 2 + 2;
      var l := if lson < n && !Over(max, s[index], s[lson]) then lson else index;
      largest == if rson < n && !Over(max, s[l], s[rson]) then rson else l
    ensures largest != index ==> TopChild(max, s, n, index, largest) && !Over(max, s[index], s[largest])
    ensures largest == index ==>
      forall c {:trigger Parent(c)} :: 0 < c < n && Parent(c) == index ==> Over(max, s[index], s[c])
  {
    forall c | c > 0 ensures Parent(c) == index <==> c == index * 2 + 1 || c == index * 2 + 2 {
      ChildrenOf(index, c);
    }
  }

  lemma SwapWithin(s: seq<int>, i: nat, j: nat, n: nat)
    requires i < n && j < n && n <= |s|
    ensures Rearranged(s, s[i := s[j]][j := s[i]], 0, n)
  {
    SwapSame(s, i, j);
  }

  method Heapify(max: bool, data: array<int>, n: nat, index: nat, ghost lo: nat)
    requires n <= data.Length && lo <= index && HeapBut(max, data[..], n, lo, index)
    modifies data
    ensures HeapFrom(max, data[..], n, lo) && Rearranged(old(data[..]), data[..], 0, n)
    decreases n - index
  {
    var largest, lson, rson := index, index * 2 + 1, index * 2 + 2;
    if lson < n && !Over(max, data[largest], data[lson]) {
      largest := lson;
    }
    if rson < n && !Over(max, data[largest], data[rson]) {
      largest := rson;
    }
    ghost var s := data[..];
    Largest(max, s, n, index, largest);
    if largest != index {
      SwapWithChild(max, s, n, lo, index, largest);
      SwapWithin(s, index, largest, n);
      ghost var t := s[index := s[largest]][largest := s[index]];
      data[index], data[largest] := data[largest], data[index];
      assert data[..] == t;
      Heapify(max, data, n, largest, lo);
      RearrangedTwice(s, t, data[..], 0, n);
    } else {
      AlreadyHeap(max, s, n, lo, index);
    }
  }

  lemma AlreadyHeap(max: bool, s: seq<int>, n: nat, lo: nat, i: nat)
    requires n <= |s| && HeapBut(max, s, n, lo, i)
    requires forall c {:trigger Parent(c)} :: 0 < c < n && Parent(c) == i ==> Over(max, s[i], s[c])
    ensures HeapFrom(max, s, n, lo)
  {
  }

  /** The part from `i` on is in its final order, and everything in it stands over what is
      before it. */
  ghost predicate Tail(max: bool, s: seq<int>, i: nat) {
    && (forall b, c :: i <= b < c < |s| ==> Over(max, s[c], s[b]))
    && (forall a, b :: 0 <= a < i <= b < |s| ==> Over(max, s[b], s[a]))
  }

  /** The start index n / 2 + 1 lies beyond the last node with a child: nothing is read there. */
  method BuildHeap(max: bool, data: array<int>, n: nat)
    requires n == data.Length
    modifies data
    ensures HeapFrom(max, data[..], n, 0) && Rearranged(old(data[..]), data[..], 0, n)
  {
    ghost var s := data[..];
    var i := n / 2 + 1;
    while i >= 0
      invariant -1 <= i <= n / 2 + 1
      invariant HeapFrom(max, data[..], n, i + 1) && Rearranged(s, data[..], 0, n)
    {
      ghost var t := data[..];
      assert HeapBut(max, t, n, i, i);
      Heapify(max, data, n, i, i);
      RearrangedTwice(s, t, data[..], 0, n);
      i := i - 1;
    }
  }

  /** The greatest (least) value goes behind the others. */
  lemma Extract(max: bool, s: seq<int>, i: nat)
    requires 0 < i < |s| && HeapFrom(max, s, i + 1, 0) && Tail(max, s, i + 1)
    ensures var t := s[i := s[0]][0 := s[i]];
      HeapBut(max, t, i, 0, 0) && Tail(max, t, i) && multiset(t) == multiset(s)
  {
    var t := s[i := s[0]][0 := s[i]];
    SwapSame(s, i, 0);
    forall k | 0 < k < i && Parent(k) != 0 ensures Ordered(max, t, k) {
      assert Ordered(max, s, k);
    }
    forall a | 0 <= a < i ensures Over(max, t[i], t[a]) {
      RootOver(max, s, i + 1, if a == 0 then i else a);
    }
  }

  /** Rearranging what is before the tail leaves the tail as it is. */
  lemma TailStays(max: bool, s: seq<int>, t: seq<int>, i: nat)
    requires i <= |s| && Tail(max, s, i) && Rearranged(s, t, 0, i)
    ensures Tail(max, t, i)
  {
    StretchSame(s, t, 0, i);
    assert forall b :: i <= b < |s| ==> t[b] == t[i..][b - i] == s[i..][b - i] == s[b];
    forall a, b | 0 <= a < i <= b < |s| ensures Over(max, t[b], t[a]) {
      assert t[0..i][a] == t[a] && t[a] in t[0..i];
      var k :| 0 <= k < i && s[0..i][k] == t[a];
    }
  }

  method SortHeap(max: bool, data: array<int>, n: nat)
    requires n == data.Length && HeapFrom(max, data[..], n, 0)
    modifies data
    ensures Tail(max, data[..], 0) && Rearranged(old(data[..]), data[..], 0, n)
  {
    ghost var s := data[..];
    var i := n - 1;
    while i > 0
      invariant -1 <= i < n && (i >= 0 || n == 0)
      invariant HeapFrom(max, data[..], i + 1, 0) && Tail(max, data[..], i + 1) && Rearranged(s, data[..], 0, n)
    {
      ghost var t := data[..];
      Extract(max, t, i);
      data[i], data[0] := data[0], data[i];
      ghost var u := data[..];
      assert u == t[i := t[0]][0 := t[i]];
      Heapify(max, data, i, 0, 0);
      TailStays(max, u, data[..], i);
      RearrangedWider(u, data[..], 0, i, 0, n);
      RearrangedTwice(s, u, data[..], 0, n);
      i := i - 1;
    }
  }

  method HeapSortMax(data: array<int>, n: nat)
    requires n == data.Length
    modifies data
    ensures Ascending(data[..]) && multiset(data[..]) == multiset(old(data[..]))
  {
    BuildHeap(true, data, n);
    SortHeap(true, data, n);
  }

  method HeapSortMin(data: array<int>, n: nat)
    requires n == data.Length
    modifies data
    ensures Descending(data[..]) && multiset(data[..]) == multiset(old(data[..]))
  {
    BuildHeap(false, data, n);
    SortHeap(false, data, n);
  }

  /** Quick sort and both heap sorts of the same array. */
  method AllSorts(data: array<int>) returns (a: array<int>, b: array<int>, c: array<int>)
    ensures Ascending(a[..]) && multiset(a[..]) == multiset(data[..])
    ensures b[..] == a[..] && c[..] == Reversed(a[..])
  {
    a := Copy(data);
    b := Copy(data);
    c := Copy(data);
    QuickSort.QuickSort(a, 0, a.Length - 1);
    assert a[0..a.Length - 1 + 1] == a[..];
    HeapSortMax(b, b.Length);
    HeapSortMin(c, c.Length);
    AscendingUnique(b[..], a[..]);
    ReversedAscending(c[..], a[..]);
  }

  method Copy(data: array<int>) returns (a: array<int>)
    ensures fresh(a) && a[..] == data[..]
  {
    a := new int[data.Length](_ => 0);
    forall i | 0 <= i < data.Length { a[i] := data[i]; }
  }

  lemma ReversedAscending(d: seq<int>, a: seq<int>)
    requires Descending(d) && Ascending(a) && multiset(d) == multiset(a)
    ensures d == Reversed(a)
  {
    ReversedSame(d);
    AscendingUnique(Reversed(d), a);
    assert d == Reversed(Reversed(d));
  }
}
