/** Quick sort of 7_section_6/5_quickSort.cpp, whose partition moves a hole instead of
    swapping. */
module QuickSort {
  import opened Sorting

  /** The values of `o` are those of `s`, with `pivot` in the hole. */
  ghost predicate Hole(o: seq<int>, s: seq<int>, hole: nat, pivot: int) {
    hole < |s| && |s| == |o| && multiset(s[hole := pivot]) == multiset(o)
  }

  lemma MoveHole(o: seq<int>, s: seq<int>, hole: nat, from: nat, pivot: int)
    requires Hole(o, s, hole, pivot) && from < |s|
    ensures Hole(o, s[hole := s[from]], from, pivot)
  {
    var filled := s[hole := pivot];
    if from != hole {
      SwapSame(filled, hole, from);
      assert filled[hole := filled[from]][from := filled[hole]] == s[hole := s[from]][from := pivot];
    }
  }

  /** Fills the hole from another place, which becomes the hole. */
  method Fill(data: array<int>, hole: nat, from: nat, ghost o: seq<int>, ghost pivot: int)
    requires Hole(o, data[..], hole, pivot) && from < data.Length
    modifies data
    ensures Hole(o, data[..], from, pivot) && data[hole] == old(data[from])
    ensures forall k :: 0 <= k < data.Length && k != hole ==> data[k] == old(data[k])
  {
    MoveHole(o, data[..], hole, from, pivot);
    ghost var filled := data[..][hole := data[from]];
    data[hole] := data[from];
    assert data[..] == filled;
  }

  method Partition(data: array<int>, first: nat, last: nat) returns (p: nat)
    requires first <= last < data.Length
    modifies data
    ensures first <= p <= last && Rearranged(old(data[..]), data[..], first, last + 1)
    ensures forall k :: first <= k < p ==> data[k] <= data[p]
    ensures forall k :: p < k <= last ==> data[k] >= data[p]
    ensures data[p] == old(data[first])
  {
    ghost var o := data[..];
    var pivot, low, high := data[first], first, last;
    assert o[first := pivot] == o;
    while low < high
      invariant first <= low <= high <= last && Hole(o, data[..], low, pivot)
      invariant forall k :: first <= k < low ==> data[k] <= pivot
      invariant forall k :: high < k <= last ==> data[k] >= pivot
      invariant forall k :: 0 <= k < data.Length && !(first <= k <= last) ==> data[k] == o[k]
      decreases high - low
    {
      while low < high && data[high] >= pivot
        invariant low <= high <= last
        invariant forall k :: high < k <= last ==> data[k] >= pivot
        decreases high
      {
        high := high - 1;
      }
      Fill(data, low, high, o, pivot);
      while low < high && data[low] <= pivot
        invariant first <= low <= high
        invariant forall k :: first <= k < low ==> data[k] <= pivot
      {
        low := low + 1;
      }
      Fill(data, high, low, o, pivot);
    }
    ghost var s := data[..];
    data[low] := pivot;
    HoleFilled(o, s, data[..], low, first, last + 1, pivot);
    p := low;
  }

  /** With the pivot in the hole the stretch is rearranged. */
  lemma HoleFilled(o: seq<int>, s: seq<int>, d: seq<int>, hole: nat, first: nat, end: nat, pivot: int)
    requires Hole(o, s, hole, pivot) && first <= hole < end <= |o| && d == s[hole := pivot]
    requires forall k :: 0 <= k < |o| && !(first <= k < end) ==> s[k] == o[k]
    ensures Rearranged(o, d, first, end)
  {
  }

  lemma SortedParts(s1: seq<int>, s2: seq<int>, s3: seq<int>, low: nat, p: nat, high: nat)
    requires low <= p < high <= |s1|
    requires forall k :: low <= k < p ==> s1[k] <= s1[p]
    requires forall k :: p < k < high ==> s1[k] >= s1[p]
    requires Rearranged(s1, s2, low, p) && Ascending(s2[low..p])
    requires Rearranged(s2, s3, p + 1, high) && Ascending(s3[p + 1..high])
    ensures Ascending(s3[low..high]) && Rearranged(s1, s3, low, high)
  {
    StretchSame(s1, s2, low, p);
    StretchSame(s2, s3, p + 1, high);
    RearrangedWider(s1, s2, low, p, low, high);
    RearrangedWider(s2, s3, p + 1, high, low, high);
    RearrangedTwice(s1, s2, s3, low, high);
    assert forall k :: p <= k < |s1| ==> s2[k] == s2[p..][k - p] == s1[p..][k - p] == s1[k];
    assert forall k :: 0 <= k <= p ==> s3[k] == s3[..p + 1][k] == s2[..p + 1][k] == s2[k];
    forall k | low <= k < p ensures s3[k] <= s3[p] {
      assert s2[k] == s2[low..p][k - low] && s2[k] in s2[low..p];
    }
    forall k | p < k < high ensures s3[k] >= s3[p] {
      assert s3[k] == s3[p + 1..high][k - p - 1] && s3[k] in s3[p + 1..high];
    }
    assert s3[low..p] == s2[low..p];
    AroundPivot(s3, low, p, high);
  }

  lemma AroundPivot(s: seq<int>, low: nat, p: nat, high: nat)
    requires low <= p < high <= |s| && Ascending(s[low..p]) && Ascending(s[p + 1..high])
    requires forall k :: low <= k < p ==> s[k] <= s[p]
    requires forall k :: p < k < high ==> s[k] >= s[p]
    ensures Ascending(s[low..high])
  {
    forall i, j | low <= i < j < high ensures s[i] <= s[j] {
      if j < p {
        assert s[low..p][i - low] <= s[low..p][j - low];
      } else if i > p {
        assert s[p + 1..high][i - p - 1] <= s[p + 1..high][j - p - 1];
      }
    }
  }

  method QuickSort(data: array<int>, low: nat, high: int)
    requires low <= high + 1 <= data.Length
    modifies data
    ensures Ascending(data[low..high + 1]) && Rearranged(old(data[..]), data[..], low, high + 1)
    decreases high - low
  {
    if low < high {
      ghost var s0 := data[..];
      var pivotpos: int := Partition(data, low, high);
      ghost var s1 := data[..];
      QuickSort(data, low, pivotpos - 1);
      ghost var s2 := data[..];
      QuickSort(data, pivotpos + 1, high);
      SortedParts(s1, s2, data[..], low, pivotpos, high + 1);
      RearrangedTwice(s0, s1, data[..], low, high + 1);
    }
  }
}
