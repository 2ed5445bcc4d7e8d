/** Merge sort of 7_section_6/8_mergeSort.cpp, recursive and bottom-up, in place on an array
    of any length. Entries carry an identity besides their key, so that stability shows. */
module MergeSort {
  import opened Merging

  /** merge: `left..mid` and `mid + 1..right` become one sorted stretch. */
  method MergeParts(data: array<Keyed>, left: nat, right: nat, mid: nat)
    requires left <= mid < right < data.Length
    modifies data
    ensures data[left..right + 1] == Merge(old(data[left..mid + 1]), old(data[mid + 1..right + 1]))
    ensures data[..left] == old(data[..left]) && data[right + 1..] == old(data[right + 1..])
  {
    var leftArr, rightArr := data[left..mid + 1], data[mid + 1..right + 1];
    ghost var s0 := data[..];
    MergeInto(data, left, leftArr, rightArr);
    StoredAll(s0, data[..], left, Merge(leftArr, rightArr));
  }

  /** The two copies merged back into the array. */
  method MergeInto(data: array<Keyed>, left: nat, leftArr: seq<Keyed>, rightArr: seq<Keyed>)
    requires left + |leftArr| + |rightArr| <= data.Length
    modifies data
    ensures Stored(old(data[..]), data[..], left, Merge(leftArr, rightArr))
    ensures |Merge(leftArr, rightArr)| == |leftArr| + |rightArr|
  {
    ghost var s0 := data[..];
    var i, j, k, out := MergeLoop(data, left, leftArr, rightArr);
    ghost var one := OneSideLeft(out, leftArr[i..], rightArr[j..], Merge(leftArr, rightArr));
    k := CopyRest(data, k, leftArr, i, s0, left, out, one);
    k := CopyRest(data, k, rightArr, j, s0, left, one, Merge(leftArr, rightArr));
  }

  lemma OneSideLeft(out: seq<Keyed>, l: seq<Keyed>, r: seq<Keyed>, m: seq<Keyed>) returns (one: seq<Keyed>)
    requires (l == [] || r == []) && out + Merge(l, r) == m
    ensures one == out + l && m == one + r
  {
    one := out + l;
  }

  // ----- what has been stored -----

  /** `d` is `s0` with `out` written over it from `left` on. */
  ghost predicate Stored(s0: seq<Keyed>, d: seq<Keyed>, left: nat, out: seq<Keyed>) {
    && |d| == |s0| && left + |out| <= |d|
    && (forall p :: 0 <= p < left ==> d[p] == s0[p])
    && (forall p :: 0 <= p < |out| ==> d[left + p] == out[p])
    && (forall p :: left + |out| <= p < |d| ==> d[p] == s0[p])
  }

  lemma StoredMore(s0: seq<Keyed>, d: seq<Keyed>, left: nat, out: seq<Keyed>, x: Keyed)
    requires Stored(s0, d, left, out) && left + |out| < |d|
    ensures Stored(s0, d[left + |out| := x], left, out + [x])
  {
  }

  lemma StoredAll(s0: seq<Keyed>, d: seq<Keyed>, left: nat, out: seq<Keyed>)
    requires Stored(s0, d, left, out)
    ensures d[left..left + |out|] == out && d[..left] == s0[..left] && d[left + |out|..] == s0[left + |out|..]
  {
  }

  method Store(data: array<Keyed>, k: nat, x: Keyed)
    requires k < data.Length
    modifies data
    ensures data[..] == old(data[..])[k := x]
  {
    data[k] := x;
  }

  /** The loop that runs while both sides have entries; `out` is what it has stored. */
  method MergeLoop(data: array<Keyed>, left: nat, leftArr: seq<Keyed>, rightArr: seq<Keyed>)
    returns (i: nat, j: nat, k: nat, ghost out: seq<Keyed>)
    requires left + |leftArr| + |rightArr| <= data.Length
    modifies data
    ensures i <= |leftArr| && j <= |rightArr| && (i == |leftArr| || j == |rightArr|)
    ensures k == left + i + j && |out| == i + j && Stored(old(data[..]), data[..], left, out)
    ensures out + Merge(leftArr[i..], rightArr[j..]) == Merge(leftArr, rightArr)
  {
    var n1, n2 := |leftArr|, |rightArr|;
    i, j, k, out := 0, 0, left, [];
    while i < n1 && j < n2
      invariant i <= n1 && j <= n2 && k == left + i + j && |out| == i + j
      invariant Stored(old(data[..]), data[..], left, out)
      invariant out + Merge(leftArr[i..], rightArr[j..]) == Merge(leftArr, rightArr)
    {
      MergeStep(out, leftArr, rightArr, i, j);
      if leftArr[i].key <= rightArr[j].key {
        StoredMore(old(data[..]), data[..], left, out, leftArr[i]);
        Store(data, k, leftArr[i]);
        out, i := out + [leftArr[i]], i + 1;
      } else {
        StoredMore(old(data[..]), data[..], left, out, rightArr[j]);
        Store(data, k, rightArr[j]);
        out, j := out + [rightArr[j]], j + 1;
      }
      k := k + 1;
    }
  }

  lemma MergeStep(out: seq<Keyed>, l: seq<Keyed>, r: seq<Keyed>, i: nat, j: nat)
    requires i < |l| && j < |r|
    ensures out + Merge(l[i..], r[j..]) ==
            if l[i].key <= r[j].key then (out + [l[i]]) + Merge(l[i + 1..], r[j..])
            else (out + [r[j]]) + Merge(l[i..], r[j + 1..])
  {
    PickOnto(out, l[i..], r[j..]);
    assert l[i..][1..] == l[i + 1..] && r[j..][1..] == r[j + 1..];
  }

  /** What one side has left, stored behind `out`: `all` in the end. */
  method CopyRest(data: array<Keyed>, start: nat, src: seq<Keyed>, from: nat,
                  ghost s0: seq<Keyed>, ghost left: nat, ghost out: seq<Keyed>, ghost all: seq<Keyed>)
    returns (k: nat)
    requires from <= |src| && start + |src| - from <= data.Length
    requires start == left + |out| && Stored(s0, data[..], left, out) && all == out + src[from..]
    modifies data
    ensures k == start + |src| - from && Stored(s0, data[..], left, all)
  {
    k := start;
    var i := from;
    ghost var now := out;
    while i < |src|
      invariant from <= i <= |src| && k == start + i - from
      invariant now == out + src[from..i] && Stored(s0, data[..], left, now)
    {
      StoredMore(s0, data[..], left, now, src[i]);
      Store(data, k, src[i]);
      OneMore(out, src, from, i);
      now := now + [src[i]];
      k, i := k + 1, i + 1;
    }
    assert src[from..i] == src[from..];
  }

  lemma OneMore(out: seq<Keyed>, src: seq<Keyed>, from: nat, i: nat)
    requires from <= i < |src|
    ensures out + src[from..i] + [src[i]] == out + src[from..i + 1]
  {
  }

  lemma SortOne(s: seq<Keyed>)
    requires |s| <= 1
    ensures StableSort(s, s)
  {
  }

  lemma Pieces(a: seq<Keyed>, left: nat, mid: nat, right: nat)
    requires left <= mid <= right <= |a|
    ensures a[left..right] == a[left..mid] + a[mid..right]
  {
  }

  method MergeSortRecursive(data: array<Keyed>, left: nat, right: int)
    requires left <= right + 1 <= data.Length
    modifies data
    ensures StableSort(old(data[left..right + 1]), data[left..right + 1])
    ensures data[..left] == old(data[..left]) && data[right + 1..] == old(data[right + 1..])
    decreases right - left
  {
    if left < right {
      var mid := (left + right) / 2;
      ghost var s0 := data[..];
      MergeSortRecursive(data, left, mid);
      ghost var s1 := data[..];
      assert s1[mid + 1..] == s0[mid + 1..];
      MergeSortRecursive(data, mid + 1, right);
      ghost var s2 := data[..];
      assert s2[..mid + 1] == s1[..mid + 1];
      MergeParts(data, left, right, mid);
      Halves(s0, s1, s2, left, mid + 1, right + 1);
      assert data[..left] == s0[..left] && data[right + 1..] == s0[right + 1..];
    } else {
      SortOne(data[left..right + 1]);
    }
  }

  /** Two neighbouring stretches sorted one after the other, then merged. */
  lemma Halves(s0: seq<Keyed>, s1: seq<Keyed>, s2: seq<Keyed>, left: nat, mid: nat, right: nat)
    requires left <= mid <= right <= |s0| && |s1| == |s0| && |s2| == |s0|
    requires StableSort(s0[left..mid], s1[left..mid]) && s1[..left] == s0[..left] && s1[mid..] == s0[mid..]
    requires StableSort(s1[mid..right], s2[mid..right]) && s2[..mid] == s1[..mid] && s2[right..] == s1[right..]
    ensures StableSort(s0[left..right], Merge(s2[left..mid], s2[mid..right]))
    ensures s2[..left] == s0[..left] && s2[right..] == s0[right..]
  {
    Pieces(s0, left, mid, right);
    assert s1[mid..right] == s1[mid..][..right - mid] == s0[mid..right];
    assert s2[left..mid] == s2[..mid][left..] == s1[left..mid];
    StableSortMerge(s0[left..mid], s0[mid..right], s2[left..mid], s2[mid..right]);
    assert s2[..left] == s2[..mid][..left] == s1[..left];
    assert s2[right..] == s1[mid..][right - mid..] == s0[right..];
  }

  // ----- bottom-up -----

  function Min(a: int, b: int): int {
    if a < b then a else b
  }

  /** Neighbouring blocks of `size` entries merged pairwise. */
  ghost function Pass(s: seq<Keyed>, size: nat): seq<Keyed>
    requires size > 0
    decreases |s|
  {
    if s == [] then []
    else
      var h, t := Min(size, |s|), Min(2 * size, |s|);
      Merge(s[..h], s[h..t]) + Pass(s[t..], size)
  }

  /** Each block of `size` entries of `c` is that block of `o`, stably sorted. */
  ghost predicate Blocks(o: seq<Keyed>, c: seq<Keyed>, size: nat)
    requires size > 0
    decreases |o|
  {
    && |o| == |c|
    && (o != [] ==> var t := Min(size, |o|); StableSort(o[..t], c[..t]) && Blocks(o[t..], c[t..], size))
  }

  lemma {:induction false} BlocksOfOne(s: seq<Keyed>)
    ensures Blocks(s, s, 1)
    decreases |s|
  {
    if s != [] {
      SortOne(s[..1]);
      BlocksOfOne(s[1..]);
    }
  }

  lemma {:induction false} PassDoubles(o: seq<Keyed>, c: seq<Keyed>, size: nat)
    requires size > 0 && Blocks(o, c, size)
    ensures |Pass(c, size)| == |c| && Blocks(o, Pass(c, size), 2 * size)
    decreases |o|
  {
    if o != [] {
      var h, t := Min(size, |o|), Min(2 * size, |o|);
      var m, rest := Merge(c[..h], c[h..t]), Pass(c[t..], size);
      FirstPair(o, c, size, h, t);
      PassDoubles(o[t..], c[t..], size);
      MergeBag(c[..h], c[h..t]);
      assert (m + rest)[..t] == m && (m + rest)[t..] == rest;
    }
  }

  lemma FirstPair(o: seq<Keyed>, c: seq<Keyed>, size: nat, h: nat, t: nat)
    requires size > 0 && o != [] && Blocks(o, c, size) && h == Min(size, |o|) && t == Min(2 * size, |o|)
    ensures StableSort(o[..t], Merge(c[..h], c[h..t])) && Blocks(o[t..], c[t..], size)
  {
    SecondBlock(o, c, size, h, t);
    FirstBlock(o, c, size);
    StableSortMerge(o[..h], o[h..t], c[..h], c[h..t]);
    Pieces(o, 0, h, t);
    assert o[0..t] == o[..t] && o[0..h] == o[..h];
  }

  lemma FirstBlock(o: seq<Keyed>, c: seq<Keyed>, size: nat)
    requires size > 0 && o != [] && Blocks(o, c, size)
    ensures |o| == |c| && StableSort(o[..Min(size, |o|)], c[..Min(size, |o|)])
  {
  }

  lemma SecondBlock(o: seq<Keyed>, c: seq<Keyed>, size: nat, h: nat, t: nat)
    requires size > 0 && o != [] && Blocks(o, c, size) && h == Min(size, |o|) && t == Min(2 * size, |o|)
    ensures StableSort(o[h..t], c[h..t]) && Blocks(o[t..], c[t..], size)
  {
    if h == t {
      SortOne(o[h..t]);
      assert o[t..] == [] && c[t..] == [];
    } else {
      assert o[h..][..t - h] == o[h..t] && c[h..][..t - h] == c[h..t];
      assert o[h..][t - h..] == o[t..] && c[h..][t - h..] == c[t..];
    }
  }

  /** One inner loop of the bottom-up sort. */
  method MergePass(data: array<Keyed>, n: nat, size: nat)
    requires size > 0 && n == data.Length
    modifies data
    ensures data[..] == Pass(old(data[..]), size)
  {
    ghost var s := data[..];
    var left := 0;
    ghost var out := [];
    PassStart(s, size);
    while left < n
      invariant left >= 0 && |out| == Min(left, n)
      invariant PassAt(s, data[..], out, size)
      decreases n - left
    {
      out := PassRound(data, n, s, out, left, size);
      left := left + 2 * size;
    }
    PassEnd(s, data[..], out, size);
  }

  /** A pass over `s` has made `out` of the first entries and has to do the others. */
  ghost predicate PassAt(s: seq<Keyed>, d: seq<Keyed>, out: seq<Keyed>, size: nat)
    requires size > 0
  {
    |out| <= |s| && d == out + s[|out|..] && out + Pass(s[|out|..], size) == Pass(s, size)
  }

  lemma PassStart(s: seq<Keyed>, size: nat)
    requires size > 0
    ensures PassAt(s, s, [], size)
  {
    assert s[0..] == s && [] + s == s && [] + Pass(s, size) == Pass(s, size);
  }

  lemma PassEnd(s: seq<Keyed>, d: seq<Keyed>, out: seq<Keyed>, size: nat)
    requires size > 0 && |out| == |s| && PassAt(s, d, out, size)
    ensures d == Pass(s, size)
  {
    assert s[|out|..] == [];
  }

  /** The body of the inner loop; `out` is what the pass has made so far. */
  method PassRound(data: array<Keyed>, n: nat, ghost s: seq<Keyed>, ghost out: seq<Keyed>, left: nat, size: nat)
    returns (ghost out': seq<Keyed>)
    requires size > 0 && n == data.Length == |s| && |out| == left < n && PassAt(s, data[..], out, size)
    modifies data
    ensures PassAt(s, data[..], out', size) && |out'| == Min(left + 2 * size, n)
  {
    var mid := Min(left + size - 1, n - 1);
    var right := Min(left + 2 * size - 1, n - 1);
    PassStep(s, data[..], out, left, mid + 1, right + 1, size);
    out' := MergePair(data, s, out, left, mid, right);
  }

  method MergePair(data: array<Keyed>, ghost s: seq<Keyed>, ghost out: seq<Keyed>, left: nat, mid: nat, right: nat)
    returns (ghost out': seq<Keyed>)
    requires |s| == data.Length && |out| == left <= mid <= right < |s| && data[..] == out + s[|out|..]
    modifies data
    ensures out' == out + Merge(s[left..mid + 1], s[mid + 1..right + 1])
    ensures |out'| == right + 1 && data[..] == out' + s[right + 1..]
  {
    ghost var d := data[..];
    if mid < right {
      MergeParts(data, left, right, mid);
    }
    PairMerged(s, d, data[..], out, left, mid + 1, right + 1);
    out' := out + Merge(s[left..mid + 1], s[mid + 1..right + 1]);
  }

  /** A pair of blocks merged behind what the pass has made; a single block stays as it is. */
  lemma PairMerged(s: seq<Keyed>, d: seq<Keyed>, d': seq<Keyed>, out: seq<Keyed>, left: nat, mid: nat, right: nat)
    requires |out| == left <= mid <= right <= |s| && d == out + s[left..] && |d'| == |d|
    requires mid == right ==> d' == d
    requires mid < right ==> d'[left..right] == Merge(d[left..mid], d[mid..right])
    requires d'[..left] == d[..left] && d'[right..] == d[right..]
    ensures var out' := out + Merge(s[left..mid], s[mid..right]); |out'| == right && d' == out' + s[right..]
  {
    Behind(out, s, d, left, mid);
    Behind(out, s, d, mid, right);
    Behind(out, s, d, right, |s|);
    MergeBag(s[left..mid], s[mid..right]);
    assert d'[left..right] == Merge(s[left..mid], s[mid..right]) by {
      if mid == right { assert Merge(s[left..mid], s[mid..right]) == s[left..mid]; }
    }
    ThreePieces(d', left, right);
  }

  lemma Behind(out: seq<Keyed>, s: seq<Keyed>, d: seq<Keyed>, i: nat, j: nat)
    requires |out| <= i <= j <= |s| && d == out + s[|out|..]
    ensures d[i..j] == s[i..j] && d[..|out|] == out
  {
  }

  lemma ThreePieces(d: seq<Keyed>, left: nat, right: nat)
    requires left <= right <= |d|
    ensures d == d[..left] + d[left..right] + d[right..]
  {
  }

  lemma PassStep(s: seq<Keyed>, d: seq<Keyed>, out: seq<Keyed>, left: nat, mid: nat, right: nat, size: nat)
    requires size > 0 && |out| == left < |s| && PassAt(s, d, out, size)
    requires mid == Min(left + size, |s|) && right == Min(left + 2 * size, |s|)
    ensures var out' := out + Merge(s[left..mid], s[mid..right]);
      |out'| == right && PassAt(s, out' + s[right..], out', size)
  {
    var m := Merge(s[left..mid], s[mid..right]);
    MergeBag(s[left..mid], s[mid..right]);
    PassFrom(s, left, mid, right, size);
    InFront(out, m, Pass(s[right..], size));
  }

  lemma PassFrom(s: seq<Keyed>, left: nat, mid: nat, right: nat, size: nat)
    requires size > 0 && left < |s| && mid == Min(left + size, |s|) && right == Min(left + 2 * size, |s|)
    ensures Pass(s[left..], size) == Merge(s[left..mid], s[mid..right]) + Pass(s[right..], size)
  {
    var r := s[left..];
    var h: nat, t: nat := Min(size, |r|), Min(2 * size, |r|);
    assert h == mid - left && t == right - left;
    assert r[..h] == s[left..mid];
    assert r[h..t] == s[mid..right];
    assert r[t..] == s[right..];
  }

  method MergeSortIterative(data: array<Keyed>, n: nat)
    requires n == data.Length
    modifies data
    ensures StableSort(old(data[..]), data[..])
  {
    ghost var o := data[..];
    BlocksOfOne(o);
    var size := 1;
    while size < n
      invariant size > 0 && Blocks(o, data[..], size)
      decreases n - size
    {
      PassDoubles(o, data[..], size);
      MergePass(data, n, size);
      size := size * 2;
    }
    OneBlock(o, data[..], size);
  }

  lemma OneBlock(o: seq<Keyed>, c: seq<Keyed>, size: nat)
    requires size > 0 && size >= |o| && Blocks(o, c, size)
    ensures StableSort(o, c)
  {
    if o == [] {
      SortOne(o);
    } else {
      assert Min(size, |o|) == |o| == |c|;
      assert o[..|o|] == o;
      assert c[..|c|] == c;
    }
  }

  /** Both sorts leave the same array behind. */
  method BothSorts(data: array<Keyed>) returns (a: array<Keyed>, b: array<Keyed>)
    ensures StableSort(data[..], a[..]) && a[..] == b[..]
  {
    a, b := new Keyed[data.Length](_ => Keyed(0, 0)), new Keyed[data.Length](_ => Keyed(0, 0));
    forall i | 0 <= i < data.Length { a[i] := data[i]; }
    forall i | 0 <= i < data.Length { b[i] := data[i]; }
    assert a[..] == data[..] && b[..] == data[..];
    assert a[0..a.Length - 1 + 1] == a[..];
    MergeSortRecursive(a, 0, a.Length - 1);
    assert a[0..a.Length - 1 + 1] == a[..];
    MergeSortIterative(b, b.Length);
    StableSortUnique(data[..], a[..], b[..]);
  }
}
