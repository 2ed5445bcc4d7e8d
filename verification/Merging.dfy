/** Merging two sequences by key with ties going to the first one, and stable sorting. */
module Merging {

  datatype Keyed = Keyed(id: nat, key: int)

  function Merge(v: seq<Keyed>, a: seq<Keyed>): (m: seq<Keyed>)
    decreases |v| + |a|
  {
    if v == [] then a
    else if a == [] then v
    else if v[0].key <= a[0].key then [v[0]] + Merge(v[1..], a)
    else [a[0]] + Merge(v, a[1..])
  }

  lemma MergePicks(v: seq<Keyed>, a: seq<Keyed>)
    ensures v != [] && (a == [] || v[0].key <= a[0].key) ==> Merge(v, a) == [v[0]] + Merge(v[1..], a)
    ensures a != [] && (v == [] || v[0].key > a[0].key) ==> Merge(v, a) == [a[0]] + Merge(v, a[1..])
  {
  }

  /** The entry picked moves from the merge to the end of what has been put out. */
  lemma PickOnto(out: seq<Keyed>, v: seq<Keyed>, a: seq<Keyed>)
    ensures v != [] && (a == [] || v[0].key <= a[0].key) ==>
              out + Merge(v, a) == (out + [v[0]]) + Merge(v[1..], a)
    ensures a != [] && (v == [] || v[0].key > a[0].key) ==>
              out + Merge(v, a) == (out + [a[0]]) + Merge(v, a[1..])
  {
    MergePicks(v, a);
  }

  ghost predicate Sorted(s: seq<Keyed>) {
    forall i, j :: 0 <= i < j < |s| ==> s[i].key <= s[j].key
  }

  lemma {:induction false} MergeBag(v: seq<Keyed>, a: seq<Keyed>)
    ensures multiset(Merge(v, a)) == multiset(v) + multiset(a) && |Merge(v, a)| == |v| + |a|
    decreases |v| + |a|
  {
    MergePicks(v, a);
    if v != [] && a != [] {
      if v[0].key <= a[0].key {
        MergeBag(v[1..], a);
        BagOf(v);
      } else {
        MergeBag(v, a[1..]);
        BagOf(a);
      }
    }
  }

  lemma BagOf(s: seq<Keyed>)
    requires s != []
    ensures multiset(s) == multiset{s[0]} + multiset(s[1..])
  {
    assert s == [s[0]] + s[1..];
  }

  lemma {:induction false} MergeSorted(v: seq<Keyed>, a: seq<Keyed>)
    requires Sorted(v) && Sorted(a)
    ensures Sorted(Merge(v, a))
    ensures forall p :: p in Merge(v, a) ==> p in v || p in a
    decreases |v| + |a|
  {
    if v != [] && a != [] {
      if v[0].key <= a[0].key {
        MergeSorted(v[1..], a);
      } else {
        MergeSorted(v, a[1..]);
      }
    }
  }

  // ----- stability: entries with the same key keep their order -----

  function OfKey(s: seq<Keyed>, k: int): (r: seq<Keyed>)
  {
    if s == [] then [] else (if s[0].key == k then [s[0]] else []) + OfKey(s[1..], k)
  }

  lemma {:induction false} OfKeyJoin(s: seq<Keyed>, t: seq<Keyed>, k: int)
    ensures OfKey(s + t, k) == OfKey(s, k) + OfKey(t, k)
  {
    if s == [] {
      assert s + t == t;
    } else {
      assert (s + t)[1..] == s[1..] + t;
      OfKeyJoin(s[1..], t, k);
      InFront(if s[0].key == k then [s[0]] else [], OfKey(s[1..], k), OfKey(t, k));
    }
  }

  lemma InFront(x: seq<Keyed>, y: seq<Keyed>, z: seq<Keyed>)
    ensures x + (y + z) == (x + y) + z
  {
  }

  lemma {:induction false} OfKeyNone(s: seq<Keyed>, k: int)
    requires forall i :: 0 <= i < |s| ==> s[i].key != k
    ensures OfKey(s, k) == []
  {
    if s != [] { OfKeyNone(s[1..], k); }
  }

  lemma OfKeyFirst(x: Keyed, s: seq<Keyed>, k: int)
    ensures OfKey([x] + s, k) == (if x.key == k then [x] else []) + OfKey(s, k)
  {
    assert ([x] + s)[1..] == s;
  }

  lemma FirstOfKey(v: seq<Keyed>, a: seq<Keyed>, m: seq<Keyed>, rest: seq<Keyed>, k: int)
    requires v != [] && m == [v[0]] + rest && OfKey(rest, k) == OfKey(v[1..], k) + OfKey(a, k)
    ensures OfKey(m, k) == OfKey(v, k) + OfKey(a, k)
  {
    OfKeyFirst(v[0], rest, k);
    InFront(if v[0].key == k then [v[0]] else [], OfKey(v[1..], k), OfKey(a, k));
  }

  lemma SecondOfKey(v: seq<Keyed>, a: seq<Keyed>, m: seq<Keyed>, rest: seq<Keyed>, k: int)
    requires a != [] && m == [a[0]] + rest && OfKey(rest, k) == OfKey(v, k) + OfKey(a[1..], k)
    requires Sorted(v) && v != [] && v[0].key > a[0].key
    ensures OfKey(m, k) == OfKey(v, k) + OfKey(a, k)
  {
    var x: seq<Keyed> := if a[0].key == k then [a[0]] else [];
    OfKeyFirst(a[0], rest, k);
    if a[0].key == k {
      OfKeyNone(v, k);
    }
    PastEmpty(x, OfKey(v, k), OfKey(a[1..], k));
  }

  lemma PastEmpty(x: seq<Keyed>, y: seq<Keyed>, z: seq<Keyed>)
    requires x == [] || y == []
    ensures x + (y + z) == y + (x + z)
  {
  }

  lemma {:induction false} MergeOfKey(v: seq<Keyed>, a: seq<Keyed>, k: int)
    requires Sorted(v) && Sorted(a)
    ensures OfKey(Merge(v, a), k) == OfKey(v, k) + OfKey(a, k)
    decreases |v| + |a|
  {
    MergePicks(v, a);
    if v != [] && a != [] {
      if v[0].key <= a[0].key {
        MergeOfKey(v[1..], a, k);
        FirstOfKey(v, a, Merge(v, a), Merge(v[1..], a), k);
      } else {
        MergeOfKey(v, a[1..], k);
        SecondOfKey(v, a, Merge(v, a), Merge(v, a[1..]), k);
      }
    }
  }

  /** `t` is `s` sorted by key, entries with the same key in their old order. */
  ghost predicate StableSort(s: seq<Keyed>, t: seq<Keyed>) {
    Sorted(t) && forall k :: OfKey(t, k) == OfKey(s, k)
  }

  lemma StableSortMerge(s: seq<Keyed>, t: seq<Keyed>, s': seq<Keyed>, t': seq<Keyed>)
    requires StableSort(s, s') && StableSort(t, t')
    ensures StableSort(s + t, Merge(s', t'))
  {
    MergeSorted(s', t');
    forall k ensures OfKey(Merge(s', t'), k) == OfKey(s + t, k) {
      MergeOfKey(s', t', k);
      OfKeyJoin(s, t, k);
    }
  }

  lemma {:induction false} OfKeyIn(s: seq<Keyed>, k: int)
    ensures forall x :: x in OfKey(s, k) <==> x in s && x.key == k
  {
    if s != [] { OfKeyIn(s[1..], k); }
  }

  /** There is only one way to sort stably. */
  lemma {:induction false} StableSortUnique(s: seq<Keyed>, t: seq<Keyed>, u: seq<Keyed>)
    requires StableSort(s, t) && StableSort(s, u)
    ensures t == u
    decreases |t|
  {
    SameKeys(s, t, u);
    SameKeys(s, u, t);
    assert u != [] ==> u[0] in u;
    if t != [] {
      assert t[0] in t;
      assert t[0].key == u[0].key;
      assert OfKey(t, t[0].key)[0] == t[0] && OfKey(u, t[0].key)[0] == u[0];
      forall k ensures OfKey(t[1..], k) == OfKey(u[1..], k) {
        assert OfKey(t, k) == OfKey(u, k);
        OfKeyTail(t, k);
        OfKeyTail(u, k);
      }
      assert StableSort(t[1..], t[1..]);
      StableSortUnique(t[1..], t[1..], u[1..]);
    }
  }

  lemma OfKeyTail(s: seq<Keyed>, k: int)
    requires s != []
    ensures s[0].key == k ==> OfKey(s, k) != []
    ensures OfKey(s[1..], k) == if s[0].key == k then OfKey(s, k)[1..] else OfKey(s, k)
  {
    assert OfKey(s, k) == (if s[0].key == k then [s[0]] else []) + OfKey(s[1..], k);
  }

  lemma SameKeys(s: seq<Keyed>, t: seq<Keyed>, u: seq<Keyed>)
    requires StableSort(s, t) && StableSort(s, u)
    ensures forall x :: x in t ==> x in u
  {
    forall x | x in t ensures x in u {
      OfKeyIn(t, x.key);
      OfKeyIn(u, x.key);
      assert OfKey(t, x.key) == OfKey(s, x.key) == OfKey(u, x.key);
    }
  }
}
