/** Sets of nodes 0 .. n-1 and how large they are; sequences without repetition. */
module Counting {

  ghost function Nodes(n: nat): set<nat> {
    if n == 0 then {} else Nodes(n - 1) + {n - 1}
  }

  lemma {:induction false} NodesAre(n: nat)
    ensures |Nodes(n)| == n
    ensures forall i: nat :: i in Nodes(n) <==> i < n
  {
    if n > 0 { NodesAre(n - 1); }
  }

  lemma SubsetSize<T>(a: set<T>, b: set<T>)
    requires a <= b
    ensures |a| <= |b|
  {
    assert b == a + (b - a);
  }

  lemma SubsetSameSize<T>(a: set<T>, b: set<T>)
    requires a <= b && |a| == |b|
    ensures a == b
  {
    assert b == a + (b - a);
    assert |b - a| == 0;
  }

  /** n different nodes below n are all of them. */
  lemma EveryNode(s: set<nat>, n: nat)
    requires |s| == n && forall u :: u in s ==> u < n
    ensures forall v: nat :: v < n ==> v in s
  {
    NodesAre(n);
    SubsetSameSize(s, Nodes(n));
  }

  lemma SomeoneMissing(s: set<nat>, n: nat) returns (v: nat)
    requires |s| < n
    ensures v < n && v !in s
  {
    NodesAre(n);
    if Nodes(n) <= s {
      SubsetSize(Nodes(n), s);
    }
    v :| v in Nodes(n) && v !in s;
  }

  lemma OnlyOneMissing(s: set<nat>, n: nat, v: nat)
    requires |s| == n - 1 && v < n && v !in s && forall i :: i in s ==> i < n
    ensures forall i: nat :: i < n && i !in s ==> i == v
  {
    EveryNode(s + {v}, n);
  }

  ghost predicate Once<T>(s: seq<T>) {
    forall i, j :: 0 <= i < j < |s| ==> s[i] != s[j]
  }

  ghost function Elements<T>(s: seq<T>): set<T> {
    set x | x in s
  }

  lemma OnceMore<T>(s: seq<T>, x: T)
    requires Once(s) && x !in s
    ensures Once(s + [x]) && Elements(s + [x]) == Elements(s) + {x}
  {
  }

  lemma OnceJoin<T>(s: seq<T>, t: seq<T>)
    requires Once(s) && Once(t) && forall x :: x in t ==> x !in s
    ensures Once(s + t) && Elements(s + t) == Elements(s) + Elements(t)
  {
    var r := s + t;
    forall i, j | 0 <= i < j < |r| ensures r[i] != r[j] {
      if i < |s| <= j {
        assert r[j] in t && r[i] in s;
      }
    }
    assert forall x :: x in r <==> x in s || x in t;
  }

  lemma {:induction false} OnceCount<T>(s: seq<T>)
    requires Once(s)
    ensures |Elements(s)| == |s|
  {
    if s != [] {
      var r := s[..|s| - 1];
      OnceCount(r);
      assert s == r + [s[|s| - 1]];
      OnceMore(r, s[|s| - 1]);
    }
  }

  // ----- how many entries of a sequence have a property -----

  ghost function Those<T>(ws: seq<T>, p: T -> bool): (r: set<nat>)
    ensures forall i: nat :: i in r <==> i < |ws| && p(ws[i])
  {
    set i: nat | i < |ws| && p(ws[i])
  }

  lemma WithOrWithout(a: set<nat>, w: nat)
    ensures |a| == |a - {w}| + if w in a then 1 else 0
  {
    assert a == if w in a then (a - {w}) + {w} else a - {w};
  }

  lemma Changed<T>(ws: seq<T>, w: nat, x: T, p: T -> bool)
    requires w < |ws|
    ensures |Those(ws[w := x], p)| == |Those(ws, p)| - (if p(ws[w]) then 1 else 0) + (if p(x) then 1 else 0)
  {
    var before, after := Those(ws, p), Those(ws[w := x], p);
    assert before - {w} == after - {w};
    WithOrWithout(before, w);
    WithOrWithout(after, w);
  }

  lemma Appended<T>(ws: seq<T>, x: T, p: T -> bool)
    ensures |Those(ws + [x], p)| == |Those(ws, p)| + if p(x) then 1 else 0
  {
    var before, after := Those(ws, p), Those(ws + [x], p);
    assert before == after - {|ws|};
    WithOrWithout(after, |ws|);
  }
}
