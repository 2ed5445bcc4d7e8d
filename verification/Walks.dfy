/** Walks in a directed graph given by its weight matrix, and their lengths: what
    "shortest path" means for 5_section_6/4_shortestPath.cpp. */
module Walks {

  const INF := 999999

  /** A matrix of nonnegative weights, zero for "no edge". */
  ghost predicate Weighted(g: seq<seq<int>>) {
    forall i :: 0 <= i < |g| ==> |g[i]| == |g| && forall j :: 0 <= j < |g| ==> g[i][j] >= 0
  }

  ghost predicate Edge(g: seq<seq<int>>, a: nat, b: nat)
    requires Weighted(g)
  {
    a < |g| && b < |g| && g[a][b] != 0
  }

  ghost predicate Walk(g: seq<seq<int>>, p: seq<nat>)
    requires Weighted(g)
  {
    |p| > 0 && p[0] < |g| && forall i :: 0 <= i < |p| - 1 ==> Edge(g, p[i], p[i + 1])
  }

  ghost predicate Joins(g: seq<seq<int>>, p: seq<nat>, x: nat, y: nat)
    requires Weighted(g)
  {
    Walk(g, p) && p[0] == x && p[|p| - 1] == y
  }

  ghost function Length(g: seq<seq<int>>, p: seq<nat>): (len: nat)
    requires Weighted(g) && Walk(g, p)
  {
    if |p| == 1 then 0
    else
      assert Edge(g, p[|p| - 2], p[|p| - 1]);
      assert Walk(g, p[..|p| - 1]);
      Length(g, p[..|p| - 1]) + g[p[|p| - 2]][p[|p| - 1]]
  }

  lemma WalkNodes(g: seq<seq<int>>, p: seq<nat>)
    requires Weighted(g) && Walk(g, p)
    ensures forall i :: 0 <= i < |p| ==> p[i] < |g|
  {
    forall i | 0 <= i < |p| ensures p[i] < |g| {
      if i > 0 { assert Edge(g, p[i - 1], p[i]); }
    }
  }

  lemma WalkParts(g: seq<seq<int>>, p: seq<nat>, i: nat)
    requires Weighted(g) && Walk(g, p) && i < |p|
    ensures Walk(g, p[..i + 1]) && Walk(g, p[i..])
  {
    WalkNodes(g, p);
  }

  /** Lengths add up where a walk is cut. */
  lemma {:induction false} LengthSplit(g: seq<seq<int>>, p: seq<nat>, i: nat)
    requires Weighted(g) && Walk(g, p) && i < |p|
    ensures Walk(g, p[..i + 1]) && Walk(g, p[i..])
    ensures Length(g, p) == Length(g, p[..i + 1]) + Length(g, p[i..])
    decreases |p|
  {
    WalkParts(g, p, i);
    if i == |p| - 1 {
      assert p[..i + 1] == p;
    } else {
      var q := p[..|p| - 1];
      assert Edge(g, p[|p| - 2], p[|p| - 1]);
      assert Walk(g, q);
      LengthSplit(g, q, i);
      assert q[..i + 1] == p[..i + 1];
      assert p[i..][..|p[i..]| - 1] == q[i..];
    }
  }

  lemma WalkJoin(g: seq<seq<int>>, p: seq<nat>, q: seq<nat>)
    requires Weighted(g) && Walk(g, p) && Walk(g, q) && p[|p| - 1] == q[0]
    ensures Walk(g, p + q[1..]) && (p + q[1..])[0] == p[0]
    ensures (p + q[1..])[|p + q[1..]| - 1] == q[|q| - 1]
    ensures Length(g, p + q[1..]) == Length(g, p) + Length(g, q)
  {
    var r := p + q[1..];
    forall i | 0 <= i < |r| - 1 ensures Edge(g, r[i], r[i + 1]) {
      if i < |p| - 1 {
        assert Edge(g, p[i], p[i + 1]);
      } else {
        var k := i - |p| + 1;
        assert Edge(g, q[k], q[k + 1]);
        assert r[i] == q[k];
      }
    }
    LengthSplit(g, r, |p| - 1);
    assert r[..|p|] == p && r[|p| - 1..] == q;
  }

  lemma OneStep(g: seq<seq<int>>, x: nat, y: nat)
    requires Weighted(g) && Edge(g, x, y)
    ensures Joins(g, [x, y], x, y) && Length(g, [x, y]) == g[x][y]
  {
    assert [x, y][..1] == [x];
  }

  // ----- distances -----

  ghost predicate HasWalk(g: seq<seq<int>>, x: nat, y: nat, d: int)
    requires Weighted(g)
  {
    exists p :: Joins(g, p, x, y) && Length(g, p) == d
  }

  ghost predicate NoShorter(g: seq<seq<int>>, x: nat, y: nat, d: int)
    requires Weighted(g)
  {
    forall p :: Joins(g, p, x, y) ==> Length(g, p) >= d
  }

  ghost predicate Reachable(g: seq<seq<int>>, x: nat, y: nat)
    requires Weighted(g)
  {
    exists p :: Joins(g, p, x, y)
  }

  /** `d` is the length of a shortest walk from `x` to `y`. */
  ghost predicate Shortest(g: seq<seq<int>>, x: nat, y: nat, d: int)
    requires Weighted(g)
  {
    HasWalk(g, x, y, d) && NoShorter(g, x, y, d)
  }

  /** What the programs print: the distance, or `INF` when there is none below `INF`. */
  ghost predicate Distance(g: seq<seq<int>>, x: nat, y: nat, d: int)
    requires Weighted(g)
  {
    d <= INF && NoShorter(g, x, y, d) && (d < INF ==> HasWalk(g, x, y, d))
  }

  lemma DistanceUnique(g: seq<seq<int>>, x: nat, y: nat, d: int, e: int)
    requires Weighted(g) && Distance(g, x, y, d) && Distance(g, x, y, e)
    ensures d == e
  {
    if d < INF {
      var p :| Joins(g, p, x, y) && Length(g, p) == d;
    }
    if e < INF {
      var p :| Joins(g, p, x, y) && Length(g, p) == e;
    }
  }

  // ----- when INF means unreachable -----

  ghost predicate WeightsUpTo(g: seq<seq<int>>, m: nat)
    requires Weighted(g)
  {
    forall i, j :: 0 <= i < |g| && 0 <= j < |g| ==> g[i][j] <= m
  }

  lemma {:induction false} LengthBound(g: seq<seq<int>>, p: seq<nat>, m: nat)
    requires Weighted(g) && Walk(g, p) && WeightsUpTo(g, m)
    ensures Length(g, p) <= (|p| - 1) * m
  {
    if |p| > 1 {
      var q := p[..|p| - 1];
      assert Edge(g, p[|p| - 2], p[|p| - 1]);
      assert Walk(g, q);
      LengthBound(g, q, m);
      assert (|p| - 1) * m == (|q| - 1) * m + m;
    }
  }

  /** More entries than values: some value comes twice. */
  lemma {:induction false} Pigeonhole(p: seq<nat>, n: nat) returns (i: nat, j: nat)
    requires |p| > n && forall k :: 0 <= k < |p| ==> p[k] < n
    ensures i < j < |p| && p[i] == p[j]
    decreases n
  {
    var last := |p| - 1;
    if k :| 0 <= k < last && p[k] == p[last] {
      return k, last;
    } else {
      // rename the largest value to the last entry's value, which occurs nowhere else
      var q := seq(last, k requires 0 <= k < last => if p[k] == n - 1 then p[last] else p[k]);
      i, j := Pigeonhole(q, n - 1);
    }
  }

  /** Whatever can be reached can be reached along at most `|g|` nodes. */
  lemma {:induction false} ShortWalk(g: seq<seq<int>>, p: seq<nat>, x: nat, y: nat) returns (q: seq<nat>)
    requires Weighted(g) && Joins(g, p, x, y)
    ensures Joins(g, q, x, y) && |q| <= |g|
    decreases |p|
  {
    if |p| <= |g| {
      q := p;
    } else {
      WalkNodes(g, p);
      var i, j := Pigeonhole(p, |g|);
      WalkParts(g, p, i);
      WalkParts(g, p, j);
      WalkJoin(g, p[..i + 1], p[j..]);
      q := ShortWalk(g, p[..i + 1] + p[j..][1..], x, y);
    }
  }

  /** With weights small against `INF`, the printed value is the distance exactly when
      there is a walk, and `INF` exactly when there is none. */
  lemma InfMeansUnreachable(g: seq<seq<int>>, x: nat, y: nat, d: int, m: nat)
    requires Weighted(g) && WeightsUpTo(g, m) && |g| > 0 && (|g| - 1) * m < INF
    requires Distance(g, x, y, d)
    ensures d == INF <==> !Reachable(g, x, y)
    ensures d != INF <==> Shortest(g, x, y, d)
  {
    if Reachable(g, x, y) {
      var p :| Joins(g, p, x, y);
      var q := ShortWalk(g, p, x, y);
      LengthBound(g, q, m);
      Monotone(|q| - 1, |g| - 1, m);
    }
  }

  lemma Monotone(a: nat, b: nat, m: nat)
    requires a <= b
    ensures a * m <= b * m
  {
  }
}
