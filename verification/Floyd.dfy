/** Floyd's all-pairs program of 5_section_6/4_shortestPath.cpp, and its agreement with
    Dijkstra's. */
module Floyd {
  import opened Walks
  import opened GraphMatrix
  import ShortestPath

  /** All nodes strictly inside the walk come before `k`. */
  ghost predicate InteriorBelow(p: seq<nat>, k: nat) {
    forall i :: 0 < i < |p| - 1 ==> p[i] < k
  }

  ghost predicate JoinsVia(g: seq<seq<int>>, p: seq<nat>, x: nat, y: nat, k: nat)
    requires Weighted(g)
  {
    Joins(g, p, x, y) && InteriorBelow(p, k)
  }

  /** The distance over walks whose inner nodes come before `k`. */
  ghost predicate DistanceVia(g: seq<seq<int>>, x: nat, y: nat, k: nat, d: int)
    requires Weighted(g)
  {
    && 0 <= d <= INF
    && (forall p :: JoinsVia(g, p, x, y, k) ==> Length(g, p) >= d)
    && (d < INF ==> exists p :: JoinsVia(g, p, x, y, k) && Length(g, p) == d)
  }

  /** The update of one matrix entry. */
  function Improved(dij: int, dik: int, dkj: int): int {
    if dik != INF && dkj != INF && dij > dik + dkj then dik + dkj else dij
  }

  /** An entry as the distance it stands for: weights may exceed `INF`. */
  function Capped(d: int): int {
    if d < INF then d else INF
  }

  /** Entries beyond `INF` never decide an update. */
  lemma CappedImproved(dij: nat, dik: nat, dkj: nat)
    ensures Capped(Improved(dij, dik, dkj)) == Improved(Capped(dij), Capped(dik), Capped(dkj))
  {
  }

  lemma {:induction false} SplitAt(g: seq<seq<int>>, p: seq<nat>, x: nat, y: nat, k: nat, a: nat, b: nat)
    requires Weighted(g) && JoinsVia(g, p, x, y, k + 1) && a <= b < |p| && p[a] == k && p[b] == k
    requires forall i :: 0 <= i < a ==> p[i] != k
    requires forall i :: b < i < |p| ==> p[i] != k
    ensures JoinsVia(g, p[..a + 1], x, k, k) && JoinsVia(g, p[b..], k, y, k)
    ensures Length(g, p) >= Length(g, p[..a + 1]) + Length(g, p[b..])
  {
    LengthSplit(g, p, b);
    LengthSplit(g, p[..b + 1], a);
    assert p[..b + 1][..a + 1] == p[..a + 1];
    forall i | 0 < i < |p[b..]| - 1 ensures p[b..][i] < k {
      assert p[b + i] < k + 1 && p[b + i] != k;
    }
  }

  /** A walk through nodes up to `k` either avoids `k` inside or runs to it and on from it. */
  lemma ViaLower(g: seq<seq<int>>, p: seq<nat>, x: nat, y: nat, k: nat, dij: int, dik: int, dkj: int)
    requires Weighted(g) && JoinsVia(g, p, x, y, k + 1)
    requires DistanceVia(g, x, y, k, dij) && DistanceVia(g, x, k, k, dik) && DistanceVia(g, k, y, k, dkj)
    ensures Length(g, p) >= Improved(dij, dik, dkj)
  {
    if InteriorBelow(p, k) {
      assert JoinsVia(g, p, x, y, k);
    } else {
      var m :| 0 < m < |p| - 1 && p[m] >= k;
      assert p[m] == k;
      var a := First(p, k, m);
      var b := Last(p, k, m);
      SplitAt(g, p, x, y, k, a, b);
    }
  }

  lemma {:induction false} First(p: seq<nat>, k: nat, m: nat) returns (a: nat)
    requires m < |p| && p[m] == k
    ensures a <= m && p[a] == k && forall i :: 0 <= i < a ==> p[i] != k
    decreases m
  {
    a := m;
    if i :| 0 <= i < m && p[i] == k {
      a := First(p, k, i);
    }
  }

  lemma {:induction false} Last(p: seq<nat>, k: nat, m: nat) returns (b: nat)
    requires m < |p| && p[m] == k
    ensures m <= b < |p| && p[b] == k && forall i :: b < i < |p| ==> p[i] != k
    decreases |p| - m
  {
    b := m;
    if i :| m < i < |p| && p[i] == k {
      b := Last(p, k, i);
    }
  }

  lemma ViaJoin(g: seq<seq<int>>, x: nat, y: nat, k: nat, dik: int, dkj: int)
    requires Weighted(g) && DistanceVia(g, x, k, k, dik) && DistanceVia(g, k, y, k, dkj)
    requires dik < INF && dkj < INF
    ensures exists p :: JoinsVia(g, p, x, y, k + 1) && Length(g, p) == dik + dkj
  {
    var p :| JoinsVia(g, p, x, k, k) && Length(g, p) == dik;
    var q :| JoinsVia(g, q, k, y, k) && Length(g, q) == dkj;
    WalkJoin(g, p, q);
    var r := p + q[1..];
    forall i | 0 < i < |r| - 1 ensures r[i] < k + 1 {
      if i >= |p| { assert r[i] == q[i - |p| + 1]; }
    }
    assert JoinsVia(g, r, x, y, k + 1);
  }

  /** One entry, once node `k` may be used inside. */
  lemma ImprovedDistance(g: seq<seq<int>>, x: nat, y: nat, k: nat, dij: int, dik: int, dkj: int)
    requires Weighted(g)
    requires DistanceVia(g, x, y, k, dij) && DistanceVia(g, x, k, k, dik) && DistanceVia(g, k, y, k, dkj)
    ensures DistanceVia(g, x, y, k + 1, Improved(dij, dik, dkj))
  {
    var d := Improved(dij, dik, dkj);
    forall p | JoinsVia(g, p, x, y, k + 1) ensures Length(g, p) >= d {
      ViaLower(g, p, x, y, k, dij, dik, dkj);
    }
    if d < INF {
      if d == dij {
        var p :| JoinsVia(g, p, x, y, k) && Length(g, p) == dij;
        assert JoinsVia(g, p, x, y, k + 1);
      } else {
        ViaJoin(g, x, y, k, dik, dkj);
      }
    }
  }

  /** The entries the program starts from. */
  ghost function Direct(g: seq<seq<int>>, x: nat, y: nat): int
    requires Weighted(g) && x < |g| && y < |g|
  {
    if x == y then 0 else if g[x][y] != 0 then g[x][y] else INF
  }

  lemma DirectDistance(g: seq<seq<int>>, x: nat, y: nat)
    requires Weighted(g) && x < |g| && y < |g|
    ensures DistanceVia(g, x, y, 0, Capped(Direct(g, x, y)))
  {
    forall p | JoinsVia(g, p, x, y, 0) && x != y ensures |p| == 2 && g[x][y] != 0 && Length(g, p) == g[x][y] {
      assert |p| >= 2 && Edge(g, p[0], p[1]);
      assert p == [x, y];
      OneStep(g, x, y);
    }
    if x == y {
      assert JoinsVia(g, [x], x, y, 0) && Length(g, [x]) == 0;
    } else if g[x][y] != 0 {
      OneStep(g, x, y);
      assert JoinsVia(g, [x, y], x, y, 0);
    }
  }

  lemma AllInterior(g: seq<seq<int>>, x: nat, y: nat, d: int)
    requires Weighted(g) && DistanceVia(g, x, y, |g|, d)
    ensures Distance(g, x, y, d)
  {
    forall p | Joins(g, p, x, y) ensures Length(g, p) >= d {
      WalkNodes(g, p);
      assert JoinsVia(g, p, x, y, |g|);
    }
  }

  // ----- the matrix -----

  ghost function Matrix(d: array2<int>): (m: seq<seq<int>>)
    reads d
    ensures |m| == d.Length0 && forall i :: 0 <= i < |m| ==> |m[i]| == d.Length1
    ensures forall i, j :: 0 <= i < d.Length0 && 0 <= j < d.Length1 ==> m[i][j] == d[i, j]
  {
    seq(d.Length0, i requires 0 <= i < d.Length0 reads d =>
      seq(d.Length1, j requires 0 <= j < d.Length1 reads d => d[i, j]))
  }

  ghost predicate AllVia(g: seq<seq<int>>, m: seq<seq<int>>, k: nat)
    requires Weighted(g)
  {
    |m| == |g| && (forall i :: 0 <= i < |m| ==> |m[i]| == |g|) &&
    forall i: nat, j: nat {:trigger m[i][j]} :: i < |g| && j < |g| ==> DistanceVia(g, i, j, k, Capped(m[i][j]))
  }

  /** Round `k` has come to entry (`r`, `c`): earlier entries are improved, the rest, and
      row and column `k`, are as the round found them in `m`. */
  ghost predicate MidRound(m: seq<seq<int>>, m': seq<seq<int>>, k: nat, r: nat, c: nat) {
    && |m'| == |m| && k < |m| && (forall i :: 0 <= i < |m| ==> |m[i]| == |m'[i]| == |m|)
    && (forall i, j {:trigger m'[i][j]} :: 0 <= i < |m| && 0 <= j < |m| ==>
         m'[i][j] == if i < r || (i == r && j < c) then Improved(m[i][j], m[i][k], m[k][j]) else m[i][j])
  }

  /** The in-place update may read row and column `k` although it overwrites them: the
      diagonal entry is 0, so the round leaves them alone. */
  lemma PivotUnchanged(g: seq<seq<int>>, m: seq<seq<int>>, k: nat)
    requires Weighted(g) && AllVia(g, m, k) && k < |g|
    ensures m[k][k] == 0
    ensures forall i :: 0 <= i < |g| ==> Improved(m[i][k], m[i][k], m[k][k]) == m[i][k]
    ensures forall j :: 0 <= j < |g| ==> Improved(m[k][j], m[k][k], m[k][j]) == m[k][j]
  {
    assert DistanceVia(g, k, k, k, Capped(m[k][k]));
    assert JoinsVia(g, [k], k, k, k) && Length(g, [k]) == 0;
  }

  lemma MidRoundStep(g: seq<seq<int>>, m: seq<seq<int>>, m': seq<seq<int>>, m'': seq<seq<int>>, k: nat, r: nat, c: nat)
    requires Weighted(g) && AllVia(g, m, k) && k < |g| && r < |g| && c < |g|
    requires MidRound(m, m', k, r, c)
    requires |m''| == |m| && forall i :: 0 <= i < |m| ==> |m''[i]| == |m|
    requires forall i, j :: 0 <= i < |m| && 0 <= j < |m| ==>
      m''[i][j] == if i == r && j == c then Improved(m'[r][c], m'[r][k], m'[k][c]) else m'[i][j]
    ensures MidRound(m, m'', k, r, c + 1)
  {
    PivotUnchanged(g, m, k);
    assert m'[r][c] == m[r][c];
    assert m'[r][k] == m[r][k];
    assert m'[k][c] == m[k][c];
    forall i, j | 0 <= i < |m| && 0 <= j < |m|
      ensures m''[i][j] == if i < r || (i == r && j < c + 1) then Improved(m[i][j], m[i][k], m[k][j]) else m[i][j]
    {
    }
  }

  lemma RoundDone(g: seq<seq<int>>, m: seq<seq<int>>, m': seq<seq<int>>, k: nat)
    requires Weighted(g) && AllVia(g, m, k) && k < |g| && MidRound(m, m', k, |g|, 0)
    ensures AllVia(g, m', k + 1) && (NoneBeyond(g, m) ==> NoneBeyond(g, m'))
  {
    forall i: nat, j: nat | i < |g| && j < |g| ensures DistanceVia(g, i, j, k + 1, Capped(m'[i][j])) {
      assert DistanceVia(g, i, j, k, Capped(m[i][j]));
      assert DistanceVia(g, i, k, k, Capped(m[i][k])) && DistanceVia(g, k, j, k, Capped(m[k][j]));
      ImprovedDistance(g, i, j, k, Capped(m[i][j]), Capped(m[i][k]), Capped(m[k][j]));
      CappedImproved(m[i][j], m[i][k], m[k][j]);
    }
  }

  /** Without weights beyond `INF` no entry exceeds it. */
  ghost predicate NoneBeyond(g: seq<seq<int>>, m: seq<seq<int>>)
    requires Weighted(g)
  {
    WeightsUpTo(g, INF) ==> forall i, j :: 0 <= i < |m| && 0 <= j < |m[i]| ==> m[i][j] <= INF
  }

  /** Every entry, capped, is the distance; with no weight beyond `INF`, every entry is. */
  method Floyd(graph: GraphMatrix) returns (dist: array2<int>)
    requires graph.Valid() && Weighted(graph.data)
    ensures fresh(dist) && dist.Length0 == dist.Length1 == graph.nodeNum
    ensures forall x: nat, y: nat :: x < graph.nodeNum && y < graph.nodeNum ==>
      Distance(graph.data, x, y, Capped(dist[x, y]))
    ensures WeightsUpTo(graph.data, INF) ==>
      forall x: nat, y: nat :: x < graph.nodeNum && y < graph.nodeNum ==> Distance(graph.data, x, y, dist[x, y])
  {
    ghost var g := graph.data;
    var n := graph.nodeNum;
    dist := DirectMatrix(graph);
    for k := 0 to n
      invariant AllVia(g, Matrix(dist), k) && NoneBeyond(g, Matrix(dist))
    {
      Round(graph, dist, k);
    }
    forall x: nat, y: nat | x < n && y < n
      ensures Distance(g, x, y, Capped(dist[x, y])) && (WeightsUpTo(g, INF) ==> Capped(dist[x, y]) == dist[x, y])
    {
      assert Matrix(dist)[x][y] == dist[x, y];
      AllInterior(g, x, y, Capped(dist[x, y]));
    }
  }

  method DirectMatrix(graph: GraphMatrix) returns (dist: array2<int>)
    requires graph.Valid() && Weighted(graph.data)
    ensures fresh(dist) && dist.Length0 == dist.Length1 == graph.nodeNum
    ensures AllVia(graph.data, Matrix(dist), 0) && NoneBeyond(graph.data, Matrix(dist))
  {
    ghost var g := graph.data;
    var n := graph.nodeNum;
    dist := new int[n, n];
    for i := 0 to n
      invariant forall x: nat, y: nat :: x < i && y < n ==> dist[x, y] == Direct(g, x, y)
    {
      for j := 0 to n
        invariant forall x: nat, y: nat :: x < i && y < n ==> dist[x, y] == Direct(g, x, y)
        invariant forall y: nat :: y < j ==> dist[i, y] == Direct(g, i, y)
      {
        if i == j {
          dist[i, j] := 0;
        } else {
          var w := graph.GetWeight(i, j);
          dist[i, j] := if w != 0 then w else INF;
        }
      }
    }
    forall x: nat, y: nat | x < n && y < n ensures DistanceVia(g, x, y, 0, Capped(dist[x, y])) {
      DirectDistance(g, x, y);
    }
  }

  method Round(graph: GraphMatrix, dist: array2<int>, k: nat)
    requires graph.Valid() && Weighted(graph.data) && k < graph.nodeNum
    requires dist.Length0 == dist.Length1 == graph.nodeNum
    requires AllVia(graph.data, Matrix(dist), k) && NoneBeyond(graph.data, Matrix(dist))
    modifies dist
    ensures AllVia(graph.data, Matrix(dist), k + 1) && NoneBeyond(graph.data, Matrix(dist))
  {
    ghost var g, m := graph.data, Matrix(dist);
    var n := graph.nodeNum;
    for i := 0 to n
      invariant MidRound(m, Matrix(dist), k, i, 0)
    {
      for j := 0 to n
        invariant MidRound(m, Matrix(dist), k, i, j)
      {
        ghost var before := Matrix(dist);
        if dist[i, k] != INF && dist[k, j] != INF && dist[i, j] > dist[i, k] + dist[k, j] {
          dist[i, j] := dist[i, k] + dist[k, j];
        }
        MidRoundStep(g, m, before, Matrix(dist), k, i, j);
      }
    }
    RoundDone(g, m, Matrix(dist), k);
  }

  /** Row 0 of the one program's result is the other's. */
  method BothDistances(graph: GraphMatrix) returns (dist: array<int>, all: array2<int>)
    requires graph.Valid() && Weighted(graph.data) && graph.nodeNum > 0
    ensures dist.Length == all.Length0 == all.Length1 == graph.nodeNum
    ensures forall v: nat :: v < graph.nodeNum ==> dist[v] == Capped(all[0, v])
    ensures WeightsUpTo(graph.data, INF) ==> forall v: nat :: v < graph.nodeNum ==> dist[v] == all[0, v]
  {
    dist := ShortestPath.Dijkstra(graph);
    all := Floyd(graph);
    forall v: nat | v < graph.nodeNum
      ensures dist[v] == Capped(all[0, v]) && (WeightsUpTo(graph.data, INF) ==> dist[v] == all[0, v])
    {
      DistanceUnique(graph.data, 0, v, dist[v], Capped(all[0, v]));
      if WeightsUpTo(graph.data, INF) {
        DistanceUnique(graph.data, 0, v, dist[v], all[0, v]);
      }
    }
  }
}
