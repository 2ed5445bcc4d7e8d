/** Dijkstra's program of 5_section_6/4_shortestPath.cpp, for a matrix of any size. */
module ShortestPath {
  import opened Walks
  import opened GraphMatrix
  import opened Counting

  /** `d` is at most `INF`, and below that the length of some walk from node 0. */
  ghost predicate Estimate(g: seq<seq<int>>, v: nat, d: int)
    requires Weighted(g)
  {
    0 <= d <= INF && (d < INF ==> HasWalk(g, 0, v, d))
  }

  /** The links from the settled node `u`, to unsettled nodes before `k`, are accounted for. */
  ghost predicate Settled(g: seq<seq<int>>, s: set<nat>, dist: seq<int>, u: nat, k: int)
    requires Weighted(g) && |dist| == |g| && u < |g|
  {
    forall v: nat :: v < |g| && v !in s && v < k && g[u][v] != 0 ==> dist[v] <= dist[u] + g[u][v]
  }

  /** `s` is settled: its distances are final, and no unsettled node is nearer. */
  ghost predicate Progress(g: seq<seq<int>>, s: set<nat>, dist: seq<int>)
    requires Weighted(g)
  {
    && |dist| == |g| && |g| > 0 && dist[0] == 0
    && (forall v: nat {:trigger Estimate(g, v, dist[v])} :: v < |g| ==> Estimate(g, v, dist[v]))
    && (forall u :: u in s ==> u < |g| && dist[u] < INF)
    && (forall u {:trigger NoShorter(g, 0, u, dist[u])} :: u in s ==> NoShorter(g, 0, u, dist[u]))
    && (forall u {:trigger Settled(g, s, dist, u, |g|)} :: u in s ==> Settled(g, s, dist, u, |g|))
  }

  /** A walk that ends outside the settled nodes is at least as long as the estimate of
      some node outside: where it first leaves them. */
  lemma {:induction false} WalkLeaves(g: seq<seq<int>>, s: set<nat>, dist: seq<int>, p: seq<nat>) returns (y: nat)
    requires Weighted(g) && Progress(g, s, dist)
    requires Walk(g, p) && p[0] == 0 && p[|p| - 1] !in s
    ensures y < |g| && y !in s && Length(g, p) >= dist[y]
    decreases |p|
  {
    if |p| == 1 {
      y := 0;
    } else {
      var q := p[..|p| - 1];
      var u, v := p[|p| - 2], p[|p| - 1];
      assert Edge(g, u, v);
      WalkParts(g, p, |p| - 2);
      if u in s {
        y := v;
        assert Joins(g, q, 0, u) && NoShorter(g, 0, u, dist[u]);
        assert Settled(g, s, dist, u, |g|);
      } else {
        y := WalkLeaves(g, s, dist, q);
      }
    }
  }

  /** The unsettled node with the smallest estimate has its final distance. */
  lemma Nearest(g: seq<seq<int>>, s: set<nat>, dist: seq<int>, u: nat)
    requires Weighted(g) && Progress(g, s, dist) && u < |g| && u !in s
    requires forall v: nat :: v < |g| && v !in s ==> dist[u] <= dist[v]
    ensures NoShorter(g, 0, u, dist[u])
  {
    forall p | Joins(g, p, 0, u) ensures Length(g, p) >= dist[u] {
      var y := WalkLeaves(g, s, dist, p);
    }
  }

  /** What holds while the links of the node `u` just settled are looked at. */
  ghost predicate Relaxing(g: seq<seq<int>>, s: set<nat>, dist: seq<int>, u: nat, k: int)
    requires Weighted(g)
  {
    && |dist| == |g| && |g| > 0 && dist[0] == 0 && u < |g| && dist[u] < INF && u !in s
    && (forall v: nat {:trigger Estimate(g, v, dist[v])} :: v < |g| ==> Estimate(g, v, dist[v]))
    && (forall x :: x in s ==> x < |g| && dist[x] < INF)
    && (forall x {:trigger NoShorter(g, 0, x, dist[x])} :: x in s + {u} ==> NoShorter(g, 0, x, dist[x]))
    && (forall x {:trigger Settled(g, s + {u}, dist, x, |g|)} :: x in s ==> Settled(g, s + {u}, dist, x, |g|))
    && Settled(g, s + {u}, dist, u, k)
  }

  lemma StartRelaxing(g: seq<seq<int>>, s: set<nat>, dist: seq<int>, u: nat)
    requires Weighted(g) && Progress(g, s, dist) && u < |g| && u !in s && dist[u] < INF
    requires forall v: nat :: v < |g| && v !in s ==> dist[u] <= dist[v]
    ensures Relaxing(g, s, dist, u, 0)
  {
    Nearest(g, s, dist, u);
    forall x | x in s ensures Settled(g, s + {u}, dist, x, |g|) {
      assert Settled(g, s, dist, x, |g|);
    }
  }

  lemma SkipTo(g: seq<seq<int>>, s: set<nat>, dist: seq<int>, u: nat, k: int, k': int)
    requires Weighted(g) && Relaxing(g, s, dist, u, k)
    requires forall j :: k <= j < |g| && 0 <= j < k' ==> g[u][j] == 0
    ensures Relaxing(g, s, dist, u, k')
  {
  }

  /** One link of `u` looked at. */
  lemma RelaxOne(g: seq<seq<int>>, s: set<nat>, dist: seq<int>, u: nat, v: nat, k: int, dist': seq<int>)
    requires Weighted(g) && Relaxing(g, s, dist, u, v) && v < |g| && g[u][v] != 0
    requires forall j :: v < j < |g| && j < k ==> g[u][j] == 0
    requires dist' == if v !in s + {u} && dist[u] + g[u][v] < dist[v] then dist[v := dist[u] + g[u][v]] else dist
    ensures Relaxing(g, s, dist', u, k)
  {
    assert Estimate(g, u, dist[u]) && Estimate(g, v, dist[v]) && Estimate(g, 0, dist[0]);
    if dist' != dist {
      LongerByOne(g, u, v, dist[u]);
    }
    forall w: nat | w < |g| ensures Estimate(g, w, dist'[w]) {
      assert Estimate(g, w, dist[w]);
    }
    forall x | x in s + {u} ensures NoShorter(g, 0, x, dist'[x]) {
      assert NoShorter(g, 0, x, dist[x]) && dist'[x] == dist[x];
    }
    forall x | x in s ensures Settled(g, s + {u}, dist', x, |g|) {
      StillSettled(g, s + {u}, dist, v, x, dist');
    }
  }

  lemma LongerByOne(g: seq<seq<int>>, u: nat, v: nat, d: int)
    requires Weighted(g) && HasWalk(g, 0, u, d) && Edge(g, u, v)
    ensures HasWalk(g, 0, v, d + g[u][v])
  {
    var p :| Joins(g, p, 0, u) && Length(g, p) == d;
    OneStep(g, u, v);
    WalkJoin(g, p, [u, v]);
    assert Joins(g, p + [u, v][1..], 0, v);
  }

  /** Lowering the estimate of an unsettled node leaves the settled links accounted for. */
  lemma StillSettled(g: seq<seq<int>>, s: set<nat>, dist: seq<int>, v: nat, x: nat, dist': seq<int>)
    requires Weighted(g) && |dist| == |g| && v < |g| && x < |g| && x in s && Settled(g, s, dist, x, |g|)
    requires dist' == dist || (v !in s && |dist'| == |g| && dist'[v] <= dist[v] && dist' == dist[v := dist'[v]])
    ensures Settled(g, s, dist', x, |g|)
  {
  }

  lemma EndRelaxing(g: seq<seq<int>>, s: set<nat>, dist: seq<int>, u: nat)
    requires Weighted(g) && Relaxing(g, s, dist, u, |g|)
    ensures Progress(g, s + {u}, dist)
  {
    forall x | x in s + {u} ensures Settled(g, s + {u}, dist, x, |g|) {
    }
  }

  /** When every node is settled, or none that is left has been reached, all distances are final. */
  lemma AllFinal(g: seq<seq<int>>, s: set<nat>, dist: seq<int>)
    requires Weighted(g) && Progress(g, s, dist)
    requires forall v: nat :: v < |g| && v !in s ==> dist[v] >= INF
    ensures forall v: nat :: v < |g| ==> Distance(g, 0, v, dist[v])
  {
    forall v: nat | v < |g| ensures Distance(g, 0, v, dist[v]) {
      assert Estimate(g, v, dist[v]);
      if v in s {
        assert NoShorter(g, 0, v, dist[v]);
      } else {
        forall u: nat | u < |g| && u !in s ensures dist[v] <= dist[u] {
          assert Estimate(g, u, dist[u]);
        }
        Nearest(g, s, dist, v);
      }
    }
  }

  method Dijkstra(graph: GraphMatrix) returns (dist: array<int>)
    requires graph.Valid() && Weighted(graph.data) && graph.nodeNum > 0
    ensures fresh(dist) && dist.Length == graph.nodeNum
    ensures forall v: nat :: v < graph.nodeNum ==> Distance(graph.data, 0, v, dist[v])
  {
    ghost var g := graph.data;
    var n := graph.nodeNum;
    dist := new int[n](_ => INF);
    var visited := new bool[n](_ => false);
    dist[0] := 0;
    ghost var s: set<nat> := {};
    StartProgress(g, dist[..]);
    var count := 0;
    while count < n
      invariant 0 <= count <= n && |s| == count
      invariant forall i: nat :: i < n ==> (visited[i] <==> i in s)
      invariant Progress(g, s, dist[..])
    {
      var u := Closest(visited, dist, s);
      if u == -1 {
        break;
      }
      visited[u] := true;
      StartRelaxing(g, s, dist[..], u);
      RelaxLinks(graph, u, dist, visited, s);
      EndRelaxing(g, s, dist[..], u);
      s := s + {u};
      count := count + 1;
    }
    NoneLeft(g, s, dist[..], n);
    AllFinal(g, s, dist[..]);
  }

  lemma NoneLeft(g: seq<seq<int>>, s: set<nat>, dist: seq<int>, n: nat)
    requires Weighted(g) && Progress(g, s, dist) && n == |g|
    requires |s| == n || forall v: nat :: v < |g| && v !in s ==> dist[v] >= INF
    ensures forall v: nat :: v < |g| && v !in s ==> dist[v] >= INF
  {
    if |s| == n {
      EveryNode(s, n);
    }
  }

  lemma StartProgress(g: seq<seq<int>>, dist: seq<int>)
    requires Weighted(g) && |g| > 0 && |dist| == |g| && dist[0] == 0
    requires forall v :: 1 <= v < |g| ==> dist[v] == INF
    ensures Progress(g, {}, dist)
  {
    assert Joins(g, [0], 0, 0) && Length(g, [0]) == 0;
    assert HasWalk(g, 0, 0, 0);
    forall v: nat | v < |g| ensures Estimate(g, v, dist[v]) {
    }
  }

  /** The unsettled node with the smallest estimate below `INF`; -1 if there is none. */
  method Closest(visited: array<bool>, dist: array<int>, ghost s: set<nat>) returns (u: int)
    requires visited.Length == dist.Length
    requires forall i: nat :: i < dist.Length ==> (visited[i] <==> i in s)
    ensures u == -1 ==> forall i: nat :: i < dist.Length && i !in s ==> dist[i] >= INF
    ensures u != -1 ==> 0 <= u < dist.Length && u !in s && dist[u] < INF
    ensures u != -1 ==> forall i: nat :: i < dist.Length && i !in s ==> dist[u] <= dist[i]
  {
    u := -1;
    var minDist := INF;
    for i := 0 to dist.Length
      invariant u == -1 ==> minDist == INF
      invariant u != -1 ==> 0 <= u < i && u !in s && dist[u] == minDist < INF
      invariant forall j: nat :: j < i && j !in s ==> minDist <= dist[j]
    {
      if !visited[i] && dist[i] < minDist {
        minDist := dist[i];
        u := i;
      }
    }
  }

  method RelaxLinks(graph: GraphMatrix, u: nat, dist: array<int>, visited: array<bool>, ghost s: set<nat>)
    requires graph.Valid() && Weighted(graph.data) && dist.Length == visited.Length == graph.nodeNum
    requires u < graph.nodeNum && Relaxing(graph.data, s, dist[..], u, 0)
    requires forall i: nat :: i < graph.nodeNum ==> (visited[i] <==> i in s + {u})
    modifies dist
    ensures Relaxing(graph.data, s, dist[..], u, graph.nodeNum)
  {
    var n := graph.nodeNum;
    var v := graph.FirstNeighbor(u);
    SkipTo(graph.data, s, dist[..], u, 0, Passed(v, n));
    while v != -1
      invariant v == -1 || (0 <= v < n && graph.data[u][v] != 0)
      invariant Relaxing(graph.data, s, dist[..], u, Passed(v, n))
      decreases n - Passed(v, n)
    {
      ghost var d := dist[..];
      var weight := graph.GetWeight(u, v);
      if !visited[v] && dist[u] != INF && dist[u] + weight < dist[v] {
        dist[v] := dist[u] + weight;
      }
      var next := graph.NextNeighbor(u, v);
      RelaxOne(graph.data, s, d, u, v, Passed(next, n), dist[..]);
      v := next;
    }
  }
}
