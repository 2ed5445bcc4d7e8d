/** Kruskal's program of 5_section_6/3_minSpanTree.cpp, and its agreement with Prim's. */
module Kruskal {
  import opened SpanningTrees
  import opened GraphMatrix
  import opened Counting
  import opened MinSpanTree
  import UF = UnionFind

  datatype Edge = Edge(u: nat, v: nat, weight: int)

  function LinkOf(e: Edge): Link {
    (e.u, e.v)
  }

  ghost function LinksOf(edges: seq<Edge>): set<Link> {
    set e | e in edges :: LinkOf(e)
  }

  /** Every element is a link of the graph with its weight. */
  ghost predicate EdgesOf(g: seq<seq<int>>, edges: seq<Edge>)
    requires Square(g)
  {
    forall e :: e in edges ==> LinkOf(e) in Links(g) && e.weight == g[e.u][e.v]
  }

  predicate ByWeight(edges: seq<Edge>) {
    forall i, j :: 0 <= i < j < |edges| ==> edges[i].weight <= edges[j].weight
  }

  /** The links of rows before `u`, and those of row `u` before column `k`, are collected. */
  ghost predicate Collected(g: seq<seq<int>>, edges: seq<Edge>, u: nat, k: int)
    requires Square(g)
  {
    && EdgesOf(g, edges)
    && forall l :: l in Links(g) && (l.0 < u || (l.0 == u && l.1 < k)) ==> l in LinksOf(edges)
  }

  lemma CollectOne(g: seq<seq<int>>, edges: seq<Edge>, u: nat, v: nat, next: int)
    requires Square(g) && u < |g| && v < |g| && g[u][v] != 0
    requires Collected(g, edges, u, v) && NextNonzero(g[u], v + 1, next)
    ensures Collected(g, if u < v then edges + [Edge(u, v, g[u][v])] else edges, u, Passed(next, |g|))
  {
    if u < v {
      AppendLink(edges, Edge(u, v, g[u][v]));
    }
  }

  /** Collects every link of the graph once, with its weight. */
  method CollectEdges(graph: GraphMatrix) returns (edges: seq<Edge>)
    requires graph.Valid()
    ensures EdgesOf(graph.data, edges) && LinksOf(edges) == Links(graph.data)
  {
    edges := [];
    for u := 0 to graph.nodeNum
      invariant Collected(graph.data, edges, u, 0)
    {
      var v := graph.FirstNeighbor(u);
      while v != -1
        invariant v == -1 || (0 <= v < graph.nodeNum && graph.data[u][v] != 0)
        invariant Collected(graph.data, edges, u, Passed(v, graph.nodeNum))
        decreases graph.nodeNum - Passed(v, graph.nodeNum)
      {
        var next := graph.NextNeighbor(u, v);
        CollectOne(graph.data, edges, u, v, next);
        if u < v {
          edges := edges + [Edge(u, v, graph.GetWeight(u, v))];
        }
        v := next;
      }
    }
    assert LinksOf(edges) <= Links(graph.data);
  }

  /** Stands for the library sort: the same edges, by weight. */
  method SortEdges(edges: seq<Edge>) returns (sorted: seq<Edge>)
    ensures multiset(sorted) == multiset(edges) && ByWeight(sorted)
  {
    sorted := [];
    for i := 0 to |edges|
      invariant multiset(sorted) == multiset(edges[..i]) && ByWeight(sorted)
    {
      assert edges[..i + 1] == edges[..i] + [edges[i]];
      sorted := InsertEdge(sorted, edges[i]);
    }
    assert edges[..|edges|] == edges;
  }

  method InsertEdge(s: seq<Edge>, e: Edge) returns (sorted: seq<Edge>)
    requires ByWeight(s)
    ensures multiset(sorted) == multiset(s) + multiset{e} && ByWeight(sorted)
  {
    var k := |s|;
    while k > 0 && s[k - 1].weight > e.weight
      invariant 0 <= k <= |s|
      invariant forall j :: k <= j < |s| ==> s[j].weight > e.weight
    {
      k := k - 1;
    }
    InsertedByWeight(s, k, e);
    InsertedBag(s, k, e);
    sorted := s[..k] + [e] + s[k..];
  }

  lemma InsertedByWeight(s: seq<Edge>, k: nat, e: Edge)
    requires k <= |s| && ByWeight(s)
    requires k > 0 ==> s[k - 1].weight <= e.weight
    requires forall j :: k <= j < |s| ==> s[j].weight > e.weight
    ensures ByWeight(s[..k] + [e] + s[k..])
  {
    var s' := s[..k] + [e] + s[k..];
    forall i, j | 0 <= i < j < |s'| ensures s'[i].weight <= s'[j].weight {
      assert i < k ==> s'[i] == s[i] && s[i].weight <= s[k - 1].weight;
      assert j > k ==> s'[j] == s[j - 1];
      assert i > k ==> s'[i] == s[i - 1];
    }
  }

  lemma InsertedBag(s: seq<Edge>, k: nat, e: Edge)
    requires k <= |s|
    ensures multiset(s[..k] + [e] + s[k..]) == multiset(s) + multiset{e}
  {
    assert s == s[..k] + s[k..];
  }

  // ----- classes and components -----

  ghost predicate ClassesAre(rep: seq<nat>, a: set<Link>) {
    forall x, y :: 0 <= x < |rep| && 0 <= y < |rep| ==> (rep[x] == rep[y] <==> Connected(a, x, y))
  }

  ghost predicate RepsOk(rep: seq<nat>) {
    forall x :: 0 <= x < |rep| ==> rep[x] < |rep| && rep[rep[x]] == rep[x]
  }

  ghost predicate Within(a: set<Link>, n: nat) {
    forall e :: e in a ==> e.0 < n && e.1 < n
  }

  lemma ClassesStart(n: nat)
    ensures ClassesAre(seq(n, i => i), {})
  {
    var rep := seq(n, i => i);
    forall x, y | 0 <= x < n && 0 <= y < n ensures rep[x] == rep[y] <==> Connected({}, x, y) {
      assert Closed({}, {x});
    }
  }

  /** Merging two classes is adding a link between them. */
  lemma ClassesMerge(rep: seq<nat>, a: set<Link>, u: nat, v: nat)
    requires ClassesAre(rep, a) && RepsOk(rep) && Within(a, |rep|) && u < |rep| && v < |rep|
    ensures ClassesAre(UF.Merged(rep, u, v), a + {(u, v)})
  {
    var rep', a' := UF.Merged(rep, u, v), a + {(u, v)};
    forall x, y | 0 <= x < |rep| && 0 <= y < |rep| ensures rep'[x] == rep'[y] <==> Connected(a', x, y) {
      if Connected(a', x, y) {
        SameClassClosed(rep, a, u, v, x);
      }
      if rep'[x] == rep'[y] {
        JoinedAcross(rep, a, u, v, x, y);
      }
    }
  }

  ghost function ClassOf(rep: seq<nat>, x: nat): set<nat>
    requires x < |rep|
  {
    set i: nat | i < |rep| && rep[i] == rep[x]
  }

  lemma SameClassClosed(rep: seq<nat>, a: set<Link>, u: nat, v: nat, x: nat)
    requires ClassesAre(rep, a) && Within(a, |rep|) && u < |rep| && v < |rep| && x < |rep|
    ensures Closed(a + {(u, v)}, ClassOf(UF.Merged(rep, u, v), x))
  {
    var rep' := UF.Merged(rep, u, v);
    forall e | e in a + {(u, v)} ensures !Crosses(e, ClassOf(rep', x)) {
      if e in a {
        assert Connected(a, e.0, e.1) by {
          forall s: set<nat> | Closed(a, s) && e.0 in s ensures e.1 in s { assert !Crosses(e, s); }
        }
        assert rep[e.0] == rep[e.1];
      }
      assert rep'[e.0] == rep'[e.1];
    }
  }

  lemma JoinedAcross(rep: seq<nat>, a: set<Link>, u: nat, v: nat, x: nat, y: nat)
    requires ClassesAre(rep, a) && u < |rep| && v < |rep| && x < |rep| && y < |rep|
    requires UF.Merged(rep, u, v)[x] == UF.Merged(rep, u, v)[y]
    ensures Connected(a + {(u, v)}, x, y)
  {
    var a' := a + {(u, v)};
    assert Connected(a', u, v) && Connected(a', v, u) by {
      forall s: set<nat> | Closed(a', s) ensures u in s <==> v in s { assert !Crosses((u, v), s); }
    }
    forall p: nat, q: nat | p < |rep| && q < |rep| && rep[p] == rep[q] ensures Connected(a', p, q) {
      ConnectedMore(a, a', p, q);
    }
    if rep[x] == rep[y] {
    } else if rep[x] == rep[u] {
      assert rep[y] == rep[v];
      ConnectedTrans(a', x, u, v);
      ConnectedTrans(a', x, v, y);
    } else {
      assert rep[y] == rep[u] && rep[x] == rep[v];
      ConnectedTrans(a', x, v, u);
      ConnectedTrans(a', x, u, y);
    }
  }

  // ----- counting classes -----

  ghost function Roots(rep: seq<nat>): set<nat> {
    set i: nat | i < |rep| && rep[i] == i
  }

  lemma RootsMerge(rep: seq<nat>, u: nat, v: nat)
    requires RepsOk(rep) && u < |rep| && v < |rep| && rep[u] != rep[v]
    ensures Roots(UF.Merged(rep, u, v)) == Roots(rep) - {rep[u]} && rep[u] in Roots(rep)
    ensures RepsOk(UF.Merged(rep, u, v))
  {
  }

  lemma OneClass(rep: seq<nat>)
    requires RepsOk(rep) && |rep| > 0
    ensures |Roots(rep)| == 1 <==> forall x, y :: 0 <= x < |rep| && 0 <= y < |rep| ==> rep[x] == rep[y]
  {
    var r := rep[0];
    assert r in Roots(rep);
    if forall x, y :: 0 <= x < |rep| && 0 <= y < |rep| ==> rep[x] == rep[y] {
      forall i | i in Roots(rep) ensures i == r { assert rep[i] == rep[0]; }
      assert Roots(rep) == {r};
    }
    if |Roots(rep)| == 1 {
      SubsetSameSize({r}, Roots(rep));
      forall x, y | 0 <= x < |rep| && 0 <= y < |rep| ensures rep[x] == rep[y] {
        assert rep[x] in Roots(rep) && rep[y] in Roots(rep);
      }
    }
  }

  lemma AllRoots(n: nat)
    ensures |Roots(seq(n, i => i))| == n
  {
    NodesAre(n);
    assert Roots(seq(n, i => i)) == Nodes(n);
  }

  // ----- the main loop -----

  /** The classes are the components of the chosen links, which are promising, and each
      chosen link has left one class fewer. */
  ghost predicate Chosen(g: seq<seq<int>>, rep: seq<nat>, a: set<Link>)
    requires Square(g)
  {
    && |rep| == |g| && RepsOk(rep) && ClassesAre(rep, a)
    && Promising(g, a) && |Roots(rep)| + |a| == |g|
  }

  lemma ChosenNone(g: seq<seq<int>>)
    requires Square(g)
    ensures Chosen(g, seq(|g|, i => i), {})
  {
    ClassesStart(|g|);
    AllRoots(|g|);
    PromisingEmpty(g);
  }

  /** The first edge that joins two classes is a lightest one leaving the class of its end. */
  lemma FirstJoiningIsLightest(g: seq<seq<int>>, rep: seq<nat>, a: set<Link>, sorted: seq<Edge>, i: nat)
    requires Square(g) && Chosen(g, rep, a) && i < |sorted| && ByWeight(sorted)
    requires EdgesOf(g, sorted) && LinksOf(sorted) == Links(g)
    requires forall j :: 0 <= j < i ==> Connected(a, sorted[j].u, sorted[j].v)
    requires sorted[i] in sorted && sorted[i].u < |g| && sorted[i].v < |g| && rep[sorted[i].u] != rep[sorted[i].v]
    ensures LightestAcross(g, a, ClassOf(rep, sorted[i].u), LinkOf(sorted[i]))
  {
    var e := sorted[i];
    var s := ClassOf(rep, e.u);
    ClassClosed(rep, a, e.u);
    forall j | 0 <= j < i ensures sorted[j] in sorted && !Crosses(LinkOf(sorted[j]), s) {
      assert LinkOf(sorted[j]) in Links(g);
    }
    forall l | l in Links(g) && Crosses(l, s) ensures g[e.u][e.v] <= g[l.0][l.1] {
      assert l in LinksOf(sorted);
      var d :| d in sorted && LinkOf(d) == l;
      var j :| 0 <= j < |sorted| && sorted[j] == d;
      assert i <= j;
    }
  }

  /** No chosen link leaves a class. */
  lemma ClassClosed(rep: seq<nat>, a: set<Link>, x: nat)
    requires ClassesAre(rep, a) && Within(a, |rep|) && x < |rep|
    ensures Closed(a, ClassOf(rep, x))
  {
    forall l | l in a ensures !Crosses(l, ClassOf(rep, x)) {
      assert Connected(a, l.0, l.1) by {
        forall t: set<nat> | Closed(a, t) && l.0 in t ensures l.1 in t { assert !Crosses(l, t); }
      }
      assert rep[l.0] == rep[l.1];
    }
  }

  lemma ChooseNext(g: seq<seq<int>>, rep: seq<nat>, a: set<Link>, sorted: seq<Edge>, i: nat)
    requires Square(g) && Chosen(g, rep, a) && i < |sorted| && ByWeight(sorted)
    requires EdgesOf(g, sorted) && LinksOf(sorted) == Links(g)
    requires forall j :: 0 <= j < i ==> Connected(a, sorted[j].u, sorted[j].v)
    requires sorted[i] in sorted && sorted[i].u < |g| && sorted[i].v < |g| && rep[sorted[i].u] != rep[sorted[i].v]
    ensures var e := sorted[i];
      Chosen(g, UF.Merged(rep, e.u, e.v), a + {LinkOf(e)}) && LinkOf(e) !in a &&
      Weight(g, a + {LinkOf(e)}) == Weight(g, a) + e.weight &&
      forall j :: 0 <= j <= i ==> Connected(a + {LinkOf(e)}, sorted[j].u, sorted[j].v)
  {
    var e := sorted[i];
    var a' := a + {LinkOf(e)};
    FirstJoiningIsLightest(g, rep, a, sorted, i);
    PromisingGrows(g, a, ClassOf(rep, e.u), LinkOf(e));
    assert Within(a, |rep|);
    ClassesMerge(rep, a, e.u, e.v);
    RootsMerge(rep, e.u, e.v);
    WeightAdd(g, a, LinkOf(e));
    AllJoined(a, sorted, i);
  }

  lemma AllJoined(a: set<Link>, sorted: seq<Edge>, i: nat)
    requires i < |sorted| && sorted[i].u <= sorted[i].v
    requires forall j :: 0 <= j < i ==> Connected(a, sorted[j].u, sorted[j].v)
    ensures forall j :: 0 <= j <= i ==> Connected(a + {LinkOf(sorted[i])}, sorted[j].u, sorted[j].v)
  {
    var a' := a + {LinkOf(sorted[i])};
    forall j | 0 <= j <= i ensures Connected(a', sorted[j].u, sorted[j].v) {
      if j < i {
        ConnectedMore(a, a', sorted[j].u, sorted[j].v);
      } else {
        ConnectedLink(a', sorted[i].u, sorted[i].v);
      }
    }
  }

  /** On any graph, what has been chosen in the end connects what the graph connects. */
  lemma ChosenComponents(g: seq<seq<int>>, rep: seq<nat>, a: set<Link>, sorted: seq<Edge>, i: nat)
    requires Square(g) && Chosen(g, rep, a) && a <= Links(g)
    requires i <= |sorted| && LinksOf(sorted) == Links(g)
    requires |a| == |g| - 1 || i == |sorted|
    requires forall j :: 0 <= j < i ==> Connected(a, sorted[j].u, sorted[j].v)
    ensures SameComponents(|g|, a, Links(g))
  {
    forall x: nat, y: nat | x < |g| && y < |g| ensures Connected(a, x, y) <==> Connected(Links(g), x, y) {
      if Connected(a, x, y) {
        ConnectedMore(a, Links(g), x, y);
      }
      if |a| == |g| - 1 {
        OneClass(rep);
        assert rep[x] == rep[y];
      } else if Connected(Links(g), x, y) {
        forall l | l in Links(g) ensures Connected(a, l.0, l.1) {
          var d :| d in sorted && LinkOf(d) == l;
        }
        ConnectedReplace(Links(g), a, x, y);
      }
    }
  }

  /** Both ways out of the loop leave a minimum spanning forest: n - 1 edges have been
      chosen, or all edges have been looked at. */
  lemma ChosenForest(g: seq<seq<int>>, rep: seq<nat>, a: set<Link>, sorted: seq<Edge>, i: nat)
    requires Square(g) && Chosen(g, rep, a)
    requires i <= |sorted| && LinksOf(sorted) == Links(g)
    requires |a| == |g| - 1 || i == |sorted|
    requires forall j :: 0 <= j < i ==> Connected(a, sorted[j].u, sorted[j].v)
    ensures MinimumSpanningForest(g, a)
  {
    ChosenComponents(g, rep, a, sorted, i);
    PromisingForest(g, a);
  }

  /** In a connected graph that forest is a minimum spanning tree. */
  lemma ForestIsTree(g: seq<seq<int>>, rep: seq<nat>, a: set<Link>)
    requires ConnectedGraph(g) && Chosen(g, rep, a) && MinimumSpanningForest(g, a)
    ensures MinimumSpanningTree(g, a)
  {
    OneClass(rep);
    forall x, y | 0 <= x < |rep| && 0 <= y < |rep| ensures rep[x] == rep[y] {
      assert Connected(Links(g), x, y);
    }
    forall x: nat, y: nat | x < |g| && y < |g| ensures Connected(a, x, y) {
      assert rep[x] == rep[y];
    }
    PromisingTree(g, a);
  }

  /** What the loop keeps: the chosen edges, their total, and the edges looked at so far. */
  ghost predicate Running(g: seq<seq<int>>, rep: seq<nat>, mst: seq<Edge>, total: int, sorted: seq<Edge>, i: nat)
    requires Square(g)
  {
    && Chosen(g, rep, LinksOf(mst)) && |mst| == |LinksOf(mst)|
    && EdgesOf(g, mst) && total == Weight(g, LinksOf(mst))
    && i <= |sorted| && forall j :: 0 <= j < i ==> Connected(LinksOf(mst), sorted[j].u, sorted[j].v)
  }

  lemma RunningStep(g: seq<seq<int>>, rep: seq<nat>, mst: seq<Edge>, total: int, sorted: seq<Edge>, i: nat)
    requires Square(g) && Running(g, rep, mst, total, sorted, i) && i < |sorted| && ByWeight(sorted)
    requires EdgesOf(g, sorted) && LinksOf(sorted) == Links(g)
    ensures var e := sorted[i];
      e.u < |g| && e.v < |g| &&
      if rep[e.u] != rep[e.v] then Running(g, UF.Merged(rep, e.u, e.v), mst + [e], total + e.weight, sorted, i + 1)
      else Running(g, rep, mst, total, sorted, i + 1)
  {
    var e := sorted[i];
    assert e in sorted && LinkOf(e) in Links(g);
    if rep[e.u] != rep[e.v] {
      ChooseNext(g, rep, LinksOf(mst), sorted, i);
      AppendLink(mst, e);
    }
  }

  lemma RunningStart(g: seq<seq<int>>, sorted: seq<Edge>)
    requires Square(g)
    ensures Running(g, seq(|g|, i => i), [], 0, sorted, 0)
  {
    ChosenNone(g);
    assert LinksOf([]) == {};
  }

  lemma Finished(g: seq<seq<int>>, rep: seq<nat>, mst: seq<Edge>, total: int, sorted: seq<Edge>, i: nat)
    requires Square(g) && Running(g, rep, mst, total, sorted, i)
    requires i == |sorted| || |mst| == |g| - 1
    requires LinksOf(sorted) == Links(g)
    ensures MinimumSpanningForest(g, LinksOf(mst))
    ensures ConnectedGraph(g) ==> |mst| == |g| - 1 && MinimumSpanningTree(g, LinksOf(mst))
  {
    ChosenForest(g, rep, LinksOf(mst), sorted, i);
    if ConnectedGraph(g) {
      ForestIsTree(g, rep, LinksOf(mst));
    }
  }

  method Kruskal(graph: GraphMatrix) returns (mst: seq<Edge>, totalWeight: int)
    requires graph.Valid()
    ensures EdgesOf(graph.data, mst) && |mst| == |LinksOf(mst)|
    ensures MinimumSpanningForest(graph.data, LinksOf(mst))
    ensures ConnectedGraph(graph.data) ==> |mst| == graph.nodeNum - 1 && MinimumSpanningTree(graph.data, LinksOf(mst))
    ensures totalWeight == Weight(graph.data, LinksOf(mst))
  {
    ghost var g := graph.data;
    var n := graph.nodeNum;
    var collected := CollectEdges(graph);
    var edges := SortEdges(collected);
    SameEdges(g, collected, edges);
    var uf := new UF.UnionFind(n);
    mst, totalWeight := [], 0;
    RunningStart(g, edges);
    var i := 0;
    while i < |edges|
      invariant uf.Valid() && uf.parent.Length == n && fresh(uf) && fresh(uf.parent)
      invariant Running(g, uf.rep, mst, totalWeight, edges, i)
    {
      var e := edges[i];
      RunningStep(g, uf.rep, mst, totalWeight, edges, i);
      var ru := uf.Find(e.u);
      var rv := uf.Find(e.v);
      i := i + 1;
      if ru != rv {
        uf.Unite(e.u, e.v);
        mst := mst + [e];
        totalWeight := totalWeight + e.weight;
        if |mst| == n - 1 {
          break;
        }
      }
    }
    Finished(g, uf.rep, mst, totalWeight, edges, i);
  }

  lemma SameEdges(g: seq<seq<int>>, a: seq<Edge>, b: seq<Edge>)
    requires Square(g) && EdgesOf(g, a) && multiset(a) == multiset(b)
    ensures EdgesOf(g, b) && LinksOf(b) == LinksOf(a)
  {
    forall e ensures e in a <==> e in b {
      assert e in a <==> e in multiset(a);
      assert e in b <==> e in multiset(b);
    }
  }

  lemma AppendLink(mst: seq<Edge>, e: Edge)
    ensures LinksOf(mst + [e]) == LinksOf(mst) + {LinkOf(e)}
  {
    assert forall d :: d in mst + [e] <==> d in mst || d == e;
    forall l | l in LinksOf(mst) + {LinkOf(e)} ensures l in LinksOf(mst + [e]) {
      if l == LinkOf(e) { assert e in mst + [e]; }
    }
  }

  /** The program prints the same total twice. */
  method BothTotals(graph: GraphMatrix) returns (prim: int, kruskal: int)
    requires graph.Valid() && Suitable(graph.data)
    ensures prim == kruskal
    ensures exists t :: MinimumSpanningTree(graph.data, t) && Weight(graph.data, t) == prim
  {
    var parent, mst;
    ghost var tree;
    SuitableConnected(graph.data);
    parent, prim, tree := Prim(graph);
    mst, kruskal := Kruskal(graph);
    SameMinimum(graph.data, tree, LinksOf(mst));
  }
}
