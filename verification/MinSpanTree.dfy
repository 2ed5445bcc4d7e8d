/** Prim's program of 5_section_6/3_minSpanTree.cpp, for a matrix of any size (the
    constants 6 and 5 there are the node count n and n - 1). */
module MinSpanTree {
  import opened SpanningTrees
  import opened GraphMatrix
  import opened Counting

  const UNREACHED := 9999

  /** Stands for an entry of the parent array that has not been written. */
  const UNSET := -2

  /** An undirected graph with a node to start from. */
  ghost predicate Undirected(g: seq<seq<int>>) {
    Square(g) && Symmetric(g) && |g| > 0
  }

  /** The links that Prim's program can choose: those lighter than its sentinel. */
  ghost function Light(g: seq<seq<int>>): (es: set<Link>)
    requires Square(g)
    ensures es <= Links(g)
  {
    set e | e in Links(g) && g[e.0][e.1] < UNREACHED
  }

  /** The graphs on which Prim's program sets every parent: its lighter links connect them. */
  ghost predicate Suitable(g: seq<seq<int>>) {
    Undirected(g) && Spans(g, Light(g))
  }

  lemma SuitableConnected(g: seq<seq<int>>)
    requires Suitable(g)
    ensures ConnectedGraph(g)
  {
    forall a: nat, b: nat | a < |g| && b < |g| ensures Connected(Links(g), a, b) {
      ConnectedMore(Light(g), Links(g), a, b);
    }
  }

  /** A connected graph need not be suitable: its only link weighs 9999. */
  lemma HeavyLink()
    ensures var g := [[0, UNREACHED], [UNREACHED, 0]]; ConnectedGraph(g) && !Connected(Light(g), 0, 1) && !Suitable(g)
  {
    var g := [[0, UNREACHED], [UNREACHED, 0]];
    assert Closed(Light(g), {0});
    assert g[0][1] != 0 && (0, 1) in Links(g);
    forall a: nat, b: nat | a < 2 && b < 2 ensures Connected(Links(g), a, b) {
      ConnectedLink(Links(g), 0, 1);
      ConnectedSym(Links(g), 0, 1);
    }
  }

  ghost predicate InTree(g: seq<seq<int>>, s: set<nat>, a: set<Link>, parent: seq<int>, rank: seq<nat>, i: nat)
    requires |parent| == |rank| == |g| && i < |g|
  {
    && Connected(a, 0, i)
    && (i != 0 ==> 0 <= parent[i] < |g| && parent[i] in s && rank[parent[i]] < rank[i] &&
                   MakeLink(parent[i], i) in a)
  }

  /** The links `a` form a promising tree over the nodes `s`, rooted at node 0. */
  ghost predicate Grown(g: seq<seq<int>>, s: set<nat>, a: set<Link>, parent: seq<int>, rank: seq<nat>)
    requires Square(g)
  {
    && |parent| == |rank| == |g|
    && 0 in s && |a| == |s| - 1 && Promising(g, a) && a <= Light(g)
    && (forall i :: i in s ==> i < |g|)
    && (forall i {:trigger InTree(g, s, a, parent, rank, i)} :: i in s ==> InTree(g, s, a, parent, rank, i))
    && (forall e :: e in a ==> e.0 in s && e.1 in s)
  }

  /** `key` and `parent` describe the lightest link from `s` to the node `v` outside. */
  ghost predicate Nearest(g: seq<seq<int>>, s: set<nat>, parent: seq<int>, key: seq<int>, v: nat)
    requires Square(g) && |parent| == |key| == |g| && v < |g|
  {
    && key[v] <= UNREACHED && (key[v] == UNREACHED ==> parent[v] == UNSET)
    && (key[v] < UNREACHED ==>
         0 <= parent[v] < |g| && parent[v] in s && g[parent[v]][v] != 0 && key[v] == g[parent[v]][v])
    && (forall x :: x in s && x < |g| && g[x][v] != 0 ==> key[v] <= g[x][v])
  }

  ghost predicate Frontier(g: seq<seq<int>>, s: set<nat>, parent: seq<int>, key: seq<int>)
    requires Square(g)
  {
    |parent| == |key| == |g| &&
    forall v: nat {:trigger Nearest(g, s, parent, key, v)} :: v < |g| && v !in s ==> Nearest(g, s, parent, key, v)
  }

  /** The link to the nearest outside node is a lightest one across the cut. */
  lemma NearestIsLightest(g: seq<seq<int>>, s: set<nat>, a: set<Link>, parent: seq<int>, key: seq<int>, u: nat)
    requires Undirected(g) && Frontier(g, s, parent, key) && Closed(a, s)
    requires u < |g| && u !in s && key[u] < UNREACHED
    requires forall v: nat :: v < |g| && v !in s ==> key[u] <= key[v]
    ensures 0 <= parent[u] < |g| && parent[u] in s
    ensures LightestAcross(g, a, s, MakeLink(parent[u], u)) && MakeLink(parent[u], u) in Light(g)
  {
    assert Nearest(g, s, parent, key, u);
    var p := parent[u];
    var e := MakeLink(p, u);
    assert g[p][u] == g[u][p];
    forall f | f in Links(g) && Crosses(f, s) ensures g[e.0][e.1] <= g[f.0][f.1] {
      var x, y := if f.0 in s then f.0 else f.1, if f.0 in s then f.1 else f.0;
      assert g[x][y] == g[f.0][f.1] && Nearest(g, s, parent, key, y);
    }
  }

  /** Taking the nearest outside node `u` into the tree. */
  lemma Grow(g: seq<seq<int>>, s: set<nat>, a: set<Link>, parent: seq<int>, rank: seq<nat>, key: seq<int>, u: nat)
    returns (a': set<Link>, rank': seq<nat>)
    requires Undirected(g) && Grown(g, s, a, parent, rank) && Frontier(g, s, parent, key)
    requires u < |g| && u !in s && key[u] < UNREACHED
    requires forall v: nat :: v < |g| && v !in s ==> key[u] <= key[v]
    ensures Grown(g, s + {u}, a', parent, rank')
  {
    NearestIsLightest(g, s, a, parent, key, u);
    var e := MakeLink(parent[u], u);
    a' := a + {e};
    rank' := rank[u := rank[parent[u]] + 1];
    PromisingGrows(g, a, s, e);
    AllInTree(g, s, a, parent, rank, u);
  }

  lemma AllInTree(g: seq<seq<int>>, s: set<nat>, a: set<Link>, parent: seq<int>, rank: seq<nat>, u: nat)
    requires Square(g) && Grown(g, s, a, parent, rank) && u !in s && u < |g|
    requires 0 <= parent[u] < |g| && parent[u] in s
    ensures var e, rank' := MakeLink(parent[u], u), rank[u := rank[parent[u]] + 1];
      forall i {:trigger InTree(g, s + {u}, a + {e}, parent, rank', i)} ::
        i in s + {u} ==> InTree(g, s + {u}, a + {e}, parent, rank', i)
  {
    var e, rank' := MakeLink(parent[u], u), rank[u := rank[parent[u]] + 1];
    forall i | i in s + {u} ensures InTree(g, s + {u}, a + {e}, parent, rank', i) {
      if i != u {
        StillInTree(g, s, a, parent, rank, i, u, e);
      } else {
        NowInTree(g, s, a, parent, rank, u);
      }
    }
  }

  lemma StillInTree(g: seq<seq<int>>, s: set<nat>, a: set<Link>, parent: seq<int>, rank: seq<nat>, i: nat, u: nat,
                    e: Link)
    requires Square(g) && Grown(g, s, a, parent, rank) && i in s && u !in s && u < |g| && 0 <= parent[u] < |g|
    ensures InTree(g, s + {u}, a + {e}, parent, rank[u := rank[parent[u]] + 1], i)
  {
    assert InTree(g, s, a, parent, rank, i);
    ConnectedMore(a, a + {e}, 0, i);
  }

  lemma NowInTree(g: seq<seq<int>>, s: set<nat>, a: set<Link>, parent: seq<int>, rank: seq<nat>, u: nat)
    requires Square(g) && Grown(g, s, a, parent, rank) && u !in s && u < |g|
    requires 0 <= parent[u] < |g| && parent[u] in s
    ensures InTree(g, s + {u}, a + {MakeLink(parent[u], u)}, parent, rank[u := rank[parent[u]] + 1], u)
  {
    var p := parent[u];
    var a' := a + {MakeLink(p, u)};
    assert InTree(g, s, a, parent, rank, p);
    ConnectedMore(a, a', 0, p);
    ConnectedLink(a', p, u);
    ConnectedTrans(a', 0, p, u);
  }

  /** The links a parent array stands for, up to node `k`. */
  ghost function ParentLinks(parent: seq<int>, k: nat): set<Link>
    requires k <= |parent|
  {
    if k <= 1 then {}
    else if parent[k - 1] < 0 then ParentLinks(parent, k - 1)
    else ParentLinks(parent, k - 1) + {MakeLink(parent[k - 1], k - 1)}
  }

  ghost predicate TreeParents(parent: seq<int>, rank: seq<nat>) {
    |rank| == |parent| &&
    forall i :: 1 <= i < |parent| && parent[i] >= 0 ==> parent[i] < |parent| && rank[parent[i]] < rank[i]
  }

  ghost function WithParent(parent: seq<int>, k: nat): set<nat>
    requires k <= |parent|
  {
    set i: nat | 1 <= i < k && parent[i] >= 0
  }

  lemma {:induction false} ParentLinksDistinct(parent: seq<int>, rank: seq<nat>, k: nat)
    requires TreeParents(parent, rank) && 1 <= k <= |parent|
    ensures |ParentLinks(parent, k)| == |WithParent(parent, k)|
    ensures forall j :: k <= j < |parent| && parent[j] >= 0 ==> MakeLink(parent[j], j) !in ParentLinks(parent, k)
  {
    if k > 1 {
      ParentLinksDistinct(parent, rank, k - 1);
      WithParentNext(parent, k - 1);
      if parent[k - 1] >= 0 {
        forall j | k <= j < |parent| && parent[j] >= 0
          ensures MakeLink(parent[j], j) != MakeLink(parent[k - 1], k - 1)
        {
          OtherLink(parent, rank, k - 1, j);
        }
      }
    }
  }

  lemma WithParentNext(parent: seq<int>, k: nat)
    requires 1 <= k < |parent|
    ensures |WithParent(parent, k + 1)| == |WithParent(parent, k)| + if parent[k] >= 0 then 1 else 0
  {
    assert WithParent(parent, k + 1) == WithParent(parent, k) + if parent[k] >= 0 then {k} else {};
  }

  lemma OtherLink(parent: seq<int>, rank: seq<nat>, i: nat, j: nat)
    requires TreeParents(parent, rank) && 1 <= i < j < |parent| && parent[i] >= 0 && parent[j] >= 0
    ensures MakeLink(parent[i], i) != MakeLink(parent[j], j)
  {
  }

  lemma {:induction false} ParentLinksIn(parent: seq<int>, k: nat, a: set<Link>)
    requires k <= |parent| && forall i :: 1 <= i < k && parent[i] >= 0 ==> MakeLink(parent[i], i) in a
    ensures ParentLinks(parent, k) <= a
  {
    if k > 1 { ParentLinksIn(parent, k - 1, a); }
  }

  // ----- what the loop leaves -----

  /** Nothing is left to reach: no light link leaves the nodes `s` of the tree. */
  ghost predicate Complete(g: seq<seq<int>>, s: set<nat>, a: set<Link>, parent: seq<int>, rank: seq<nat>)
    requires Square(g)
  {
    && Grown(g, s, a, parent, rank) && Closed(Light(g), s)
    && (forall v: nat :: v < |g| && v !in s ==> parent[v] == UNSET)
  }

  /** The parents set are those of the nodes that light links reach. */
  lemma CompleteReaches(g: seq<seq<int>>, s: set<nat>, a: set<Link>, parent: seq<int>, rank: seq<nat>, v: nat)
    requires Undirected(g) && Complete(g, s, a, parent, rank) && 1 <= v < |g|
    ensures parent[v] == UNSET <==> !Connected(Light(g), 0, v)
    ensures parent[v] == UNSET || 0 <= parent[v] < |g|
  {
    if v in s {
      assert InTree(g, s, a, parent, rank, v);
      ConnectedMore(a, Light(g), 0, v);
    }
  }

  lemma CompleteAt(g: seq<seq<int>>, s: set<nat>, a: set<Link>, parent: seq<int>, rank: seq<nat>, i: nat)
    requires Square(g) && Complete(g, s, a, parent, rank) && 1 <= i < |g|
    ensures |parent| == |rank| == |g| && (i in s <==> parent[i] >= 0)
    ensures parent[i] >= 0 ==> parent[i] < |g| && rank[parent[i]] < rank[i] && MakeLink(parent[i], i) in a
  {
    if i in s {
      assert InTree(g, s, a, parent, rank, i);
    }
  }

  lemma CompleteLinks(g: seq<seq<int>>, s: set<nat>, a: set<Link>, parent: seq<int>, rank: seq<nat>)
    requires Undirected(g) && Complete(g, s, a, parent, rank) && parent[0] == -1
    ensures TreeParents(parent, rank) && ParentLinks(parent, |g|) == a
  {
    forall i: nat | 1 <= i < |g| ensures i in s <==> parent[i] >= 0 {
      CompleteAt(g, s, a, parent, rank, i);
    }
    forall i: nat | 1 <= i < |g| && parent[i] >= 0
      ensures parent[i] < |g| && rank[parent[i]] < rank[i] && MakeLink(parent[i], i) in a
    {
      CompleteAt(g, s, a, parent, rank, i);
    }
    LinksOf(parent, rank, s, a);
  }

  /** As many links as nodes with a parent, the links to the parents among them: these are all. */
  lemma {:induction false} LinksOf(parent: seq<int>, rank: seq<nat>, s: set<nat>, a: set<Link>)
    requires TreeParents(parent, rank) && |parent| > 0 && 0 in s && |s| == |a| + 1
    requires forall i: nat :: i in s ==> i < |parent|
    requires forall i: nat :: 1 <= i < |parent| ==> (i in s <==> parent[i] >= 0)
    requires forall i :: 1 <= i < |parent| && parent[i] >= 0 ==> MakeLink(parent[i], i) in a
    ensures ParentLinks(parent, |parent|) == a
  {
    assert WithParent(parent, |parent|) == s - {0};
    ParentLinksDistinct(parent, rank, |parent|);
    ParentLinksIn(parent, |parent|, a);
    SubsetSameSize(ParentLinks(parent, |parent|), a);
  }

  /** All parents are set exactly when the light links connect the graph ... */
  lemma AllSetIffSuitable(g: seq<seq<int>>, parent: seq<int>)
    requires Undirected(g) && |parent| == |g|
    requires forall v: nat :: 1 <= v < |g| ==> (parent[v] == UNSET <==> !Connected(Light(g), 0, v))
    ensures (forall v: nat :: 1 <= v < |g| ==> parent[v] != UNSET) <==> Suitable(g)
  {
    if forall v: nat :: 1 <= v < |g| ==> parent[v] != UNSET {
      forall x: nat, y: nat | x < |g| && y < |g| ensures Connected(Light(g), x, y) {
        assert (x != 0 ==> Connected(Light(g), 0, x)) && (y != 0 ==> Connected(Light(g), 0, y));
        ConnectedSym(Light(g), 0, x);
        ConnectedTrans(Light(g), x, 0, y);
      }
    }
  }

  /** ... and then they are a minimum spanning tree. */
  lemma CompleteTree(g: seq<seq<int>>, s: set<nat>, a: set<Link>, parent: seq<int>, rank: seq<nat>)
    requires Suitable(g) && Complete(g, s, a, parent, rank)
    ensures MinimumSpanningTree(g, a)
  {
    forall v: nat | v < |g| ensures v in s && Connected(a, 0, v) {
      assert Connected(Light(g), 0, v) && InTree(g, s, a, parent, rank, v);
    }
    forall x: nat, y: nat | x < |g| && y < |g| ensures Connected(a, x, y) {
      ConnectedSym(a, 0, x);
      ConnectedTrans(a, x, 0, y);
    }
    NodesAre(|g|);
    assert s == Nodes(|g|);
    PromisingTree(g, a);
  }

  /** `key[v]` knows the links from `s` to `v`, and the one from `u` if `v` comes before `k`. */
  ghost predicate Caught(g: seq<seq<int>>, s: set<nat>, u: nat, parent: seq<int>, key: seq<int>, k: int, v: nat)
    requires Square(g) && |parent| == |key| == |g| && u < |g| && v < |g|
  {
    && key[v] <= UNREACHED && (key[v] == UNREACHED ==> parent[v] == UNSET)
    && (key[v] < UNREACHED ==> 0 <= parent[v] < |g| && (parent[v] in s || parent[v] == u) &&
                               g[parent[v]][v] != 0 && key[v] == g[parent[v]][v])
    && (forall x :: x in s && x < |g| && g[x][v] != 0 ==> key[v] <= g[x][v])
    && (v < k && g[u][v] != 0 ==> key[v] <= g[u][v])
  }

  /** After `u` joined, the links of `u` to nodes before `k` have been taken into account. */
  ghost predicate Relaxed(g: seq<seq<int>>, s: set<nat>, u: nat, parent: seq<int>, key: seq<int>, k: int)
    requires Square(g) && u < |g|
  {
    && |parent| == |key| == |g|
    && (forall v: nat {:trigger Caught(g, s, u, parent, key, k, v)} :: v < |g| && v !in s && v != u ==>
         Caught(g, s, u, parent, key, k, v))
  }

  /** The state after `count` rounds: nothing chosen yet, or a tree of `count` nodes. */
  ghost predicate PrimState(g: seq<seq<int>>, s: set<nat>, a: set<Link>, parent: seq<int>, rank: seq<nat>,
                            key: seq<int>)
    requires Square(g)
  {
    && |key| == |parent| == |rank| == |g| && |g| > 0
    && (forall i :: i in s ==> i < |g|)
    && (s == {} ==> a == {} && key[0] == 0 && forall v :: 1 <= v < |g| ==> key[v] == UNREACHED && parent[v] == UNSET)
    && (s != {} ==> Grown(g, s, a, parent, rank) && Frontier(g, s, parent, key))
  }

  /** A round of Prim's loop takes in the unchosen node with the smallest key. */
  lemma PrimRound(g: seq<seq<int>>, s: set<nat>, a: set<Link>, parent: seq<int>, rank: seq<nat>, key: seq<int>, u: nat)
    returns (a': set<Link>, rank': seq<nat>)
    requires Undirected(g) && PrimState(g, s, a, parent, rank, key)
    requires u < |g| && u !in s && key[u] < UNREACHED
    requires forall v: nat :: v < |g| && v !in s ==> key[u] <= key[v]
    ensures Grown(g, s + {u}, a', parent, rank')
    ensures Relaxed(g, s, u, parent, key, 0)
  {
    if s == {} {
      assert u == 0;
      a', rank' := {}, rank;
      PromisingEmpty(g);
      assert InTree(g, {0}, {}, parent, rank, 0);
    } else {
      a', rank' := Grow(g, s, a, parent, rank, key, u);
    }
    forall v: nat | v < |g| && v !in s && v != u ensures Caught(g, s, u, parent, key, 0, v) {
      assert s != {} ==> Nearest(g, s, parent, key, v);
    }
  }

  lemma RelaxedAll(g: seq<seq<int>>, s: set<nat>, u: nat, parent: seq<int>, key: seq<int>)
    requires Square(g) && u < |g| && Relaxed(g, s, u, parent, key, |g|)
    ensures Frontier(g, s + {u}, parent, key)
  {
    forall v: nat | v < |g| && v !in s + {u} ensures Nearest(g, s + {u}, parent, key, v) {
      assert Caught(g, s, u, parent, key, |g|, v);
    }
  }

  /** One neighbour `v` of `u` looked at. */
  lemma RelaxOne(g: seq<seq<int>>, s: set<nat>, u: nat, parent: seq<int>, key: seq<int>, v: nat, k: int,
                 parent': seq<int>, key': seq<int>)
    requires Undirected(g) && u < |g| && v < k && v < |g| && Relaxed(g, s, u, parent, key, v)
    requires g[u][v] != 0 && forall j :: v < j < |g| && j < k ==> g[u][j] == 0
    requires |parent'| == |key'| == |g|
    requires forall j :: 0 <= j < |g| && j != v ==> parent'[j] == parent[j] && key'[j] == key[j]
    requires if v !in s && v != u && g[u][v] < key[v]
             then parent'[v] == u && key'[v] == g[u][v]
             else parent'[v] == parent[v] && key'[v] == key[v]
    ensures Relaxed(g, s, u, parent', key', k)
  {
    forall w: nat | w < |g| && w !in s && w != u ensures Caught(g, s, u, parent', key', k, w) {
      assert Caught(g, s, u, parent, key, v, w);
    }
  }

  /** The tree only looks at the parents of its own nodes. */
  lemma GrownFrame(g: seq<seq<int>>, s: set<nat>, a: set<Link>, parent: seq<int>, rank: seq<nat>, parent': seq<int>)
    requires Square(g) && Grown(g, s, a, parent, rank) && |parent'| == |parent|
    requires forall i :: i in s && i < |g| ==> parent'[i] == parent[i]
    ensures Grown(g, s, a, parent', rank)
  {
    forall i | i in s ensures InTree(g, s, a, parent', rank, i) {
      assert InTree(g, s, a, parent, rank, i);
    }
  }

  /** Prim's loop: a parent is set exactly for the nodes that links lighter than 9999 reach
      from node 0, and the links to parents are part of a minimum spanning forest; if those
      lighter links connect the graph, and only then, all parents are set, and they are a
      minimum spanning tree. */
  method PrimParents(graph: GraphMatrix) returns (parent: array<int>, ghost rank: seq<nat>, ghost a: set<Link>)
    requires graph.Valid() && Undirected(graph.data)
    ensures fresh(parent) && parent.Length == graph.nodeNum && parent[0] == -1
    ensures forall v: nat :: 1 <= v < graph.nodeNum ==>
      && (parent[v] == UNSET <==> !Connected(Light(graph.data), 0, v))
      && (parent[v] == UNSET || 0 <= parent[v] < graph.nodeNum)
    ensures TreeParents(parent[..], rank) && ParentLinks(parent[..], graph.nodeNum) == a && Promising(graph.data, a)
    ensures (forall v: nat :: 1 <= v < graph.nodeNum ==> parent[v] != UNSET) <==> Suitable(graph.data)
    ensures Suitable(graph.data) ==> MinimumSpanningTree(graph.data, a)
  {
    var n := graph.nodeNum;
    parent := new int[n](_ => UNSET);
    var key := new int[n](_ => UNREACHED);
    var mstSet := new bool[n](_ => false);
    key[0] := 0;
    parent[0] := -1;
    ghost var s: set<nat> := {};
    a, rank := {}, seq(n, _ => 0);
    PrimStart(graph.data, parent[..], rank, key[..]);

    for count := 0 to n - 1
      invariant |s| == count && forall i: nat :: i < n ==> (mstSet[i] <==> i in s)
      invariant PrimState(graph.data, s, a, parent[..], rank, key[..])
      invariant parent[0] == -1
    {
      var u;
      u, s, a, rank := TakeClosest(graph, parent, key, mstSet, s, a, rank);
      if u == -1 {
        break;
      }
    }

    a, rank := Results(graph.data, s, a, parent[..], rank, key[..]);
  }

  lemma PrimStart(g: seq<seq<int>>, parent: seq<int>, rank: seq<nat>, key: seq<int>)
    requires Undirected(g) && |parent| == |rank| == |key| == |g| && key[0] == 0
    requires forall v :: 1 <= v < |g| ==> key[v] == UNREACHED && parent[v] == UNSET
    ensures PrimState(g, {}, {}, parent, rank, key)
  {
  }

  /** What the loop has achieved when n - 1 rounds are over or no node is left to reach. */
  lemma Results(g: seq<seq<int>>, s0: set<nat>, a0: set<Link>, parent: seq<int>, rank0: seq<nat>, key: seq<int>)
    returns (a: set<Link>, rank: seq<nat>)
    requires Undirected(g) && PrimState(g, s0, a0, parent, rank0, key) && parent[0] == -1
    requires |s0| == |g| - 1 || forall i: nat :: i < |g| && i !in s0 ==> key[i] >= UNREACHED
    ensures forall v: nat :: 1 <= v < |g| ==>
      (parent[v] == UNSET <==> !Connected(Light(g), 0, v)) && (parent[v] == UNSET || 0 <= parent[v] < |g|)
    ensures TreeParents(parent, rank) && ParentLinks(parent, |g|) == a && Promising(g, a)
    ensures (forall v: nat :: 1 <= v < |g| ==> parent[v] != UNSET) <==> Suitable(g)
    ensures Suitable(g) ==> MinimumSpanningTree(g, a)
  {
    var s;
    s, a, rank := Completed(g, s0, a0, parent, rank0, key);
    forall v: nat | 1 <= v < |g|
      ensures (parent[v] == UNSET <==> !Connected(Light(g), 0, v)) && (parent[v] == UNSET || 0 <= parent[v] < |g|)
    {
      CompleteReaches(g, s, a, parent, rank, v);
    }
    CompleteLinks(g, s, a, parent, rank);
    AllSetIffSuitable(g, parent);
    if Suitable(g) {
      CompleteTree(g, s, a, parent, rank);
    }
  }

  /** The loop body: the closest node outside, if one has been reached, joins the tree, and
      its neighbours are looked at. */
  method TakeClosest(graph: GraphMatrix, parent: array<int>, key: array<int>, mstSet: array<bool>,
                     ghost s: set<nat>, ghost a: set<Link>, ghost rank: seq<nat>)
    returns (u: int, ghost s': set<nat>, ghost a': set<Link>, ghost rank': seq<nat>)
    requires graph.Valid() && Undirected(graph.data)
    requires parent.Length == key.Length == mstSet.Length == graph.nodeNum && parent != key
    requires forall i: nat :: i < graph.nodeNum ==> (mstSet[i] <==> i in s)
    requires PrimState(graph.data, s, a, parent[..], rank, key[..])
    modifies parent, key, mstSet
    ensures PrimState(graph.data, s', a', parent[..], rank', key[..]) && parent[0] == old(parent[0])
    ensures forall i: nat :: i < graph.nodeNum ==> (mstSet[i] <==> i in s')
    ensures |s'| == |s| + if u == -1 then 0 else 1
    ensures u == -1 ==> forall i: nat :: i < graph.nodeNum && i !in s' ==> key[i] >= UNREACHED
  {
    u := ClosestOutside(mstSet, key, s);
    s', a', rank' := s, a, rank;
    if u != -1 {
      a', rank' := Take(graph, u, parent, key, mstSet, s, a, rank);
      s' := s + {u};
    }
  }

  method Take(graph: GraphMatrix, u: nat, parent: array<int>, key: array<int>, mstSet: array<bool>,
              ghost s: set<nat>, ghost a: set<Link>, ghost rank: seq<nat>)
    returns (ghost a': set<Link>, ghost rank': seq<nat>)
    requires graph.Valid() && Undirected(graph.data)
    requires parent.Length == key.Length == mstSet.Length == graph.nodeNum && parent != key
    requires forall i: nat :: i < graph.nodeNum ==> (mstSet[i] <==> i in s)
    requires PrimState(graph.data, s, a, parent[..], rank, key[..])
    requires u < graph.nodeNum && u !in s && key[u] < UNREACHED
    requires forall v: nat :: v < graph.nodeNum && v !in s ==> key[u] <= key[v]
    modifies parent, key, mstSet
    ensures forall i: nat :: i < graph.nodeNum ==> (mstSet[i] <==> i in s + {u})
    ensures PrimState(graph.data, s + {u}, a', parent[..], rank', key[..])
    ensures parent[0] == old(parent[0])
  {
    mstSet[u] := true;
    a', rank' := PrimRound(graph.data, s, a, parent[..], rank, key[..], u);
    RelaxNeighbours(graph, u, parent, key, mstSet, s, a', rank');
    RelaxedAll(graph.data, s, u, parent[..], key[..]);
  }

  /** When n - 1 rounds are over, or no node is left that has been reached, the tree is
      complete, together with the one node that may be left after n - 1 rounds. */
  lemma Completed(g: seq<seq<int>>, s: set<nat>, a: set<Link>, parent: seq<int>, rank: seq<nat>, key: seq<int>)
    returns (s': set<nat>, a': set<Link>, rank': seq<nat>)
    requires Undirected(g) && PrimState(g, s, a, parent, rank, key)
    requires |s| == |g| - 1 || forall i: nat :: i < |g| && i !in s ==> key[i] >= UNREACHED
    ensures Complete(g, s', a', parent, rank')
  {
    if v: nat :| v < |g| && v !in s && key[v] < UNREACHED {
      OnlyOneMissing(s, |g|, v);
      a', rank' := PrimRound(g, s, a, parent, rank, key, v);
      s' := s + {v};
    } else {
      s', a', rank' := s, a, rank;
      forall e | e in Light(g) ensures !Crosses(e, s) {
        assert e.0 !in s ==> Nearest(g, s, parent, key, e.0);
        assert e.1 !in s ==> Nearest(g, s, parent, key, e.1);
        assert g[e.0][e.1] == g[e.1][e.0];
      }
      forall v: nat | v < |g| && v !in s ensures parent[v] == UNSET {
        assert Nearest(g, s, parent, key, v);
      }
    }
  }

  /** The search for the unchosen node with the smallest key; -1 if none has been reached. */
  method ClosestOutside(mstSet: array<bool>, key: array<int>, ghost s: set<nat>) returns (u: int)
    requires mstSet.Length == key.Length
    requires forall i: nat :: i < key.Length ==> (mstSet[i] <==> i in s)
    ensures u == -1 ==> forall i: nat :: i < key.Length && i !in s ==> key[i] >= UNREACHED
    ensures u != -1 ==> 0 <= u < key.Length && u !in s && key[u] < UNREACHED
    ensures u != -1 ==> forall i: nat :: i < key.Length && i !in s ==> key[u] <= key[i]
  {
    u := -1;
    var minKey := UNREACHED;
    for i := 0 to key.Length
      invariant u == -1 ==> minKey == UNREACHED
      invariant u != -1 ==> 0 <= u < i && u !in s && key[u] == minKey < UNREACHED
      invariant forall j: nat :: j < i && j !in s ==> minKey <= key[j]
    {
      if !mstSet[i] && key[i] < minKey {
        minKey := key[i];
        u := i;
      }
    }
  }

  /** Looks at every neighbour of the node `u` just chosen. */
  method RelaxNeighbours(graph: GraphMatrix, u: nat, parent: array<int>, key: array<int>, mstSet: array<bool>,
                         ghost s: set<nat>, ghost a: set<Link>, ghost rank: seq<nat>)
    requires graph.Valid() && Undirected(graph.data) && u < graph.nodeNum
    requires parent.Length == key.Length == mstSet.Length == graph.nodeNum && parent != key
    requires forall i: nat :: i < graph.nodeNum ==> (mstSet[i] <==> i in s + {u})
    requires Grown(graph.data, s + {u}, a, parent[..], rank) && Relaxed(graph.data, s, u, parent[..], key[..], 0)
    modifies parent, key
    ensures Grown(graph.data, s + {u}, a, parent[..], rank)
    ensures Relaxed(graph.data, s, u, parent[..], key[..], graph.nodeNum)
    ensures parent[0] == old(parent[0])
  {
    var v := graph.FirstNeighbor(u);
    SkipZeros(graph.data, s, u, parent[..], key[..], 0, Passed(v, graph.nodeNum));
    while v != -1
      invariant v == -1 || (0 <= v < graph.nodeNum && graph.data[u][v] != 0)
      invariant Grown(graph.data, s + {u}, a, parent[..], rank)
      invariant Relaxed(graph.data, s, u, parent[..], key[..], Passed(v, graph.nodeNum))
      invariant parent[0] == old(parent[0])
      decreases graph.nodeNum - Passed(v, graph.nodeNum)
    {
      ghost var p, k := parent[..], key[..];
      var weight := graph.GetWeight(u, v);
      if !mstSet[v] && weight < key[v] {
        parent[v] := u;
        key[v] := weight;
      }
      var next := graph.NextNeighbor(u, v);
      GrownFrame(graph.data, s + {u}, a, p, rank, parent[..]);
      RelaxOne(graph.data, s, u, p, k, v, Passed(next, graph.nodeNum), parent[..], key[..]);
      v := next;
    }
  }

  lemma SkipZeros(g: seq<seq<int>>, s: set<nat>, u: nat, parent: seq<int>, key: seq<int>, k: int, k': int)
    requires Square(g) && u < |g| && Relaxed(g, s, u, parent, key, k)
    requires forall j :: k <= j < |g| && 0 <= j < k' ==> g[u][j] == 0
    ensures Relaxed(g, s, u, parent, key, k')
  {
    forall v: nat | v < |g| && v !in s && v != u ensures Caught(g, s, u, parent, key, k', v) {
      assert Caught(g, s, u, parent, key, k, v);
    }
  }

  /** The weights along the parent array add up to the weight of its links. Where a parent
      is not set the program reads whatever is in memory. */
  method Prim(graph: GraphMatrix) returns (parent: array<int>, totalWeight: int, ghost tree: set<Link>)
    requires graph.Valid() && Suitable(graph.data)
    ensures parent.Length == graph.nodeNum && parent[0] == -1
    ensures forall i :: 1 <= i < graph.nodeNum ==> 0 <= parent[i] < graph.nodeNum
    ensures tree == ParentLinks(parent[..], graph.nodeNum) && MinimumSpanningTree(graph.data, tree)
    ensures totalWeight == Weight(graph.data, tree)
  {
    ghost var rank;
    parent, rank, tree := PrimParents(graph);
    ghost var p := parent[..];
    totalWeight := 0;
    for i := 1 to graph.nodeNum
      modifies {}
      invariant totalWeight == WeightUpTo(graph.data, p, i)
    {
      var w := graph.GetWeight(parent[i], i);
      totalWeight := totalWeight + w;
    }
    WeightUpToIs(graph.data, p, rank, graph.nodeNum);
  }

  ghost function WeightUpTo(g: seq<seq<int>>, parent: seq<int>, k: nat): int
    requires Square(g) && k <= |parent| == |g| && forall i :: 1 <= i < k ==> 0 <= parent[i] < |g|
  {
    if k <= 1 then 0 else WeightUpTo(g, parent, k - 1) + g[parent[k - 1]][k - 1]
  }

  lemma {:induction false} WeightUpToIs(g: seq<seq<int>>, parent: seq<int>, rank: seq<nat>, k: nat)
    requires Square(g) && Symmetric(g) && TreeParents(parent, rank) && |parent| == |g|
    requires forall i :: 1 <= i < |g| ==> 0 <= parent[i] < |g|
    requires 1 <= k <= |g| && ParentLinks(parent, k) <= Links(g)
    ensures WeightUpTo(g, parent, k) == Weight(g, ParentLinks(parent, k))
  {
    if k > 1 {
      WeightUpToIs(g, parent, rank, k - 1);
      ParentLinksDistinct(parent, rank, k - 1);
      var p := parent[k - 1];
      assert g[p][k - 1] == g[k - 1][p];
      WeightAdd(g, ParentLinks(parent, k - 1), MakeLink(p, k - 1));
    }
  }
}
