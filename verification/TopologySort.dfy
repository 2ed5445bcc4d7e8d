/** Kahn's topological sort of 5_section_6/5_topologySort.cpp, for a matrix of any size. */
module TopologySort {
  import opened GraphMatrix
  import opened Counting
  import opened Traverse
  import Walks

  // ----- what the sort promises -----

  /** Every node once, and every edge pointing forward. */
  ghost predicate TopologicalOrder(g: seq<seq<int>>, s: seq<nat>)
    requires Square(g)
  {
    && |s| == |g| && Once(s) && (forall i :: 0 <= i < |s| ==> s[i] < |g|)
    && forall i, j :: 0 <= i < |s| && 0 <= j < |s| && Arc(g, s[i], s[j]) ==> i < j
  }

  ghost predicate Trail(g: seq<seq<int>>, p: seq<nat>)
    requires Square(g)
  {
    |p| >= 2 && forall i :: 0 <= i < |p| - 1 ==> Arc(g, p[i], p[i + 1])
  }

  ghost predicate Cyclic(g: seq<seq<int>>)
    requires Square(g)
  {
    exists p :: Trail(g, p) && p[0] == p[|p| - 1]
  }

  /** Along a trail the positions in a topological order grow. */
  lemma {:induction false} TrailForward(g: seq<seq<int>>, s: seq<nat>, p: seq<nat>) returns (i: nat, j: nat)
    requires Square(g) && TopologicalOrder(g, s) && Trail(g, p)
    ensures i < j < |s| && s[i] == p[0] && s[j] == p[|p| - 1]
    decreases |p|
  {
    var m, n := |p| - 2, |p| - 1;
    assert Arc(g, p[m], p[n]);
    j := Position(g, s, p[n]);
    if m == 0 {
      i := Position(g, s, p[0]);
    } else {
      var k;
      i, k := TrailForward(g, s, p[..n]);
    }
  }

  lemma Position(g: seq<seq<int>>, s: seq<nat>, x: nat) returns (i: nat)
    requires Square(g) && TopologicalOrder(g, s) && x < |g|
    ensures i < |s| && s[i] == x
  {
    OnceCount(s);
    EveryNode(Elements(s), |g|);
    assert x in Elements(s);
    i :| 0 <= i < |s| && s[i] == x;
  }

  lemma OrderExcludesCycle(g: seq<seq<int>>, s: seq<nat>)
    requires Square(g) && TopologicalOrder(g, s)
    ensures !Cyclic(g)
  {
    forall p | Trail(g, p) ensures p[0] != p[|p| - 1] {
      var i, j := TrailForward(g, s, p);
    }
  }

  // ----- the nodes a node still waits for -----

  ghost function Waiting(g: seq<seq<int>>, done: set<nat>, v: nat): (w: set<nat>)
    requires Square(g)
  {
    set w | w in Nodes(|g|) && w !in done && Arc(g, w, v)
  }

  ghost predicate Fed(g: seq<seq<int>>, stuck: set<nat>, x: nat)
    requires Square(g)
  {
    x < |g| && exists w :: w in stuck && Arc(g, w, x)
  }

  ghost predicate Deadlock(g: seq<seq<int>>, stuck: set<nat>)
    requires Square(g)
  {
    forall x {:trigger Fed(g, stuck, x)} :: x in stuck ==> Fed(g, stuck, x)
  }

  /** A nonempty set each of whose nodes waits for another one of it holds a cycle. */
  lemma DeadlockIsCycle(g: seq<seq<int>>, stuck: set<nat>, v: nat)
    requires Square(g) && v in stuck && Deadlock(g, stuck)
    ensures Cyclic(g)
  {
    var p := TrailBack(g, stuck, v, |g|);
    var i, j := Walks.Pigeonhole(p, |g|);
    var q := p[i..j + 1];
    forall k | 0 <= k < |q| - 1 ensures Arc(g, q[k], q[k + 1]) {
      assert Arc(g, p[i + k], p[i + k + 1]);
    }
    assert Trail(g, q) && q[0] == q[|q| - 1];
  }

  lemma {:induction false} TrailBack(g: seq<seq<int>>, stuck: set<nat>, v: nat, k: nat) returns (p: seq<nat>)
    requires Square(g) && v in stuck && Deadlock(g, stuck)
    ensures |p| == k + 1 && forall i :: 0 <= i < |p| ==> p[i] < |g|
    ensures forall i :: 0 <= i < |p| - 1 ==> Arc(g, p[i], p[i + 1])
    ensures p[|p| - 1] == v
    decreases k
  {
    assert Fed(g, stuck, v);
    if k == 0 {
      p := [v];
    } else {
      var w :| w in stuck && Arc(g, w, v);
      p := TrailBack(g, stuck, w, k - 1);
      p := p + [v];
    }
  }

  // ----- the invariant of the sort -----

  /** `all` is what has been queued so far. For the nodes below `next` the counters count
      the predecessors outside `late`, for the others those outside `early`. */
  ghost predicate Swept(g: seq<seq<int>>, all: seq<nat>, early: set<nat>, late: set<nat>, next: int, inDegree: seq<int>)
    requires Square(g)
  {
    && |inDegree| == |g| && Once(all) && (forall x :: x in all ==> x < |g|)
    && (forall x :: x in late ==> x in all)
    && (forall v: nat :: v < |g| ==> Counted(g, all, if v < next then late else early, v, inDegree[v]))
    && forall j {:trigger Preceded(g, all, j)} :: 0 <= j < |all| ==> Preceded(g, all, j)
  }

  /** `d` predecessors of `v` are outside `done`; at zero, `v` has been queued. */
  ghost predicate Counted(g: seq<seq<int>>, all: seq<nat>, done: set<nat>, v: nat, d: int)
    requires Square(g)
  {
    d == |Waiting(g, done, v)| && (v in all <==> d == 0)
  }

  /** All predecessors of the `j`-th queued node were queued before it. */
  ghost predicate Preceded(g: seq<seq<int>>, all: seq<nat>, j: int)
    requires Square(g) && 0 <= j < |all|
  {
    forall a: nat :: Arc(g, a, all[j]) ==> a in all[..j]
  }

  /** Nodes that are no successors of `u` have nothing to count. */
  lemma SkipAhead(g: seq<seq<int>>, all: seq<nat>, early: set<nat>, u: nat, start: int, next: int, inDegree: seq<int>)
    requires Square(g) && u < |g| && Swept(g, all, early, early + {u}, start, inDegree)
    requires 0 <= start && NextNonzero(g[u], start, next)
    ensures Swept(g, all, early, early + {u}, Passed(next, |g|), inDegree)
  {
    var further := Passed(next, |g|);
    forall v: nat | v < |g| && start <= v < further ensures Waiting(g, early + {u}, v) == Waiting(g, early, v) {
    }
  }

  /** One fewer to wait for at the successor `v` of `u`; at zero it is queued. */
  lemma CountDown(g: seq<seq<int>>, all: seq<nat>, early: set<nat>, u: nat, v: nat, inDegree: seq<int>)
    requires Square(g) && Arc(g, u, v) && u !in early
    requires Swept(g, all, early, early + {u}, v, inDegree)
    ensures inDegree[v] > 0 && v !in all
    ensures var d := inDegree[v] - 1;
      Swept(g, if d == 0 then all + [v] else all, early, early + {u}, v + 1, inDegree[v := d])
  {
    var d := inDegree[v] - 1;
    OneLess(g, early, u, v);
    if d == 0 {
      NoneLeft(g, early + {u}, v);
      QueueOne(g, all, v);
    }
  }

  lemma OneLess(g: seq<seq<int>>, early: set<nat>, u: nat, v: nat)
    requires Square(g) && Arc(g, u, v) && u !in early
    ensures |Waiting(g, early, v)| == |Waiting(g, early + {u}, v)| + 1
  {
    NodesAre(|g|);
    assert Waiting(g, early, v) == Waiting(g, early + {u}, v) + {u};
  }

  lemma NoneLeft(g: seq<seq<int>>, done: set<nat>, v: nat)
    requires Square(g) && |Waiting(g, done, v)| == 0
    ensures forall a: nat :: Arc(g, a, v) ==> a in done
  {
    NodesAre(|g|);
    assert forall a: nat :: Arc(g, a, v) ==> a !in Waiting(g, done, v);
  }

  lemma QueueOne(g: seq<seq<int>>, all: seq<nat>, v: nat)
    requires Square(g) && Once(all) && v !in all && (forall a: nat :: Arc(g, a, v) ==> a in all)
    requires forall j :: 0 <= j < |all| ==> Preceded(g, all, j)
    ensures Once(all + [v])
    ensures forall j :: 0 <= j < |all + [v]| ==> Preceded(g, all + [v], j)
  {
    var more := all + [v];
    forall j | 0 <= j < |more| ensures Preceded(g, more, j) {
      if j < |all| {
        assert Preceded(g, all, j);
        assert more[..j] == all[..j];
      } else {
        assert more[..j] == all;
      }
    }
  }

  /** One round of the inner loop, for the successor `v` of `u`. */
  lemma Released(g: seq<seq<int>>, all: seq<nat>, early: set<nat>, u: nat, v: nat, next: int, inDegree: seq<int>)
    requires Square(g) && Arc(g, u, v) && u !in early
    requires Swept(g, all, early, early + {u}, v, inDegree) && NextNonzero(g[u], v + 1, next)
    ensures var d := inDegree[v] - 1;
      Swept(g, if d == 0 then all + [v] else all, early, early + {u}, Passed(next, |g|), inDegree[v := d])
  {
    CountDown(g, all, early, u, v, inDegree);
    var d := inDegree[v] - 1;
    SkipAhead(g, if d == 0 then all + [v] else all, early, u, v + 1, next, inDegree[v := d]);
  }

  lemma PrintedOrder(g: seq<seq<int>>, printed: seq<nat>, late: set<nat>, inDegree: seq<int>)
    requires Square(g) && Swept(g, printed, late, late, 0, inDegree) && |printed| == |g|
    ensures TopologicalOrder(g, printed)
  {
    assert forall i :: 0 <= i < |printed| ==> printed[i] in printed;
    forall i, j | 0 <= i < |printed| && 0 <= j < |printed| && Arc(g, printed[i], printed[j]) ensures i < j {
      assert Preceded(g, printed, j);
      var k :| 0 <= k < j && printed[..j][k] == printed[i];
      assert printed[k] == printed[i];
    }
  }

  lemma RestDeadlocked(g: seq<seq<int>>, printed: seq<nat>, inDegree: seq<int>)
    requires Square(g)
    requires Swept(g, printed, Elements(printed), Elements(printed), 0, inDegree)
    ensures Deadlock(g, Nodes(|g|) - Elements(printed))
  {
    NodesAre(|g|);
    var stuck := Nodes(|g|) - Elements(printed);
    forall x | x in stuck ensures Fed(g, stuck, x) {
      assert Counted(g, printed, Elements(printed), x, inDegree[x]);
      var w :| w in Waiting(g, Elements(printed), x);
      assert w in stuck && Arc(g, w, x);
    }
  }

  /** With the queue empty, either everything is printed or the rest holds a cycle. */
  lemma Drained(g: seq<seq<int>>, printed: seq<nat>, inDegree: seq<int>)
    requires Square(g)
    requires Swept(g, printed, Elements(printed), Elements(printed), 0, inDegree)
    ensures |printed| == |g| ==> TopologicalOrder(g, printed)
    ensures |printed| == |g| <==> !Cyclic(g)
  {
    OnceCount(printed);
    NodesAre(|g|);
    SubsetSize(Elements(printed), Nodes(|g|));
    if |printed| == |g| {
      PrintedOrder(g, printed, Elements(printed), inDegree);
      OrderExcludesCycle(g, printed);
    } else {
      var v := SomeoneMissing(Elements(printed), |g|);
      RestDeadlocked(g, printed, inDegree);
      DeadlockIsCycle(g, Nodes(|g|) - Elements(printed), v);
    }
  }

  // ----- the program -----

  method Indegree(graph: GraphMatrix, x: int) returns (count: int)
    requires graph.Valid()
    ensures 0 <= x < graph.nodeNum ==> count == |Waiting(graph.data, {}, x)|
    ensures !(0 <= x < graph.nodeNum) ==> count == -1
  {
    if x > graph.nodeNum - 1 || x < 0 {
      return -1;
    }
    count := 0;
    ghost var seen: set<nat> := {};
    NodesAre(graph.nodeNum);
    for i := 0 to graph.nodeNum
      invariant count == |seen|
      invariant forall w: nat :: w in seen <==> w < i && Arc(graph.data, w, x)
    {
      if graph.data[i][x] != 0 {
        count := count + 1;
        seen := seen + {i};
      }
    }
    assert seen == Waiting(graph.data, {}, x);
  }

  method TopologicalSort(graph: GraphMatrix) returns (sorted: seq<nat>)
    requires graph.Valid()
    ensures sorted != [] ==> TopologicalOrder(graph.data, sorted)
    ensures sorted == [] <==> graph.nodeNum == 0 || Cyclic(graph.data)
  {
    ghost var g := graph.data;
    var inDegree, q := Sources(graph);
    var result: seq<nat> := [];
    assert Elements(result) == {} && result + q == q;
    while q != []
      invariant inDegree.Length == |g|
      invariant Swept(g, result + q, Elements(result), Elements(result), 0, inDegree[..])
      decreases |g| - |result|
    {
      var u := q[0];
      PrintedBound(g, result + q, result, u);
      FromFront(result, q);
      q := q[1..];
      ghost var early := Elements(result);
      result := result + [u];
      assert Swept(g, result + q, early, early + {u}, 0, inDegree[..]);
      q := Release(graph, u, inDegree, q, result, early);
      assert Elements(result) == early + {u};
      assert Swept(g, result + q, early, Elements(result), |g|, inDegree[..]);
    }
    assert result + q == result;
    Drained(g, result, inDegree[..]);
    if |result| != graph.nodeNum {
      return [];
    }
    return result;
  }

  lemma FromFront(result: seq<nat>, q: seq<nat>)
    requires q != []
    ensures result + [q[0]] + q[1..] == result + q
  {
  }

  lemma PrintedBound(g: seq<seq<int>>, all: seq<nat>, result: seq<nat>, u: nat)
    requires Once(all) && (forall x :: x in all ==> x < |g|) && result + [u] <= all
    ensures |result| < |g| && u !in result && u in all && u < |g|
  {
    OnceCount(all);
    NodesAre(|g|);
    SubsetSize(Elements(all), Nodes(|g|));
    assert all[|result|] == u;
    assert forall i :: 0 <= i < |result| ==> result[i] == all[i];
  }

  /** The counters filled in, and the nodes without predecessors queued. */
  method Sources(graph: GraphMatrix) returns (inDegree: array<int>, q: seq<nat>)
    requires graph.Valid()
    ensures fresh(inDegree) && inDegree.Length == graph.nodeNum
    ensures Swept(graph.data, q, {}, {}, 0, inDegree[..])
  {
    var n := graph.nodeNum;
    inDegree := new int[n];
    for i := 0 to n
      invariant forall j: nat :: j < i ==> inDegree[j] == |Waiting(graph.data, {}, j)|
    {
      inDegree[i] := Indegree(graph, i);
    }
    q := [];
    for i := 0 to n
      invariant Once(q) && forall j: nat :: j in q <==> j < i && inDegree[j] == 0
    {
      if inDegree[i] == 0 {
        q := q + [i];
      }
    }
    SourcesQueued(graph.data, q, inDegree[..]);
  }

  lemma SourcesQueued(g: seq<seq<int>>, q: seq<nat>, inDegree: seq<int>)
    requires Square(g) && |inDegree| == |g| && forall j: nat :: j < |g| ==> inDegree[j] == |Waiting(g, {}, j)|
    requires Once(q) && forall j: nat :: j in q <==> j < |g| && inDegree[j] == 0
    ensures Swept(g, q, {}, {}, 0, inDegree)
  {
    forall j | 0 <= j < |q| ensures Preceded(g, q, j) {
      assert q[j] in q;
      NoneLeft(g, {}, q[j]);
    }
  }

  /** The inner loop: the successors of the node just printed wait for one fewer. */
  method Release(graph: GraphMatrix, u: nat, inDegree: array<int>, q: seq<nat>, ghost result: seq<nat>,
                 ghost early: set<nat>)
    returns (q': seq<nat>)
    requires graph.Valid() && u < graph.nodeNum && u !in early && inDegree.Length == graph.nodeNum
    requires Swept(graph.data, result + q, early, early + {u}, 0, inDegree[..])
    modifies inDegree
    ensures Swept(graph.data, result + q', early, early + {u}, graph.nodeNum, inDegree[..])
  {
    ghost var g := graph.data;
    q' := q;
    var v := graph.FirstNeighbor(u);
    SkipAhead(g, result + q', early, u, 0, v, inDegree[..]);
    while v != -1
      invariant -1 <= v < graph.nodeNum && (v != -1 ==> Arc(g, u, v)) && inDegree.Length == |g|
      invariant Swept(g, result + q', early, early + {u}, Passed(v, |g|), inDegree[..])
      decreases graph.nodeNum - Passed(v, graph.nodeNum)
    {
      q', v := ReleaseOne(graph, u, v, inDegree, q', result, early);
    }
  }

  /** One successor waits for one fewer; when it waits for none it is queued. */
  method ReleaseOne(graph: GraphMatrix, u: nat, v: nat, inDegree: array<int>, q: seq<nat>, ghost result: seq<nat>,
                    ghost early: set<nat>)
    returns (q': seq<nat>, next: int)
    requires graph.Valid() && u < graph.nodeNum && u !in early && inDegree.Length == graph.nodeNum
    requires Arc(graph.data, u, v) && Swept(graph.data, result + q, early, early + {u}, v, inDegree[..])
    modifies inDegree
    ensures NextNonzero(graph.data[u], v + 1, next)
    ensures Swept(graph.data, result + q', early, early + {u}, Passed(next, graph.nodeNum), inDegree[..])
  {
    ghost var deg := inDegree[..];
    next := graph.NextNeighbor(u, v);
    CountOne(inDegree, v);
    q' := q;
    if inDegree[v] == 0 {
      q' := q + [v];
    }
    ReleasedQueue(graph.data, result, q, early, u, v, next, deg);
  }

  /** The same as `Released`, for what has been printed and the queue. */
  lemma ReleasedQueue(g: seq<seq<int>>, result: seq<nat>, q: seq<nat>, early: set<nat>, u: nat, v: nat, next: int,
                      deg: seq<int>)
    requires Square(g) && Arc(g, u, v) && u !in early
    requires Swept(g, result + q, early, early + {u}, v, deg) && NextNonzero(g[u], v + 1, next)
    ensures var d := deg[v] - 1;
      Swept(g, result + if d == 0 then q + [v] else q, early, early + {u}, Passed(next, |g|), deg[v := d])
  {
    Released(g, result + q, early, u, v, next, deg);
    QueueBehind(result, q, v);
  }

  method CountOne(inDegree: array<int>, v: nat)
    requires v < inDegree.Length
    modifies inDegree
    ensures inDegree[..] == old(inDegree[..])[v := old(inDegree[v]) - 1]
  {
    inDegree[v] := inDegree[v] - 1;
  }

  lemma QueueBehind(result: seq<nat>, q: seq<nat>, v: nat)
    ensures result + (q + [v]) == (result + q) + [v]
  {
  }
}
