/** The traversals of 5_section_6/2_traverse.cpp over adjacency lists; where the lists they
    come to repeat no entry they do what the traversals of the corresponding matrix do. */
module TableTraverse {
  import opened Counting
  import opened GraphMatrix
  import opened GraphTable
  import opened Traverse

  /** The matrix of the graph that the lists describe. */
  ghost function MatrixOf(lists: seq<seq<int>>): (g: seq<seq<int>>)
    ensures Square(g) && |g| == |lists|
  {
    seq(|lists|, x requires 0 <= x < |lists| => seq(|lists|, y => if y in lists[x] then 1 else 0))
  }

  ghost predicate NoRepeats(lists: seq<seq<int>>) {
    forall x :: 0 <= x < |lists| ==> Once(lists[x])
  }

  /** No list that a traversal from `node` comes to, with `v0` marked, repeats an entry. */
  ghost predicate NoRepeatsFrom(lists: seq<seq<int>>, v0: set<nat>, node: nat) {
    forall x: nat :: x < |lists| && Reaches(MatrixOf(lists), v0, node, x) ==> Once(lists[x])
  }

  /** The order of the lists. */
  function Listed(lists: seq<seq<int>>): Order {
    (x: nat, y: nat, z: nat) => x < |lists| && FirstIndex(lists[x], y) < FirstIndex(lists[x], z)
  }

  lemma ListedTotal(lists: seq<seq<int>>)
    ensures Total(MatrixOf(lists), Listed(lists))
  {
    forall x: nat, y: nat, z: nat | Arc(MatrixOf(lists), x, y) && Arc(MatrixOf(lists), x, z) && y != z
      ensures Listed(lists)(x, y, z) || Listed(lists)(x, z, y)
    {
      var l := lists[x];
      assert y in l && z in l;
      assert l[FirstIndex(l, y)] == y && l[FirstIndex(l, z)] == z;
    }
  }

  /** The loop variable on its way over the list `l`, at position `k`. */
  function Entry(l: seq<int>, k: nat): int {
    if k < |l| then l[k] else -1
  }

  lemma NextEntry(l: seq<int>, k: nat)
    requires Once(l) && k < |l|
    ensures Next(l, l[k]) == Entry(l, k + 1)
  {
    assert FirstIndex(l, l[k]) == k;
  }

  /** All successors of `x` are marked once the loop over its list has ended. */
  ghost predicate PassedTo(l: seq<int>, k: nat, v: set<nat>) {
    k <= |l| && forall j :: 0 <= j < k ==> l[j] in v
  }

  /** The depth-first loop over the list of `node` has come to position `k`. */
  ghost predicate AtEntry(lists: seq<seq<int>>, v0: set<nat>, node: nat, v: set<nat>, walked: seq<nat>, k: nat) {
    && node < |lists| && PassedTo(lists[node], k, v)
    && Deepening(MatrixOf(lists), v0, node, v, walked)
    && DepthOrder(MatrixOf(lists), v0, walked, Listed(lists))
  }

  lemma Descended(lists: seq<seq<int>>, v0: set<nat>, node: nat, v: set<nat>, walked: seq<nat>, k: nat,
                  v': set<nat>, w: seq<nat>)
    requires AtEntry(lists, v0, node, v, walked, k) && k < |lists[node]| && 0 <= lists[node][k] < |lists|
    requires lists[node][k] !in v && Traversed(MatrixOf(lists), v, lists[node][k], v', w)
    requires DepthFirst(MatrixOf(lists), lists[node][k], w) && DepthOrder(MatrixOf(lists), v, w, Listed(lists))
    ensures AtEntry(lists, v0, node, v', walked + w, k + 1)
  {
    var g, l, i: nat := MatrixOf(lists), lists[node], lists[node][k];
    DescendInto(g, v0, node, v, walked, i, v', w);
    forall y: nat | Arc(g, node, y) && Listed(lists)(node, y, i) ensures y in v {
      assert l[FirstIndex(l, y)] == y;
    }
    DepthOrderJoin(g, v0, node, v, walked, i, v', w, Listed(lists));
  }

  /** A recursive call comes to no other lists. */
  lemma DescendNoRepeats(lists: seq<seq<int>>, v0: set<nat>, node: nat, v: set<nat>, walked: seq<nat>, k: nat)
    requires NoRepeatsFrom(lists, v0, node) && AtEntry(lists, v0, node, v, walked, k)
    requires k < |lists[node]| && 0 <= lists[node][k] < |lists| && lists[node][k] !in v
    ensures NoRepeatsFrom(lists, v, lists[node][k])
  {
    var i: nat := lists[node][k];
    forall x: nat | x < |lists| && Reaches(MatrixOf(lists), v, i, x) ensures Once(lists[x]) {
      ReachesOn(MatrixOf(lists), v0, node, v, i, x);
    }
  }

  lemma AtLastEntry(lists: seq<seq<int>>, v0: set<nat>, node: nat, v: set<nat>, walked: seq<nat>)
    requires node < |lists| && AtEntry(lists, v0, node, v, walked, |lists[node]|)
    ensures Traversed(MatrixOf(lists), v0, node, v, walked) && DepthFirst(MatrixOf(lists), node, walked)
    ensures DepthOrder(MatrixOf(lists), v0, walked, Listed(lists))
  {
    AllPassed(lists, node, v);
    ExploredAll(MatrixOf(lists), v0, node, v, walked);
  }

  lemma AllPassed(lists: seq<seq<int>>, x: nat, v: set<nat>)
    requires x < |lists| && PassedTo(lists[x], |lists[x]|, v)
    ensures forall y: nat :: Arc(MatrixOf(lists), x, y) ==> y in v
  {
  }

  /** The list of the node being served is one the traversal comes to. */
  lemma ServedOnce(lists: seq<seq<int>>, v0: set<nat>, node: nat, v: set<nat>, walked: seq<nat>,
                   depth: seq<nat>, done: nat)
    requires NoRepeatsFrom(lists, v0, node) && done < |walked|
    requires Searching(MatrixOf(lists), v0, node, v, walked, depth, done)
    ensures walked[done] < |lists| && Once(lists[walked[done]])
  {
    assert walked[done] in walked;
  }

  // ----- the loops on lists that may repeat entries -----

  /** The lists of the first `done` nodes repeat no entry. */
  ghost predicate ServedOnes(lists: seq<seq<int>>, walked: seq<nat>, done: nat) {
    done <= |walked| && forall j :: 0 <= j < done ==> walked[j] < |lists| && Once(lists[walked[j]])
  }

  /** The loop over the list of the node being served has made `k` rounds and comes to `i`. */
  ghost predicate Serving(lists: seq<seq<int>>, v0: set<nat>, node: nat, v: set<nat>, walked: seq<nat>,
                          depth: seq<nat>, done: nat, k: nat, i: int) {
    && done < |walked| && walked[done] < |lists|
    && Searching(MatrixOf(lists), v0, node, v, walked, depth, done)
    && LoopAt(lists[walked[done]], k, v, i) && ServedOnes(lists, walked, done)
  }

  /** After `k` rounds the loop variable is `i`, and all it has been before is in `v`. */
  ghost predicate LoopAt(l: seq<int>, k: nat, v: set<nat>, i: int) {
    i == Visited(l, k) && forall j: nat {:trigger Met(l, j, v)} :: j < k ==> Met(l, j, v)
  }

  ghost predicate Met(l: seq<int>, j: nat, v: set<nat>) {
    Visited(l, j) >= 0 && Visited(l, j) in v
  }

  lemma LoopOn(l: seq<int>, k: nat, v: set<nat>, i: int, v': set<nat>)
    requires LoopAt(l, k, v, i) && i >= 0 && v <= v' && i in v'
    ensures LoopAt(l, k + 1, v', Next(l, i))
  {
    forall j: nat | j < k + 1 ensures Met(l, j, v') {
      assert j < k ==> Met(l, j, v);
    }
  }

  lemma VisitedIn(l: seq<int>, k: nat)
    requires Visited(l, k) != -1
    ensures Visited(l, k) in l
  {
  }

  /** A loop that has ended has met every entry, of a list without repetition. */
  lemma LoopEnded(l: seq<int>, k: nat, v: set<nat>)
    requires LoopAt(l, k, v, -1) && forall j :: 0 <= j < |l| ==> l[j] >= 0
    ensures Once(l) && k == |l| && PassedTo(l, |l|, v)
  {
    assert exists n: nat :: Visited(l, n) == -1 by { assert Visited(l, k) == -1; }
    EnumerationEnds(l);
    VisitsInOrder(l, |l|);
    assert |l| < k ==> Met(l, |l|, v);
    forall j: nat | j < |l| ensures Visited(l, j) == l[j] && (j < k ==> Met(l, j, v)) {
      VisitsInOrder(l, j);
    }
    assert k == |l|;
  }

  /** On a list without repetition the loop has rounds left for the entries to come. */
  lemma LoopShort(l: seq<int>, k: nat, v: set<nat>, i: int)
    requires Once(l) && LoopAt(l, k, v, i) && i >= 0 && forall j :: 0 <= j < |l| ==> l[j] >= 0
    ensures k < |l|
  {
    VisitsInOrder(l, |l|);
    assert |l| < k ==> Met(l, |l|, v);
  }

  lemma ServeOne(lists: seq<seq<int>>, v0: set<nat>, node: nat, v: set<nat>, walked: seq<nat>,
                 depth: seq<nat>, done: nat, k: nat, i: nat)
    requires Serving(lists, v0, node, v, walked, depth, done, k, i) && i < |lists|
    ensures var l := lists[walked[done]];
      if i in v then Serving(lists, v0, node, v, walked, depth, done, k + 1, Next(l, i))
      else Serving(lists, v0, node, v + {i}, walked + [i], depth + [depth[done] + 1], done, k + 1, Next(l, i)) &&
           (walked + [i])[done + 1..] == walked[done + 1..] + [i]
  {
    var l := lists[walked[done]];
    VisitedIn(l, k);
    LoopOn(l, k, v, i, v + {i});
    if i in v {
      LoopOn(l, k, v, i, v);
    } else {
      SearchFound(MatrixOf(lists), v0, node, v, walked, depth, done, i);
    }
  }

  /** On a list without repetition the entry come to is the first one not marked. */
  lemma ServedInOrder(lists: seq<seq<int>>, v0: set<nat>, node: nat, v: set<nat>, walked: seq<nat>,
                      depth: seq<nat>, done: nat, k: nat, i: nat)
    requires Serving(lists, v0, node, v, walked, depth, done, k, i) && i < |lists| && Once(lists[walked[done]])
    requires forall j :: 0 <= j < |lists[walked[done]]| ==> lists[walked[done]][j] >= 0
    requires BreadthOrder(MatrixOf(lists), v0, walked, Listed(lists))
    ensures BreadthOrder(MatrixOf(lists), v0, walked + [i], Listed(lists))
  {
    var g, x, l := MatrixOf(lists), walked[done], lists[walked[done]];
    LoopShort(l, k, v, i);
    VisitsInOrder(l, k);
    forall z: nat | Arc(g, x, z) && Listed(lists)(x, z, i) ensures z in v {
      var j := FirstIndex(l, z);
      VisitsInOrder(l, j);
      assert Met(l, j, v);
    }
    BreadthMore(g, v0, node, v, walked, depth, done, i, Listed(lists));
  }

  lemma ServedAll(lists: seq<seq<int>>, v0: set<nat>, node: nat, v: set<nat>, walked: seq<nat>,
                  depth: seq<nat>, done: nat, k: nat)
    requires Serving(lists, v0, node, v, walked, depth, done, k, -1)
    requires forall j :: 0 <= j < |lists[walked[done]]| ==> lists[walked[done]][j] >= 0
    ensures Searching(MatrixOf(lists), v0, node, v, walked, depth, done + 1)
    ensures Once(lists[walked[done]]) && k == |lists[walked[done]]| && ServedOnes(lists, walked, done + 1)
  {
    LoopEnded(lists[walked[done]], k, v);
    AllPassed(lists, walked[done], v);
    SearchPassed(MatrixOf(lists), v0, node, v, walked, depth, done);
  }

  /** A list without repetition has at most as many entries as there are nodes. */
  lemma OnceShort(l: seq<int>, n: nat)
    requires Once(l) && forall j :: 0 <= j < |l| ==> 0 <= l[j] < n
    ensures |l| <= n
  {
    var nodes: seq<nat> := seq(|l|, j requires 0 <= j < |l| => l[j]);
    OnceBound(nodes, n);
  }

  /** With n looks for each node to be served, n are left for this one. */
  lemma EnoughLeft(lists: seq<seq<int>>, v0: set<nat>, node: nat, v: set<nat>, walked: seq<nat>,
                   depth: seq<nat>, done: nat, left: nat, budget: nat)
    requires Searching(MatrixOf(lists), v0, node, v, walked, depth, done) && done < |walked| <= |lists|
    requires NoRepeatsFrom(lists, v0, node) ==> left + done * |lists| >= budget
    requires forall x, j :: 0 <= x < |lists| && 0 <= j < |lists[x]| ==> 0 <= lists[x][j] < |lists|
    ensures walked[done] < |lists|
    ensures var l := lists[walked[done]];
      && (Once(l) ==> |l| <= |lists|)
      && (NoRepeatsFrom(lists, v0, node) && budget >= |lists| * |lists| ==> Once(l) && left >= |l|)
  {
    assert walked[done] in walked;
    var x := walked[done];
    if Once(lists[x]) {
      OnceShort(lists[x], |lists|);
    }
    OneShare(done, |lists|);
  }

  lemma OneShare(done: nat, n: nat)
    requires done < n
    ensures done * n + n <= n * n && (done + 1) * n == done * n + n
  {
    assert (done + 1) * n <= n * n;
  }

  /** The depth-first loop over the list of `node` has made `k` rounds and comes to `i`; the
      other lists it has come to repeat no entry. */
  ghost predicate DescendingAt(lists: seq<seq<int>>, v0: set<nat>, node: nat, v: set<nat>, walked: seq<nat>,
                               k: nat, i: int) {
    && node < |lists| && LoopAt(lists[node], k, v, i)
    && Deepening(MatrixOf(lists), v0, node, v, walked)
    && forall x :: x in walked && x != node ==> x < |lists| && Once(lists[x])
  }

  lemma DescendOn(lists: seq<seq<int>>, v0: set<nat>, node: nat, v: set<nat>, walked: seq<nat>, k: nat, i: nat)
    requires DescendingAt(lists, v0, node, v, walked, k, i) && i in v
    ensures DescendingAt(lists, v0, node, v, walked, k + 1, Next(lists[node], i))
  {
    LoopOn(lists[node], k, v, i, v);
  }

  lemma DescendThrough(lists: seq<seq<int>>, v0: set<nat>, node: nat, v: set<nat>, walked: seq<nat>, k: nat, i: nat,
                       v': set<nat>, w: seq<nat>)
    requires DescendingAt(lists, v0, node, v, walked, k, i) && i < |lists| && i !in v
    requires Traversed(MatrixOf(lists), v, i, v', w) && DepthFirst(MatrixOf(lists), i, w) && NoRepeatsFrom(lists, v, i)
    ensures DescendingAt(lists, v0, node, v', walked + w, k + 1, Next(lists[node], i))
  {
    VisitedIn(lists[node], k);
    DescendInto(MatrixOf(lists), v0, node, v, walked, i, v', w);
    LoopOn(lists[node], k, v, i, v');
    forall x | x in walked + w && x != node ensures x < |lists| && Once(lists[x]) {
      assert x in walked || x in w;
    }
  }

  /** A traversal from `node` comes to the list of `x`, which repeats an entry. */
  ghost predicate Repeats(lists: seq<seq<int>>, v0: set<nat>, node: nat, x: nat) {
    x < |lists| && Reaches(MatrixOf(lists), v0, node, x) && !Once(lists[x])
  }

  /** What a recursive call comes to, the caller comes to. */
  lemma CallRepeats(lists: seq<seq<int>>, v0: set<nat>, node: nat, v: set<nat>, walked: seq<nat>, k: nat, i: nat,
                    x: nat)
    requires DescendingAt(lists, v0, node, v, walked, k, i) && i < |lists| && i !in v && Repeats(lists, v, i, x)
    ensures Repeats(lists, v0, node, x)
  {
    VisitedIn(lists[node], k);
    ReachesOn(MatrixOf(lists), v0, node, v, i, x);
  }

  lemma DescendedAll(lists: seq<seq<int>>, v0: set<nat>, node: nat, v: set<nat>, walked: seq<nat>, k: nat)
    requires DescendingAt(lists, v0, node, v, walked, k, -1)
    requires forall j :: 0 <= j < |lists[node]| ==> lists[node][j] >= 0
    ensures Traversed(MatrixOf(lists), v0, node, v, walked) && DepthFirst(MatrixOf(lists), node, walked)
    ensures NoRepeatsFrom(lists, v0, node) && k == |lists[node]|
  {
    LoopEnded(lists[node], k, v);
    AllPassed(lists, node, v);
    ExploredAll(MatrixOf(lists), v0, node, v, walked);
  }

  /** A list on which as many rounds have been made as there are nodes repeats an entry. */
  lemma LongRepeats(lists: seq<seq<int>>, v0: set<nat>, node: nat, v: set<nat>, walked: seq<nat>, k: nat, i: nat)
    requires DescendingAt(lists, v0, node, v, walked, k, i) && k >= |lists|
    requires forall j :: 0 <= j < |lists[node]| ==> 0 <= lists[node][j] < |lists|
    ensures Repeats(lists, v0, node, node)
  {
    var l := lists[node];
    if Once(l) {
      OnceShort(l, |lists|);
      LoopShort(l, k, v, i);
    }
  }

  /** A list that repeats an entry, if the call came to one or this list has had many rounds. */
  lemma CallCutOff(lists: seq<seq<int>>, v0: set<nat>, node: nat, v: set<nat>, walked: seq<nat>, k: nat, i: nat, x: nat)
    returns (bad: nat)
    requires DescendingAt(lists, v0, node, v, walked, k, i) && i < |lists| && i !in v
    requires forall j :: 0 <= j < |lists[node]| ==> 0 <= lists[node][j] < |lists|
    ensures k >= |lists| || Repeats(lists, v, i, x) ==> Repeats(lists, v0, node, bad)
  {
    bad := node;
    if k >= |lists| {
      LongRepeats(lists, v0, node, v, walked, k, i);
    } else if Repeats(lists, v, i, x) {
      CallRepeats(lists, v0, node, v, walked, k, i, x);
      bad := x;
    }
  }

  /** `n` looks for each of `m` nodes. */
  function Looks(n: nat, m: nat): nat {
    if m == 0 then 0 else n + Looks(n, m - 1)
  }

  /** The looks that the nodes not marked yet may take. */
  ghost function Need(n: nat, unmarked: set<nat>): nat {
    Looks(n, |unmarked|)
  }

  /** What is left, with the `k` rounds made, is what was there less what has been marked. */
  ghost predicate Affords(n: nat, leftAndRounds: nat, unmarked: set<nat>, k: nat, budget: nat, before: set<nat>) {
    k <= n ==> leftAndRounds - Need(n, unmarked) >= budget - Need(n, before)
  }

  /** With looks enough for the nodes not marked, what is left is still enough. */
  ghost predicate Spends(n: nat, left: nat, unmarked: set<nat>, budget: nat, before: set<nat>) {
    budget >= Need(n, before) ==> left - Need(n, unmarked) >= budget - Need(n, before)
  }

  lemma AffordsOn(n: nat, budget: nat, before: set<nat>, k: nat, left: nat, u: set<nat>, left': nat, u': set<nat>)
    requires budget >= Need(n, before) + n && left > 0 && Affords(n, left + k, u, k, budget, before)
    ensures k < n ==> left - 1 >= Need(n, u)
    ensures Spends(n, left', u', left - 1, u) ==> Affords(n, left' + k + 1, u', k + 1, budget, before)
  {
  }

  lemma NeedLess(n: nat, unmarked: set<nat>, node: nat)
    ensures Need(n, unmarked - {node}) == Need(n, unmarked + {node}) - n
  {
    assert unmarked + {node} == (unmarked - {node}) + {node};
    assert |unmarked + {node}| == |unmarked - {node}| + 1;
  }

  class TableTraversal {
    const graph: GraphTable
    const visited: array<bool>
    var printed: seq<nat>

    ghost predicate Valid()
      reads this, visited
    {
      graph.Valid() && visited.Length == graph.nodeNum
    }

    constructor (g: GraphTable)
      requires g.Valid()
      ensures Valid() && graph == g && printed == [] && fresh(visited)
    {
      graph := g;
      visited := new bool[g.nodeNum](_ => false);
      printed := [];
    }

    method Print(node: nat)
      requires Valid() && node < graph.nodeNum
      modifies this`printed, visited
      ensures printed == old(printed) + [node] && Marks(visited) == old(Marks(visited)) + {node}
      ensures Unmarks(visited) == old(Unmarks(visited)) - {node}
    {
      printed := printed + [node];
      visited[node] := true;
    }

    method BFS(node: nat) returns (ghost walked: seq<nat>)
      requires Valid() && node < graph.nodeNum && NoRepeatsFrom(graph.data, Marks(visited), node)
      modifies this`printed, visited
      ensures printed == old(printed) + walked
      ensures Traversed(MatrixOf(graph.data), old(Marks(visited)), node, Marks(visited), walked)
      ensures ByDistance(MatrixOf(graph.data), old(Marks(visited)), node, walked)
      ensures |walked| > 0 && walked[0] == node
      ensures BreadthOrder(MatrixOf(graph.data), old(Marks(visited)), walked, Listed(graph.data))
    {
      ghost var g, v0 := MatrixOf(graph.data), Marks(visited);
      var queue := [node];
      walked := [node];
      ghost var depth: seq<nat>, done := [0], 0;
      Print(node);
      SearchStart(g, v0, node);
      while queue != []
        invariant Searching(g, v0, node, Marks(visited), walked, depth, done)
        invariant queue == walked[done..] && printed == old(printed) + walked && ServedOnes(graph.data, walked, done)
        invariant BreadthOrder(g, v0, walked, Listed(graph.data))
        decreases graph.nodeNum - done
      {
        var temp := queue[0];
        queue := queue[1..];
        queue, walked, depth := ExpandFront(temp, queue, node, v0, walked, depth, done, old(printed));
        done := done + 1;
        OnceBound(walked, graph.nodeNum);
      }
      SearchEnd(g, v0, node, Marks(visited), walked, depth);
    }

    method ExpandFront(temp: nat, queue0: seq<nat>, ghost node: nat, ghost v0: set<nat>, ghost walked0: seq<nat>,
                       ghost depth0: seq<nat>, ghost done: nat, ghost before: seq<nat>)
      returns (queue: seq<nat>, ghost walked: seq<nat>, ghost depth: seq<nat>)
      requires Valid() && Searching(MatrixOf(graph.data), v0, node, Marks(visited), walked0, depth0, done)
      requires done < |walked0| && walked0[done] == temp && walked0[done + 1..] == queue0
      requires printed == before + walked0 && NoRepeatsFrom(graph.data, v0, node)
      requires ServedOnes(graph.data, walked0, done)
      requires BreadthOrder(MatrixOf(graph.data), v0, walked0, Listed(graph.data))
      modifies this`printed, visited
      ensures BreadthOrder(MatrixOf(graph.data), v0, walked, Listed(graph.data))
      ensures ServedOnes(graph.data, walked, done + 1)
      ensures Searching(MatrixOf(graph.data), v0, node, Marks(visited), walked, depth, done + 1)
      ensures queue == walked[done + 1..] && printed == before + walked
    {
      queue, walked, depth := queue0, walked0, depth0;
      ServedOnce(graph.data, v0, node, Marks(visited), walked, depth, done);
      ghost var l, k := graph.data[temp], 0;
      var i := graph.FirstNeighbor(temp);
      while i != -1
        invariant -1 <= i < graph.nodeNum && Once(l) && k <= |l|
        invariant BreadthOrder(MatrixOf(graph.data), v0, walked, Listed(graph.data))
        invariant Serving(graph.data, v0, node, Marks(visited), walked, depth, done, k, i) && walked[done] == temp
        invariant queue == walked[done + 1..] && printed == before + walked
        decreases |l| - k
      {
        LoopShort(l, k, Marks(visited), i);
        ServedInOrder(graph.data, v0, node, Marks(visited), walked, depth, done, k, i);
        i, queue, walked, depth := ServeNext(temp, i, queue, node, v0, walked, depth, done, k, before);
        k := k + 1;
      }
      ServedAll(graph.data, v0, node, Marks(visited), walked, depth, done, k);
    }

    /** The same code, cut off after `budget` looks at a neighbour. With enough of them it
        ends exactly when no list it comes to repeats an entry. */
    method BFSWithin(node: nat, budget: nat) returns (ended: bool, ghost walked: seq<nat>)
      requires Valid() && node < graph.nodeNum
      modifies this`printed, visited
      ensures ended ==> NoRepeatsFrom(graph.data, old(Marks(visited)), node)
      ensures budget >= graph.nodeNum * graph.nodeNum && NoRepeatsFrom(graph.data, old(Marks(visited)), node) ==> ended
      ensures ended ==>
        && printed == old(printed) + walked
        && Traversed(MatrixOf(graph.data), old(Marks(visited)), node, Marks(visited), walked)
        && ByDistance(MatrixOf(graph.data), old(Marks(visited)), node, walked)
    {
      ghost var g, v0 := MatrixOf(graph.data), Marks(visited);
      var queue := [node];
      var left: nat := budget;
      walked, ended := [node], true;
      ghost var depth: seq<nat>, done := [0], 0;
      Print(node);
      SearchStart(g, v0, node);
      while queue != []
        invariant Searching(g, v0, node, Marks(visited), walked, depth, done)
        invariant queue == walked[done..] && printed == old(printed) + walked
        invariant ServedOnes(graph.data, walked, done)
        invariant NoRepeatsFrom(graph.data, v0, node) ==> left + done * graph.nodeNum >= budget
        decreases graph.nodeNum - done
      {
        var temp := queue[0];
        queue := queue[1..];
        OnceBound(walked, graph.nodeNum);
        EnoughLeft(graph.data, v0, node, Marks(visited), walked, depth, done, left, budget);
        OneShare(done, graph.nodeNum);
        ended, left, queue, walked, depth :=
          ExpandWithin(temp, queue, left, node, v0, walked, depth, done, old(printed));
        if !ended {
          return;
        }
        done := done + 1;
        OnceBound(walked, graph.nodeNum);
      }
      SearchEnd(g, v0, node, Marks(visited), walked, depth);
    }

    /** The loop over the neighbours of the node taken from the queue, while looks are left. */
    method ExpandWithin(temp: nat, queue0: seq<nat>, budget: nat, ghost node: nat, ghost v0: set<nat>,
                        ghost walked0: seq<nat>, ghost depth0: seq<nat>, ghost done: nat, ghost before: seq<nat>)
      returns (ended: bool, left: nat, queue: seq<nat>, ghost walked: seq<nat>, ghost depth: seq<nat>)
      requires Valid() && Searching(MatrixOf(graph.data), v0, node, Marks(visited), walked0, depth0, done)
      requires done < |walked0| && walked0[done] == temp && walked0[done + 1..] == queue0 && temp < graph.nodeNum
      requires printed == before + walked0 && ServedOnes(graph.data, walked0, done)
      modifies this`printed, visited
      ensures ended ==> ServedOnes(graph.data, walked, done + 1)
      ensures ended ==> Once(graph.data[temp]) && left == budget - |graph.data[temp]|
      ensures Once(graph.data[temp]) && budget >= |graph.data[temp]| ==> ended
      ensures ended ==> Searching(MatrixOf(graph.data), v0, node, Marks(visited), walked, depth, done + 1)
      ensures ended ==> queue == walked[done + 1..] && printed == before + walked
    {
      ghost var l, k := graph.data[temp], 0;
      queue, walked, depth, left := queue0, walked0, depth0, budget;
      var i := graph.FirstNeighbor(temp);
      while i != -1 && left > 0
        invariant left == budget - k && -1 <= i < graph.nodeNum
        invariant Serving(graph.data, v0, node, Marks(visited), walked, depth, done, k, i) && walked[done] == temp
        invariant queue == walked[done + 1..] && printed == before + walked
        decreases left
      {
        i, queue, walked, depth := ServeNext(temp, i, queue, node, v0, walked, depth, done, k, before);
        left, k := left - 1, k + 1;
      }
      ended := i == -1;
      if ended {
        ServedAll(graph.data, v0, node, Marks(visited), walked, depth, done, k);
      } else if Once(l) {
        LoopShort(l, k, Marks(visited), i);
      }
    }

    /** The body of that loop. */
    method ServeNext(temp: nat, i: nat, queue0: seq<nat>, ghost node: nat, ghost v0: set<nat>, ghost walked0: seq<nat>,
                     ghost depth0: seq<nat>, ghost done: nat, ghost k: nat, ghost before: seq<nat>)
      returns (next: int, queue: seq<nat>, ghost walked: seq<nat>, ghost depth: seq<nat>)
      requires Valid() && Serving(graph.data, v0, node, Marks(visited), walked0, depth0, done, k, i)
      requires walked0[done] == temp && i < graph.nodeNum
      requires queue0 == walked0[done + 1..] && printed == before + walked0
      modifies this`printed, visited
      ensures -1 <= next < graph.nodeNum
      ensures Serving(graph.data, v0, node, Marks(visited), walked, depth, done, k + 1, next) && walked[done] == temp
      ensures walked == walked0 || walked == walked0 + [i]
      ensures queue == walked[done + 1..] && printed == before + walked
    {
      queue, walked, depth := queue0, walked0, depth0;
      ServeOne(graph.data, v0, node, Marks(visited), walked, depth, done, k, i);
      if !visited[i] {
        queue := queue + [i];
        Print(i);
        walked, depth := walked + [i], depth + [depth[done] + 1];
      }
      next := graph.NextNeighbor(temp, i);
    }

    method DFS(node: nat) returns (ghost walked: seq<nat>)
      requires Valid() && node < graph.nodeNum && NoRepeatsFrom(graph.data, Marks(visited), node)
      modifies this`printed, visited
      ensures printed == old(printed) + walked
      ensures Traversed(MatrixOf(graph.data), old(Marks(visited)), node, Marks(visited), walked)
      ensures DepthFirst(MatrixOf(graph.data), node, walked)
      ensures DepthOrder(MatrixOf(graph.data), old(Marks(visited)), walked, Listed(graph.data))
      ensures Unmarks(visited) <= old(Unmarks(visited))
      decreases Unmarks(visited) - {node}, 1
    {
      ghost var v0, l, k := Marks(visited), graph.data[node], 0;
      walked := [node];
      Print(node);
      StartExplored(MatrixOf(graph.data), v0, node);
      assert Once(l) by { assert Reaches(MatrixOf(graph.data), v0, node, node); }
      var i := graph.FirstNeighbor(node);
      while i != -1
        invariant i == Entry(l, k) && AtEntry(graph.data, v0, node, Marks(visited), walked, k)
        invariant printed == old(printed) + walked
        invariant Unmarks(visited) <= old(Unmarks(visited)) - {node}
        decreases |l| - k
      {
        NextEntry(l, k);
        walked := Visit(node, i, v0, walked, k, old(printed));
        i := graph.NextNeighbor(node, i);
        k := k + 1;
      }
      AtLastEntry(graph.data, v0, node, Marks(visited), walked);
    }

    /** The body of the loop: descend unless marked. */
    method Visit(node: nat, i: nat, ghost v0: set<nat>, ghost walked: seq<nat>, ghost k: nat, ghost before: seq<nat>)
      returns (ghost walked': seq<nat>)
      requires Valid() && AtEntry(graph.data, v0, node, Marks(visited), walked, k)
      requires k < |graph.data[node]| && i == graph.data[node][k] && printed == before + walked
      requires NoRepeatsFrom(graph.data, v0, node)
      modifies this`printed, visited
      ensures AtEntry(graph.data, v0, node, Marks(visited), walked', k + 1)
      ensures printed == before + walked' && Unmarks(visited) <= old(Unmarks(visited))
      decreases Unmarks(visited), 0
    {
      walked' := walked;
      ghost var v := Marks(visited);
      if !visited[i] {
        DescendNoRepeats(graph.data, v0, node, v, walked, k);
        ghost var w := DFS(i);
        Descended(graph.data, v0, node, v, walked, k, Marks(visited), w);
        walked' := walked + w;
      }
    }

    /** The same code, cut off after `budget` looks at a neighbour; `left` are those not used.
        With n for each node not marked it ends exactly when no list it comes to repeats an
        entry; otherwise that of `bad` does. */
    method DFSWithin(node: nat, budget: nat) returns (ended: bool, left: nat, ghost walked: seq<nat>, ghost bad: nat)
      requires Valid() && node < graph.nodeNum
      modifies this`printed, visited
      ensures Unmarks(visited) <= old(Unmarks(visited)) && left <= budget
      ensures ended ==> NoRepeatsFrom(graph.data, old(Marks(visited)), node)
      ensures ended ==> Spends(graph.nodeNum, left, Unmarks(visited), budget, old(Unmarks(visited)) + {node})
      ensures !ended && budget >= Need(graph.nodeNum, old(Unmarks(visited)) + {node}) ==>
        Repeats(graph.data, old(Marks(visited)), node, bad)
      ensures ended ==>
        && printed == old(printed) + walked
        && Traversed(MatrixOf(graph.data), old(Marks(visited)), node, Marks(visited), walked)
        && DepthFirst(MatrixOf(graph.data), node, walked)
      decreases Unmarks(visited) - {node}, 3
    {
      ghost var v0, k := Marks(visited), 0;
      ghost var enough := budget >= Need(graph.nodeNum, Unmarks(visited) + {node});
      NeedLess(graph.nodeNum, Unmarks(visited), node);
      Print(node);
      StartExplored(MatrixOf(graph.data), v0, node);
      var i;
      ended, i, left, walked, k, bad := LoopWithin(node, budget, v0, [node], old(printed), enough);
      if ended {
        ended := i == -1;
        if ended {
          DescendedAll(graph.data, v0, node, Marks(visited), walked, k);
          OnceShort(graph.data[node], graph.nodeNum);
        } else if enough {
          bad := node;
          LongRepeats(graph.data, v0, node, Marks(visited), walked, k, i);
        }
      }
    }

    /** That loop, until it ends, or no looks are left, here or (`!whole`) in a call. */
    method LoopWithin(node: nat, budget: nat, ghost v0: set<nat>, ghost walked0: seq<nat>, ghost before: seq<nat>,
                      ghost enough: bool)
      returns (whole: bool, i: int, left: nat, ghost walked: seq<nat>, ghost k: nat, ghost bad: nat)
      requires Valid() && node < graph.nodeNum && printed == before + walked0
      requires DescendingAt(graph.data, v0, node, Marks(visited), walked0, 0, First(graph.data[node]))
      requires enough ==> budget >= Need(graph.nodeNum, Unmarks(visited)) + graph.nodeNum
      modifies this`printed, visited
      ensures Unmarks(visited) <= old(Unmarks(visited)) && left <= budget
      ensures whole ==> DescendingAt(graph.data, v0, node, Marks(visited), walked, k, i) && printed == before + walked
      ensures whole ==> -1 <= i < graph.nodeNum && (i == -1 || left == 0)
      ensures enough && whole ==> Affords(graph.nodeNum, left + k, Unmarks(visited), k, budget, old(Unmarks(visited)))
      ensures enough && !whole ==> Repeats(graph.data, v0, node, bad)
      decreases Unmarks(visited), 2
    {
      walked, left, whole, k, bad := walked0, budget, true, 0, node;
      ghost var u0, u, v := Unmarks(visited), Unmarks(visited), Marks(visited);
      i := graph.FirstNeighbor(node);
      while i != -1 && left > 0
        invariant -1 <= i < graph.nodeNum && left <= budget && printed == before + walked
        invariant v == Marks(visited) && u == Unmarks(visited) && u <= u0
        invariant DescendingAt(graph.data, v0, node, v, walked, k, i)
        invariant enough ==> Affords(graph.nodeNum, left + k, u, k, budget, u0)
        decreases left
      {
        ghost var was, n := left, graph.nodeNum;
        whole, i, left, walked, bad := VisitWithin(node, i, left - 1, v0, walked, k, before);
        if enough {
          AffordsOn(n, budget, u0, k, was, u, left, Unmarks(visited));
        }
        if !whole {
          return;
        }
        v, u, k := Marks(visited), Unmarks(visited), k + 1;
      }
    }

    /** The body of that loop, and its step to the next neighbour. */
    method VisitWithin(node: nat, i: nat, budget: nat, ghost v0: set<nat>, ghost walked: seq<nat>, ghost k: nat,
                       ghost before: seq<nat>)
      returns (ended: bool, next: int, left: nat, ghost walked': seq<nat>, ghost bad: nat)
      requires Valid() && DescendingAt(graph.data, v0, node, Marks(visited), walked, k, i)
      requires i < graph.nodeNum && printed == before + walked
      modifies this`printed, visited
      ensures Unmarks(visited) <= old(Unmarks(visited)) && left <= budget && -1 <= next < graph.nodeNum
      ensures ended ==> DescendingAt(graph.data, v0, node, Marks(visited), walked', k + 1, next)
      ensures ended ==> printed == before + walked'
      ensures ended ==> Spends(graph.nodeNum, left, Unmarks(visited), budget, old(Unmarks(visited)))
      ensures !ended && (k >= graph.nodeNum || budget >= Need(graph.nodeNum, old(Unmarks(visited)))) ==>
        Repeats(graph.data, v0, node, bad)
      decreases Unmarks(visited), 1
    {
      if visited[i] {
        DescendOn(graph.data, v0, node, Marks(visited), walked, k, i);
        ended, left, walked', bad := true, budget, walked, node;
      } else {
        ended, left, walked', bad := CallWithin(node, i, budget, v0, walked, k, before);
      }
      next := graph.NextNeighbor(node, i);
    }

    method CallWithin(node: nat, i: nat, budget: nat, ghost v0: set<nat>, ghost walked: seq<nat>, ghost k: nat,
                      ghost before: seq<nat>)
      returns (ended: bool, left: nat, ghost walked': seq<nat>, ghost bad: nat)
      requires Valid() && DescendingAt(graph.data, v0, node, Marks(visited), walked, k, i)
      requires i < graph.nodeNum && !visited[i] && printed == before + walked
      modifies this`printed, visited
      ensures Unmarks(visited) <= old(Unmarks(visited)) && left <= budget
      ensures ended ==> DescendingAt(graph.data, v0, node, Marks(visited), walked', k + 1, Next(graph.data[node], i))
      ensures ended ==> printed == before + walked'
      ensures ended ==> Spends(graph.nodeNum, left, Unmarks(visited), budget, old(Unmarks(visited)))
      ensures !ended && (k >= graph.nodeNum || budget >= Need(graph.nodeNum, old(Unmarks(visited)))) ==>
        Repeats(graph.data, v0, node, bad)
      decreases Unmarks(visited), 0
    {
      ghost var v, u := Marks(visited), Unmarks(visited);
      assert u + {i} == u;
      ghost var w;
      ended, left, w, bad := DFSWithin(i, budget);
      walked' := walked + w;
      PrintedSoFar(before, walked, w);
      if ended {
        DescendThrough(graph.data, v0, node, v, walked, k, i, Marks(visited), w);
      } else {
        bad := CallCutOff(graph.data, v0, node, v, walked, k, i, bad);
      }
    }

    method BFSTraverse() returns (ghost order: seq<nat>, ghost walks: seq<seq<nat>>)
      requires Valid() && NoRepeats(graph.data)
      modifies this`printed, visited
      ensures printed == old(printed) + order && Once(order) && Elements(order) == Nodes(graph.nodeNum)
      ensures order == Joined(walks) && Walks(Breadth, MatrixOf(graph.data), walks, Listed(graph.data))
    {
      ghost var g, before := MatrixOf(graph.data), Listed(graph.data);
      order, walks := [], [];
      ClearMarks();
      for i := 0 to graph.nodeNum
        invariant printed == old(printed) + order && Once(order) && Marks(visited) == Elements(order)
        invariant forall x: nat :: x < i ==> x in Marks(visited)
        invariant order == Joined(walks) && Walks(Breadth, g, walks, before)
      {
        if !visited[i] {
          ghost var v := Marks(visited);
          ghost var w := BFS(i);
          OneMoreWalk(Breadth, g, v, i, Marks(visited), order, walks, w, before);
          PrintedSoFar(old(printed), order, w);
          order, walks := order + w, walks + [w];
        }
      }
      EveryoneMarked(order, graph.nodeNum);
    }

    method DFSTraverse() returns (ghost order: seq<nat>, ghost walks: seq<seq<nat>>)
      requires Valid() && NoRepeats(graph.data)
      modifies this`printed, visited
      ensures printed == old(printed) + order && Once(order) && Elements(order) == Nodes(graph.nodeNum)
      ensures order == Joined(walks) && Walks(Depth, MatrixOf(graph.data), walks, Listed(graph.data))
    {
      ghost var g, before := MatrixOf(graph.data), Listed(graph.data);
      order, walks := [], [];
      ClearMarks();
      for i := 0 to graph.nodeNum
        invariant printed == old(printed) + order && Once(order) && Marks(visited) == Elements(order)
        invariant forall x: nat :: x < i ==> x in Marks(visited)
        invariant order == Joined(walks) && Walks(Depth, g, walks, before)
      {
        if !visited[i] {
          ghost var v := Marks(visited);
          ghost var w := DFS(i);
          OneMoreWalk(Depth, g, v, i, Marks(visited), order, walks, w, before);
          PrintedSoFar(old(printed), order, w);
          order, walks := order + w, walks + [w];
        }
      }
      EveryoneMarked(order, graph.nodeNum);
    }

    method ClearMarks()
      requires Valid()
      modifies visited
      ensures Marks(visited) == {}
    {
      for i := 0 to graph.nodeNum
        invariant forall x: nat :: x < i ==> !visited[x]
      {
        visited[i] := false;
      }
    }
  }
}
