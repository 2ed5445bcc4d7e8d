/** Breadth-first and depth-first traversal of 5_section_6/2_traverse.cpp, for a matrix
    of any size. */
module Traverse {
  import opened GraphMatrix
  import opened Counting

  ghost predicate Arc(g: seq<seq<int>>, x: nat, y: nat)
    requires Square(g)
  {
    x < |g| && y < |g| && g[x][y] != 0
  }

  // ----- what a traversal should reach -----

  ghost predicate FreshArc(g: seq<seq<int>>, v: set<nat>, x: nat, y: nat)
    requires Square(g)
  {
    Arc(g, x, y) && y !in v
  }

  /** A path from `x` to `y` all of whose nodes after the first are outside `v`. */
  ghost predicate FreshPath(g: seq<seq<int>>, v: set<nat>, p: seq<nat>, x: nat, y: nat)
    requires Square(g)
  {
    && |p| > 0 && p[0] == x && p[|p| - 1] == y
    && forall i :: 0 <= i < |p| - 1 ==> FreshArc(g, v, p[i], p[i + 1])
  }

  /** `t` keeps every arc to a node outside `v`. */
  ghost predicate ClosedUnder(g: seq<seq<int>>, v: set<nat>, t: set<nat>)
    requires Square(g)
  {
    forall x, y :: x in t && FreshArc(g, v, x, y) ==> y in t
  }

  /** `y` is reachable from `x` along nodes that `v` does not hold. */
  ghost predicate Reaches(g: seq<seq<int>>, v: set<nat>, x: nat, y: nat)
    requires Square(g)
  {
    forall t: set<nat> :: ClosedUnder(g, v, t) && x in t ==> y in t
  }

  lemma {:induction false} PathStays(g: seq<seq<int>>, v: set<nat>, p: seq<nat>, x: nat, y: nat, t: set<nat>)
    requires Square(g) && FreshPath(g, v, p, x, y) && ClosedUnder(g, v, t) && x in t
    ensures y in t
    decreases |p|
  {
    if |p| > 1 {
      assert FreshArc(g, v, p[0], p[1]);
      forall i | 0 <= i < |p[1..]| - 1 ensures FreshArc(g, v, p[1..][i], p[1..][i + 1]) {
        assert FreshArc(g, v, p[i + 1], p[i + 2]);
      }
      PathStays(g, v, p[1..], p[1], y, t);
    }
  }

  lemma ReachesIffPath(g: seq<seq<int>>, v: set<nat>, x: nat, y: nat)
    requires Square(g) && x < |g|
    ensures Reaches(g, v, x, y) <==> exists p :: FreshPath(g, v, p, x, y)
  {
    if p :| FreshPath(g, v, p, x, y) {
      forall t: set<nat> | ClosedUnder(g, v, t) && x in t ensures y in t {
        PathStays(g, v, p, x, y, t);
      }
    }
    if Reaches(g, v, x, y) {
      NodesAre(|g|);
      var t := set z | z in Nodes(|g|) && exists p :: FreshPath(g, v, p, x, z);
      assert FreshPath(g, v, [x], x, x);
      forall a, b | a in t && FreshArc(g, v, a, b) ensures b in t {
        var p :| FreshPath(g, v, p, x, a);
        assert FreshPath(g, v, p + [b], x, b);
      }
      assert ClosedUnder(g, v, t);
    }
  }

  // ----- what a traversal has done -----

  /** From `v0`, having started at `node`, the nodes `v` are marked and `walked` has been
      printed; every printed node except `node` and those in `open` has all its successors marked. */
  ghost predicate Explored(g: seq<seq<int>>, v0: set<nat>, node: nat, v: set<nat>, walked: seq<nat>, open: set<nat>)
    requires Square(g)
  {
    && node < |g| && node in walked && v == v0 + Elements(walked) && Once(walked)
    && (forall x :: x in walked ==> x < |g| && (x == node || x !in v0))
    && (forall x :: x in walked ==> Reaches(g, v0, node, x))
    && (forall x, y {:trigger x in walked, Arc(g, x, y)} :: x in walked && x !in open && Arc(g, x, y) ==> y in v)
  }

  /** What one traversal from `node` does, given the nodes `v0` marked before: `walked` is
      printed, without repetition, and marked, and it is what can be reached. */
  ghost predicate Traversed(g: seq<seq<int>>, v0: set<nat>, node: nat, v: set<nat>, walked: seq<nat>)
    requires Square(g)
  {
    && v == v0 + Elements(walked) && Once(walked)
    && (forall x :: x in walked <==> Reaches(g, v0, node, x))
    && (forall x :: x in walked ==> x < |g| && (x == node || x !in v0))
  }

  /** With nothing left open, exactly the reachable nodes have been printed. */
  lemma ExploredAll(g: seq<seq<int>>, v0: set<nat>, node: nat, v: set<nat>, walked: seq<nat>)
    requires Square(g) && Explored(g, v0, node, v, walked, {})
    ensures Traversed(g, v0, node, v, walked)
  {
    forall x | Reaches(g, v0, node, x) ensures x in walked {
      var t := Elements(walked);
      forall a, b | a in t && FreshArc(g, v0, a, b) ensures b in t {
        assert a in walked;
      }
      assert ClosedUnder(g, v0, t);
    }
  }

  /** A successor of a printed node that is not marked yet is printed and left open. */
  lemma Discover(g: seq<seq<int>>, v0: set<nat>, node: nat, v: set<nat>, walked: seq<nat>, open: set<nat>, x: nat,
                 y: nat)
    requires Square(g) && Explored(g, v0, node, v, walked, open)
    requires x in walked && Arc(g, x, y) && y !in v
    ensures Explored(g, v0, node, v + {y}, walked + [y], open + {y})
  {
    OnceMore(walked, y);
    assert Reaches(g, v0, node, y) by {
      forall t: set<nat> | ClosedUnder(g, v0, t) && node in t ensures y in t {
        assert x in t && FreshArc(g, v0, x, y);
      }
    }
    assert forall z :: z in walked + [y] <==> z in walked || z == y;
  }

  // ----- the order of printing -----

  ghost predicate StepsTo(g: seq<seq<int>>, v0: set<nat>, node: nat, y: nat, d: nat)
    requires Square(g)
  {
    exists p :: FreshPath(g, v0, p, node, y) && |p| == d + 1
  }

  ghost predicate FewestSteps(g: seq<seq<int>>, v0: set<nat>, node: nat, y: nat, d: nat)
    requires Square(g)
  {
    StepsTo(g, v0, node, y, d) && forall c: nat :: c < d ==> !StepsTo(g, v0, node, y, c)
  }

  ghost predicate Ascending(depth: seq<nat>) {
    forall i, j :: 0 <= i <= j < |depth| ==> depth[i] <= depth[j]
  }

  ghost predicate Distances(g: seq<seq<int>>, v0: set<nat>, node: nat, walked: seq<nat>, depth: seq<nat>)
    requires Square(g)
  {
    |depth| == |walked| && forall k :: 0 <= k < |walked| ==> FewestSteps(g, v0, node, walked[k], depth[k])
  }

  /** Breadth first: the nodes come in the order of their distance from `node`. */
  ghost predicate ByDistance(g: seq<seq<int>>, v0: set<nat>, node: nat, walked: seq<nat>)
    requires Square(g)
  {
    exists depth :: Distances(g, v0, node, walked, depth) && Ascending(depth)
  }

  /** The `j`-th node succeeds one printed at position `from` or later, but before it. */
  ghost predicate Follows(g: seq<seq<int>>, walked: seq<nat>, from: nat, j: nat)
    requires Square(g) && j < |walked|
  {
    exists d :: from <= d < j && Arc(g, walked[d], walked[j])
  }

  /** When the `j`-th node is printed the `i`-th has another successor to come, and so the
      `j`-th follows the `i`-th or a node printed after it. */
  ghost predicate Deepest(g: seq<seq<int>>, walked: seq<nat>, i: nat, j: nat)
    requires Square(g) && i < j < |walked|
  {
    (exists k :: j < k < |walked| && Arc(g, walked[i], walked[k])) ==> Follows(g, walked, i, j)
  }

  /** Depth first: no node is printed on account of another while a later one has
      successors to print. */
  ghost predicate DepthFirst(g: seq<seq<int>>, node: nat, walked: seq<nat>)
    requires Square(g)
  {
    && |walked| > 0 && walked[0] == node
    && (forall j :: 0 < j < |walked| ==> Follows(g, walked, 0, j))
    && (forall i, j :: 0 <= i < j < |walked| ==> Deepest(g, walked, i, j))
  }

  /** `before(x, y, z)` is to say that `y` comes before `z` among the successors of `x`. */
  type Order = (nat, nat, nat) -> bool

  /** The order of a matrix row. */
  predicate Smaller(x: nat, y: nat, z: nat) {
    y < z
  }

  ghost predicate Total(g: seq<seq<int>>, before: Order)
    requires Square(g)
  {
    forall x, y, z :: Arc(g, x, y) && Arc(g, x, z) && y != z ==> before(x, y, z) || before(x, z, y)
  }

  /** `y` was marked when the `j`-th node was printed. */
  ghost predicate Seen(v0: set<nat>, walked: seq<nat>, j: nat, y: nat)
    requires j <= |walked|
  {
    y in v0 || y in walked[..j]
  }

  /** The `j`-th node is the first successor of the `i`-th that was not marked. */
  ghost predicate FirstUnseen(g: seq<seq<int>>, v0: set<nat>, walked: seq<nat>, i: nat, j: nat, before: Order)
    requires Square(g) && i < j < |walked|
  {
    && Arc(g, walked[i], walked[j])
    && forall y :: Arc(g, walked[i], y) && before(walked[i], y, walked[j]) ==> Seen(v0, walked, j, y)
  }

  /** The successors of the nodes at positions `from` up to `to` were all marked. */
  ghost predicate AllSeen(g: seq<seq<int>>, v0: set<nat>, walked: seq<nat>, from: nat, to: nat, j: nat)
    requires Square(g) && to <= j <= |walked|
  {
    forall a, y :: from <= a < to && Arc(g, walked[a], y) ==> Seen(v0, walked, j, y)
  }

  /** Breadth first: each node is the first unmarked successor of the earliest node that has one. */
  ghost predicate BreadthOrder(g: seq<seq<int>>, v0: set<nat>, walked: seq<nat>, before: Order)
    requires Square(g)
  {
    forall j :: 0 < j < |walked| ==> NextBreadth(g, v0, walked, j, before)
  }

  ghost predicate NextBreadth(g: seq<seq<int>>, v0: set<nat>, walked: seq<nat>, j: nat, before: Order)
    requires Square(g) && j < |walked|
  {
    exists i: nat :: i < j && FirstUnseen(g, v0, walked, i, j, before) && AllSeen(g, v0, walked, 0, i, j)
  }

  /** Depth first: each node is the first unmarked successor of the latest node that has one. */
  ghost predicate DepthOrder(g: seq<seq<int>>, v0: set<nat>, walked: seq<nat>, before: Order)
    requires Square(g)
  {
    forall j :: 0 < j < |walked| ==> NextDepth(g, v0, walked, j, before)
  }

  ghost predicate NextDepth(g: seq<seq<int>>, v0: set<nat>, walked: seq<nat>, j: nat, before: Order)
    requires Square(g) && j < |walked|
  {
    exists i: nat :: i < j && FirstUnseen(g, v0, walked, i, j, before) && AllSeen(g, v0, walked, i + 1, j, j)
  }

  /** A node that was printed had not been seen. */
  lemma NotSeen(g: seq<seq<int>>, v0: set<nat>, node: nat, v: set<nat>, walked: seq<nat>, j: nat)
    requires Square(g) && Traversed(g, v0, node, v, walked) && 0 < j < |walked| && walked[0] == node
    ensures !Seen(v0, walked, j, walked[j])
  {
    assert walked[j] in walked && walked[0] != walked[j];
  }

  /** There is one breadth-first order. */
  lemma {:induction false} BreadthPrefix(g: seq<seq<int>>, v0: set<nat>, node: nat, v: set<nat>, w: seq<nat>,
                                         v': set<nat>, w': seq<nat>, before: Order, j: nat)
    requires Square(g) && Traversed(g, v0, node, v, w) && Traversed(g, v0, node, v', w') && Total(g, before)
    requires |w| > 0 && |w'| > 0 && w[0] == w'[0] == node && j <= |w| && j <= |w'|
    requires BreadthOrder(g, v0, w, before) && BreadthOrder(g, v0, w', before)
    ensures w[..j] == w'[..j]
  {
    if j > 1 {
      var k := j - 1;
      BreadthPrefix(g, v0, node, v, w, v', w', before, k);
      assert NextBreadth(g, v0, w, k, before) && NextBreadth(g, v0, w', k, before);
      var i: nat :| i < k && FirstUnseen(g, v0, w, i, k, before) && AllSeen(g, v0, w, 0, i, k);
      var i': nat :| i' < k && FirstUnseen(g, v0, w', i', k, before) && AllSeen(g, v0, w', 0, i', k);
      NotSeen(g, v0, node, v, w, k);
      NotSeen(g, v0, node, v', w', k);
      assert w[i] == w[..k][i] == w'[..k][i] && w'[i'] == w'[..k][i'] == w[..k][i'];
      SameNext(g, v0, w, w', k, i, i', before);
      SameMore(w, w', k);
    }
  }

  lemma SameNext(g: seq<seq<int>>, v0: set<nat>, w: seq<nat>, w': seq<nat>, k: nat, i: nat, i': nat, before: Order)
    requires Square(g) && Total(g, before) && i < k < |w| && i' < k < |w'| && w[..k] == w'[..k]
    requires w[i] == w'[i] && w[i'] == w'[i']
    requires FirstUnseen(g, v0, w, i, k, before) && FirstUnseen(g, v0, w', i', k, before)
    requires !Seen(v0, w, k, w[k]) && !Seen(v0, w', k, w'[k])
    requires i != i' ==>
      (forall y :: Arc(g, w[i], y) ==> Seen(v0, w', k, y)) || (forall y :: Arc(g, w[i'], y) ==> Seen(v0, w, k, y))
    ensures w[k] == w'[k]
  {
    assert forall y :: Seen(v0, w, k, y) <==> Seen(v0, w', k, y);
    assert i == i';
    var x, y, z := w[i], w[k], w'[k];
    assert y != z ==> before(x, y, z) || before(x, z, y);
  }

  lemma BreadthUnique(g: seq<seq<int>>, v0: set<nat>, node: nat, v: set<nat>, w: seq<nat>, v': set<nat>, w': seq<nat>,
                      before: Order)
    requires Square(g) && Traversed(g, v0, node, v, w) && Traversed(g, v0, node, v', w') && Total(g, before)
    requires |w| > 0 && |w'| > 0 && w[0] == w'[0] == node
    requires BreadthOrder(g, v0, w, before) && BreadthOrder(g, v0, w', before)
    ensures w == w'
  {
    SameNodes(g, v0, node, v, w, v', w');
    assert |multiset(w)| == |w| && |multiset(w')| == |w'|;
    BreadthPrefix(g, v0, node, v, w, v', w', before, |w|);
    assert w[..|w|] == w && w'[..|w'|] == w';
  }

  /** There is one depth-first order. */
  lemma {:induction false} DepthPrefix(g: seq<seq<int>>, v0: set<nat>, node: nat, v: set<nat>, w: seq<nat>,
                                       v': set<nat>, w': seq<nat>, before: Order, j: nat)
    requires Square(g) && Traversed(g, v0, node, v, w) && Traversed(g, v0, node, v', w') && Total(g, before)
    requires |w| > 0 && |w'| > 0 && w[0] == w'[0] == node && j <= |w| && j <= |w'|
    requires DepthOrder(g, v0, w, before) && DepthOrder(g, v0, w', before)
    ensures w[..j] == w'[..j]
  {
    if j > 1 {
      var k := j - 1;
      DepthPrefix(g, v0, node, v, w, v', w', before, k);
      assert NextDepth(g, v0, w, k, before) && NextDepth(g, v0, w', k, before);
      var i: nat :| i < k && FirstUnseen(g, v0, w, i, k, before) && AllSeen(g, v0, w, i + 1, k, k);
      var i': nat :| i' < k && FirstUnseen(g, v0, w', i', k, before) && AllSeen(g, v0, w', i' + 1, k, k);
      NotSeen(g, v0, node, v, w, k);
      NotSeen(g, v0, node, v', w', k);
      assert w[i] == w[..k][i] == w'[..k][i] && w'[i'] == w'[..k][i'] == w[..k][i'];
      SameNext(g, v0, w, w', k, i, i', before);
      SameMore(w, w', k);
    }
  }

  lemma DepthUnique(g: seq<seq<int>>, v0: set<nat>, node: nat, v: set<nat>, w: seq<nat>, v': set<nat>, w': seq<nat>,
                    before: Order)
    requires Square(g) && Traversed(g, v0, node, v, w) && Traversed(g, v0, node, v', w') && Total(g, before)
    requires |w| > 0 && |w'| > 0 && w[0] == w'[0] == node
    requires DepthOrder(g, v0, w, before) && DepthOrder(g, v0, w', before)
    ensures w == w'
  {
    SameNodes(g, v0, node, v, w, v', w');
    assert |multiset(w)| == |w| && |multiset(w')| == |w'|;
    DepthPrefix(g, v0, node, v, w, v', w', before, |w|);
    assert w[..|w|] == w && w'[..|w'|] == w';
  }

  // ----- the traversal of the whole graph -----

  datatype Search = Breadth | Depth

  ghost predicate InOrder(how: Search, g: seq<seq<int>>, v0: set<nat>, w: seq<nat>, before: Order)
    requires Square(g) && |w| > 0
  {
    match how
    case Breadth => ByDistance(g, v0, w[0], w) && BreadthOrder(g, v0, w, before)
    case Depth => DepthFirst(g, w[0], w) && DepthOrder(g, v0, w, before)
  }

  /** `node` is the least of the `n` nodes that is not marked. */
  ghost predicate LeastLeft(n: nat, v0: set<nat>, node: nat) {
    node < n && node !in v0 && forall x: nat :: x < node ==> x in v0
  }

  /** With `v0` marked, a walk from the least node left. */
  ghost predicate Walk(how: Search, g: seq<seq<int>>, v0: set<nat>, w: seq<nat>, before: Order)
    requires Square(g)
  {
    && |w| > 0 && LeastLeft(|g|, v0, w[0])
    && Traversed(g, v0, w[0], v0 + Elements(w), w) && InOrder(how, g, v0, w, before)
  }

  function Joined(walks: seq<seq<nat>>): seq<nat> {
    if walks == [] then [] else Joined(walks[..|walks| - 1]) + walks[|walks| - 1]
  }

  /** One walk after the other, each with all nodes of those before it marked. */
  ghost predicate Walks(how: Search, g: seq<seq<int>>, walks: seq<seq<nat>>, before: Order)
    requires Square(g)
  {
    forall k :: 0 <= k < |walks| ==> Walk(how, g, Elements(Joined(walks[..k])), walks[k], before)
  }

  // ----- the class -----

  /** The nodes marked so far. */
  ghost function Marks(visited: array<bool>): (v: set<nat>)
    reads visited
    ensures forall i: nat :: i in v <==> i < visited.Length && visited[i]
  {
    set i: nat | i < visited.Length && visited[i]
  }

  ghost function Unmarks(visited: array<bool>): (v: set<nat>)
    reads visited
    ensures forall i: nat :: i in v <==> i < visited.Length && !visited[i]
  {
    set i: nat | i < visited.Length && !visited[i]
  }

  class Traversal {
    const graph: GraphMatrix
    const visited: array<bool>
    var printed: seq<nat>

    ghost predicate Valid()
      reads this, visited
    {
      graph.Valid() && visited.Length == graph.nodeNum
    }

    constructor (g: GraphMatrix)
      requires g.Valid()
      ensures Valid() && graph == g && printed == [] && fresh(visited)
    {
      graph := g;
      visited := new bool[g.nodeNum](_ => false);
      printed := [];
    }

    method BFS(node: nat) returns (ghost walked: seq<nat>)
      requires Valid() && node < graph.nodeNum
      modifies this`printed, visited
      ensures printed == old(printed) + walked
      ensures Traversed(graph.data, old(Marks(visited)), node, Marks(visited), walked)
      ensures ByDistance(graph.data, old(Marks(visited)), node, walked)
      ensures |walked| > 0 && walked[0] == node && BreadthOrder(graph.data, old(Marks(visited)), walked, Smaller)
    {
      ghost var g, v0 := graph.data, Marks(visited);
      var queue := [node];
      walked := [node];
      ghost var depth: seq<nat>, done := [0], 0;
      Print(node);
      SearchStart(g, v0, node);
      while queue != []
        invariant Searching(g, v0, node, Marks(visited), walked, depth, done) && BreadthOrder(g, v0, walked, Smaller)
        invariant queue == walked[done..] && printed == old(printed) + walked
        decreases graph.nodeNum - done
      {
        var temp := queue[0];
        queue := queue[1..];
        queue, walked, depth := ExpandFront(temp, queue, node, v0, walked, depth, done, old(printed));
        done := done + 1;
        OnceBound(walked, graph.nodeNum);
      }
      SearchEnd(g, v0, node, Marks(visited), walked, depth);
    }

    /** Writes a node out and marks it. */
    method Print(node: nat)
      requires Valid() && node < graph.nodeNum
      modifies this`printed, visited
      ensures printed == old(printed) + [node] && Marks(visited) == old(Marks(visited)) + {node}
      ensures Unmarks(visited) == old(Unmarks(visited)) - {node}
    {
      printed := printed + [node];
      visited[node] := true;
    }

    /** Looks at every successor of the node `temp` taken from the queue. */
    method ExpandFront(temp: nat, queue0: seq<nat>, ghost node: nat, ghost v0: set<nat>, ghost walked0: seq<nat>,
                       ghost depth0: seq<nat>, ghost done: nat, ghost before: seq<nat>)
      returns (queue: seq<nat>, ghost walked: seq<nat>, ghost depth: seq<nat>)
      requires Valid() && Searching(graph.data, v0, node, Marks(visited), walked0, depth0, done)
      requires done < |walked0| && walked0[done] == temp && walked0[done + 1..] == queue0
      requires printed == before + walked0 && BreadthOrder(graph.data, v0, walked0, Smaller)
      modifies this`printed, visited
      ensures Searching(graph.data, v0, node, Marks(visited), walked, depth, done + 1)
      ensures BreadthOrder(graph.data, v0, walked, Smaller)
      ensures queue == walked[done + 1..] && printed == before + walked
    {
      queue, walked, depth := queue0, walked0, depth0;
      var i := graph.FirstNeighbor(temp);
      while i != -1
        invariant -1 <= i && Expanding(graph.data, v0, node, Marks(visited), walked, depth, done, i)
        invariant walked[done] == temp && queue == walked[done + 1..] && printed == before + walked
        invariant BreadthOrder(graph.data, v0, walked, Smaller)
        decreases graph.nodeNum - Passed(i, graph.nodeNum)
      {
        i, queue, walked, depth := ExpandOne(temp, i, queue, node, v0, walked, depth, done, before);
      }
      SearchPassed(graph.data, v0, node, Marks(visited), walked, depth, done);
    }

    /** The body of that loop, and its step to the next successor. */
    method ExpandOne(temp: nat, i: nat, queue0: seq<nat>, ghost node: nat, ghost v0: set<nat>, ghost walked0: seq<nat>,
                     ghost depth0: seq<nat>, ghost done: nat, ghost before: seq<nat>)
      returns (next: int, queue: seq<nat>, ghost walked: seq<nat>, ghost depth: seq<nat>)
      requires Valid() && Expanding(graph.data, v0, node, Marks(visited), walked0, depth0, done, i)
      requires walked0[done] == temp && queue0 == walked0[done + 1..] && printed == before + walked0
      requires BreadthOrder(graph.data, v0, walked0, Smaller)
      modifies this`printed, visited
      ensures next == -1 || i < next < graph.nodeNum
      ensures Expanding(graph.data, v0, node, Marks(visited), walked, depth, done, next)
      ensures walked[done] == temp && queue == walked[done + 1..] && printed == before + walked
      ensures BreadthOrder(graph.data, v0, walked, Smaller)
    {
      queue, walked, depth := queue0, walked0, depth0;
      next := graph.NextNeighbor(temp, i);
      if visited[i] {
        ExpandNext(graph.data, v0, node, Marks(visited), walked, depth, done, i, next);
      } else {
        ExpandInOrder(graph.data, v0, node, Marks(visited), walked, depth, done, i);
        ExpandFound(graph.data, v0, node, Marks(visited), walked, depth, done, i, next);
        queue := queue + [i];
        Print(i);
        walked, depth := walked + [i], depth + [depth[done] + 1];
      }
    }

    method DFS(node: nat) returns (ghost walked: seq<nat>)
      requires Valid() && node < graph.nodeNum
      modifies this`printed, visited
      ensures printed == old(printed) + walked
      ensures Traversed(graph.data, old(Marks(visited)), node, Marks(visited), walked)
      ensures DepthFirst(graph.data, node, walked)
      ensures DepthOrder(graph.data, old(Marks(visited)), walked, Smaller)
      ensures Unmarks(visited) <= old(Unmarks(visited))
      decreases Unmarks(visited) - {node}, 1
    {
      ghost var g, v0 := graph.data, Marks(visited);
      walked := [node];
      Print(node);
      StartExplored(g, v0, node);
      var i := graph.FirstNeighbor(node);
      while i != -1
        invariant i >= -1 && Descending(g, v0, node, Marks(visited), walked, i) && DepthOrder(g, v0, walked, Smaller)
        invariant printed == old(printed) + walked
        invariant Unmarks(visited) <= old(Unmarks(visited)) - {node}
        decreases graph.nodeNum - Passed(i, graph.nodeNum)
      {
        var next := graph.NextNeighbor(node, i);
        walked := Visit(node, i, next, v0, walked, old(printed));
        i := next;
      }
      ExploredAll(g, v0, node, Marks(visited), walked);
    }

    /** The body of the loop: descend unless marked. */
    method Visit(node: nat, i: nat, ghost next: int, ghost v0: set<nat>, ghost walked: seq<nat>,
                 ghost before: seq<nat>)
      returns (ghost walked': seq<nat>)
      requires Valid() && node < graph.nodeNum && NextNonzero(graph.data[node], i + 1, next)
      requires Descending(graph.data, v0, node, Marks(visited), walked, i)
      requires DepthOrder(graph.data, v0, walked, Smaller) && printed == before + walked
      modifies this`printed, visited
      ensures printed == before + walked' && Unmarks(visited) <= old(Unmarks(visited))
      ensures Descending(graph.data, v0, node, Marks(visited), walked', next)
      ensures DepthOrder(graph.data, v0, walked', Smaller)
      decreases Unmarks(visited), 0
    {
      walked' := walked;
      ghost var v := Marks(visited);
      if !visited[i] {
        ghost var w := DFS(i);
        DescendInto(graph.data, v0, node, v, walked, i, Marks(visited), w);
        DepthOrderJoin(graph.data, v0, node, v, walked, i, Marks(visited), w, Smaller);
        PrintedSoFar(before, walked, w);
        walked' := walked + w;
      }
      DescendNext(graph.data, v0, node, v, walked, Marks(visited), walked', i, next);
    }

    /** Visits every node of the graph, each once. */
    method BFSTraverse() returns (ghost order: seq<nat>, ghost walks: seq<seq<nat>>)
      requires Valid()
      modifies this`printed, visited
      ensures printed == old(printed) + order && Once(order) && Elements(order) == Nodes(graph.nodeNum)
      ensures order == Joined(walks) && Walks(Breadth, graph.data, walks, Smaller)
    {
      order, walks := [], [];
      ClearMarks();
      for i := 0 to graph.nodeNum
        invariant printed == old(printed) + order && Once(order) && Marks(visited) == Elements(order)
        invariant forall x: nat :: x < i ==> x in Marks(visited)
        invariant order == Joined(walks) && Walks(Breadth, graph.data, walks, Smaller)
      {
        if !visited[i] {
          ghost var v := Marks(visited);
          ghost var w := BFS(i);
          OneMoreWalk(Breadth, graph.data, v, i, Marks(visited), order, walks, w, Smaller);
          PrintedSoFar(old(printed), order, w);
          order, walks := order + w, walks + [w];
        }
      }
      EveryoneMarked(order, graph.nodeNum);
    }

    method DFSTraverse() returns (ghost order: seq<nat>, ghost walks: seq<seq<nat>>)
      requires Valid()
      modifies this`printed, visited
      ensures printed == old(printed) + order && Once(order) && Elements(order) == Nodes(graph.nodeNum)
      ensures order == Joined(walks) && Walks(Depth, graph.data, walks, Smaller)
    {
      order, walks := [], [];
      ClearMarks();
      for i := 0 to graph.nodeNum
        invariant printed == old(printed) + order && Once(order) && Marks(visited) == Elements(order)
        invariant forall x: nat :: x < i ==> x in Marks(visited)
        invariant order == Joined(walks) && Walks(Depth, graph.data, walks, Smaller)
      {
        if !visited[i] {
          ghost var v := Marks(visited);
          ghost var w := DFS(i);
          OneMoreWalk(Depth, graph.data, v, i, Marks(visited), order, walks, w, Smaller);
          PrintedSoFar(old(printed), order, w);
          order, walks := order + w, walks + [w];
        }
      }
      EveryoneMarked(order, graph.nodeNum);
    }

    method ClearMarks()
      requires Valid()
      modifies visited
      ensures Marks(visited) == {}
    {
      for i := 0 to graph.nodeNum
        invariant forall x: nat :: x < i ==> !visited[x]
      {
        visited[i] := false;
      }
    }
  }

  lemma PrintedSoFar(before: seq<nat>, walked: seq<nat>, w: seq<nat>)
    ensures before + walked + w == before + (walked + w)
  {
  }

  /** The walk from the least unmarked node continues the walks before it. */
  lemma OneMoreWalk(how: Search, g: seq<seq<int>>, v: set<nat>, node: nat, v': set<nat>, order: seq<nat>,
                    walks: seq<seq<nat>>, w: seq<nat>, before: Order)
    requires Square(g) && Once(order) && order == Joined(walks) && v == Elements(order)
    requires Walks(how, g, walks, before) && Traversed(g, v, node, v', w)
    requires LeastLeft(|g|, v, node) && |w| > 0 && w[0] == node && InOrder(how, g, v, w, before)
    ensures Once(order + w) && v' == Elements(order + w) && node in v' && v <= v'
    ensures order + w == Joined(walks + [w]) && Walks(how, g, walks + [w], before)
  {
    AppendTraversal(g, v, node, v', order, w);
    var all := walks + [w];
    assert all[..|walks|] == walks;
    forall k | 0 <= k < |all| ensures Walk(how, g, Elements(Joined(all[..k])), all[k], before) {
      if k < |walks| {
        assert all[..k] == walks[..k];
        assert Walk(how, g, Elements(Joined(walks[..k])), walks[k], before);
      }
    }
  }

  /** As long as walks follow, a node is left; and the next one is determined. */
  lemma SameWalkNext(how: Search, g: seq<seq<int>>, v0: set<nat>, w: seq<nat>, walks': seq<seq<nat>>, before: Order,
                     j: nat)
    requires Square(g) && Total(g, before) && Walk(how, g, v0, w, before) && Walks(how, g, walks', before)
    requires Elements(Joined(walks')) == Nodes(|g|) && j <= |walks'| && Elements(Joined(walks'[..j])) == v0
    ensures j < |walks'| && walks'[j] == w
  {
    NodesAre(|g|);
    assert walks'[..|walks'|] == walks';
    assert w[0] in Nodes(|g|) && w[0] !in v0;
    assert Walk(how, g, v0, walks'[j], before);
    WalkUnique(how, g, v0, w, walks'[j], before);
  }

  lemma {:induction false} WalksPrefix(how: Search, g: seq<seq<int>>, walks: seq<seq<nat>>, walks': seq<seq<nat>>,
                                       before: Order, k: nat)
    requires Square(g) && Total(g, before) && k <= |walks|
    requires Walks(how, g, walks, before) && Walks(how, g, walks', before)
    requires Elements(Joined(walks')) == Nodes(|g|)
    ensures k <= |walks'| && walks[..k] == walks'[..k]
  {
    if k > 0 {
      var j := k - 1;
      WalksPrefix(how, g, walks, walks', before, j);
      SameWalkNext(how, g, Elements(Joined(walks[..j])), walks[j], walks', before, j);
      SameMore(walks, walks', j);
    }
  }

  lemma SameMore<T>(s: seq<T>, t: seq<T>, j: nat)
    requires j < |s| && j < |t| && s[..j] == t[..j] && s[j] == t[j]
    ensures s[..j + 1] == t[..j + 1]
  {
    assert s[..j + 1] == s[..j] + [s[j]] && t[..j + 1] == t[..j] + [t[j]];
  }

  lemma {:induction false} WalkUnique(how: Search, g: seq<seq<int>>, v0: set<nat>, w: seq<nat>, w': seq<nat>,
                                      before: Order)
    requires Square(g) && Total(g, before) && Walk(how, g, v0, w, before) && Walk(how, g, v0, w', before)
    ensures w == w'
  {
    var v, v' := v0 + Elements(w), v0 + Elements(w');
    match how
    case Breadth => BreadthUnique(g, v0, w[0], v, w, v', w', before);
    case Depth => DepthUnique(g, v0, w[0], v, w, v', w', before);
  }

  /** There is one way to traverse the whole graph. */
  lemma {:induction false} WalksUnique(how: Search, g: seq<seq<int>>, walks: seq<seq<nat>>, walks': seq<seq<nat>>,
                                       before: Order)
    requires Square(g) && Total(g, before) && Walks(how, g, walks, before) && Walks(how, g, walks', before)
    requires Elements(Joined(walks)) == Elements(Joined(walks')) == Nodes(|g|)
    ensures walks == walks'
  {
    WalksPrefix(how, g, walks, walks', before, |walks|);
    WalksPrefix(how, g, walks', walks, before, |walks'|);
    assert walks[..|walks|] == walks && walks'[..|walks'|] == walks';
  }

  lemma AppendTraversal(g: seq<seq<int>>, v: set<nat>, node: nat, v': set<nat>, order: seq<nat>, w: seq<nat>)
    requires Square(g) && Traversed(g, v, node, v', w) && node !in v
    requires v == Elements(order) && Once(order)
    ensures Once(order + w) && v' == Elements(order + w)
    ensures node in v' && v <= v'
  {
    assert Reaches(g, v, node, node);
    OnceJoin(order, w);
  }

  lemma EveryoneMarked(order: seq<nat>, n: nat)
    requires forall x: nat :: x < n <==> x in Elements(order)
    ensures Elements(order) == Nodes(n)
  {
    NodesAre(n);
  }

  /** The loop over the successors of `node`, all of whose explored successors are done, has come to `i`. */
  ghost predicate Descending(g: seq<seq<int>>, v0: set<nat>, node: nat, v: set<nat>, walked: seq<nat>, i: int)
    requires Square(g)
  {
    && Deepening(g, v0, node, v, walked)
    && (i >= 0 ==> Arc(g, node, i))
    && (forall y: nat :: (i < 0 || y < i) && Arc(g, node, y) ==> y in v)
  }

  /** The call for `node` is under way; of the nodes printed so far only `node` itself may
      have successors to print. */
  ghost predicate Deepening(g: seq<seq<int>>, v0: set<nat>, node: nat, v: set<nat>, walked: seq<nat>)
    requires Square(g)
  {
    Explored(g, v0, node, v, walked, {node}) && DepthFirst(g, node, walked)
  }

  /** What is reachable from a successor, with more nodes marked, is reachable from the node. */
  lemma ReachesOn(g: seq<seq<int>>, v0: set<nat>, node: nat, v: set<nat>, i: nat, x: nat)
    requires Square(g) && v0 <= v && Arc(g, node, i) && i !in v && Reaches(g, v, i, x)
    ensures Reaches(g, v0, node, x)
  {
    forall t: set<nat> | ClosedUnder(g, v0, t) && node in t ensures x in t {
      assert FreshArc(g, v0, node, i);
      forall a, b | a in t && FreshArc(g, v, a, b) ensures b in t {
        assert FreshArc(g, v0, a, b);
      }
      assert ClosedUnder(g, v, t);
    }
  }

  /** What the recursive call explores belongs to this call's exploration. */
  lemma DescendInto(g: seq<seq<int>>, v0: set<nat>, node: nat, v: set<nat>, walked: seq<nat>, i: nat,
                    v': set<nat>, w: seq<nat>)
    requires Square(g) && Deepening(g, v0, node, v, walked)
    requires Arc(g, node, i) && i !in v && Traversed(g, v, i, v', w) && DepthFirst(g, i, w)
    ensures Deepening(g, v0, node, v', walked + w) && i in v' && v <= v'
  {
    assert w[0] in w;
    OnceJoin(walked, w);
    forall x | x in w ensures Reaches(g, v0, node, x) {
      ReachesOn(g, v0, node, v, i, x);
    }
    forall x, y | x in w && Arc(g, x, y) ensures y in v' {
      SuccessorsMarked(g, v, i, v', w, x, y);
    }
    forall a, y | 0 < a < |walked| && Arc(g, walked[a], y) ensures y !in w {
      assert walked[a] in walked && walked[a] != walked[0];
    }
    DepthFirstJoin(g, node, walked, i, w);
  }

  lemma SuccessorsMarked(g: seq<seq<int>>, v: set<nat>, i: nat, v': set<nat>, w: seq<nat>, x: nat, y: nat)
    requires Square(g) && Traversed(g, v, i, v', w) && x in w && Arc(g, x, y)
    ensures y in v'
  {
    if y !in v {
      forall t: set<nat> | ClosedUnder(g, v, t) && i in t ensures y in t {
        assert x in t && FreshArc(g, v, x, y);
      }
      assert Reaches(g, v, i, y);
    }
  }

  /** A depth-first order started from a successor of `node` continues one from `node`
      none of whose other nodes has a successor in it. */
  lemma DepthFirstJoin(g: seq<seq<int>>, node: nat, walked: seq<nat>, i: nat, w: seq<nat>)
    requires Square(g) && DepthFirst(g, node, walked) && DepthFirst(g, i, w) && Arc(g, node, i)
    requires forall a, y :: 0 < a < |walked| && Arc(g, walked[a], y) ==> y !in w
    ensures DepthFirst(g, node, walked + w)
  {
    var all, m := walked + w, |walked|;
    forall j | 0 < j < |all| ensures Follows(g, all, 0, j) {
      FollowsJoin(g, walked, w, 0, j);
    }
    forall a, b | 0 <= a < b < |all| ensures Deepest(g, all, a, b) {
      if a == 0 {
        assert Follows(g, all, 0, b);
      } else if a < m {
        forall k | m <= k < |all| ensures !Arc(g, all[a], all[k]) {
          assert all[k] in w;
        }
        if k :| b < k < m && Arc(g, all[a], all[k]) {
          assert Deepest(g, walked, a, b) && Arc(g, walked[a], walked[k]);
          FollowsJoin(g, walked, w, a, b);
        }
      } else if k :| b < k < |all| && Arc(g, all[a], all[k]) {
        assert Deepest(g, w, a - m, b - m) && Arc(g, w[a - m], w[k - m]);
        FollowsJoin(g, walked, w, a, b);
      }
    }
  }

  /** The order of the recursive call for the first unmarked successor continues the caller's. */
  lemma DepthOrderJoin(g: seq<seq<int>>, v0: set<nat>, node: nat, v: set<nat>, walked: seq<nat>, i: nat,
                       v': set<nat>, w: seq<nat>, before: Order)
    requires Square(g) && Deepening(g, v0, node, v, walked) && Arc(g, node, i)
    requires forall y :: Arc(g, node, y) && before(node, y, i) ==> y in v
    requires Traversed(g, v, i, v', w) && |w| > 0 && w[0] == i
    requires DepthOrder(g, v0, walked, before) && DepthOrder(g, v, w, before)
    ensures DepthOrder(g, v0, walked + w, before)
  {
    var all, m := walked + w, |walked|;
    forall j | 0 < j < |all| ensures NextDepth(g, v0, all, j, before) {
      if j < m {
        assert NextDepth(g, v0, walked, j, before);
        var a: nat :| a < j && FirstUnseen(g, v0, walked, a, j, before) && AllSeen(g, v0, walked, a + 1, j, j);
        EarlierSeen(g, v0, walked, w, a, a + 1, j, j, before);
      } else if j == m {
        DescentNext(g, v0, node, v, walked, i, w, before);
      } else {
        assert NextDepth(g, v, w, j - m, before);
        var a: nat :| a < j - m && FirstUnseen(g, v, w, a, j - m, before) && AllSeen(g, v, w, a + 1, j - m, j - m);
        LaterSeen(g, v0, v, walked, w, a, j - m, before);
      }
    }
  }

  /** The successor descended to comes next. */
  lemma DescentNext(g: seq<seq<int>>, v0: set<nat>, node: nat, v: set<nat>, walked: seq<nat>, i: nat, w: seq<nat>,
                    before: Order)
    requires Square(g) && Deepening(g, v0, node, v, walked) && Arc(g, node, i) && |w| > 0 && w[0] == i
    requires forall y :: Arc(g, node, y) && before(node, y, i) ==> y in v
    ensures NextDepth(g, v0, walked + w, |walked|, before)
  {
    var all, m := walked + w, |walked|;
    assert all[..m] == walked && all[0] == node && all[m] == i;
    forall a, y | 1 <= a < m && Arc(g, all[a], y) ensures Seen(v0, all, m, y) {
      var x := walked[a];
      assert all[a] == x && x in walked && x != node && Arc(g, x, y);
      assert y in v;
    }
    assert FirstUnseen(g, v0, all, 0, m, before) && AllSeen(g, v0, all, 1, m, m);
  }

  /** What had been seen within the call had been seen by the caller. */
  lemma LaterSeen(g: seq<seq<int>>, v0: set<nat>, v: set<nat>, walked: seq<nat>, w: seq<nat>, a: nat, j: nat,
                  before: Order)
    requires Square(g) && v == v0 + Elements(walked) && a < j < |w|
    requires FirstUnseen(g, v, w, a, j, before) && AllSeen(g, v, w, a + 1, j, j)
    ensures NextDepth(g, v0, walked + w, |walked| + j, before)
  {
    var all, m := walked + w, |walked|;
    assert all[..m + j] == walked + w[..j];
    assert forall y :: Seen(v, w, j, y) <==> Seen(v0, all, m + j, y);
    assert all[m + a] == w[a] && all[m + j] == w[j];
    assert FirstUnseen(g, v0, all, m + a, m + j, before);
    forall b, y | m + a + 1 <= b < m + j && Arc(g, all[b], y) ensures Seen(v0, all, m + j, y) {
      var x := w[b - m];
      assert all[b] == x && Arc(g, x, y);
      assert Seen(v, w, j, y);
    }
    assert AllSeen(g, v0, all, m + a + 1, m + j, m + j);
  }

  lemma FollowsJoin(g: seq<seq<int>>, walked: seq<nat>, w: seq<nat>, from: nat, j: nat)
    requires Square(g) && j < |walked| + |w| && |walked| > 0
    requires j < |walked| ==> from == j == 0 || Follows(g, walked, from, j)
    requires j >= |walked| ==>
      if from >= |walked| then Follows(g, w, from - |walked|, j - |walked|)
      else from == 0 && if j == |walked| then Arc(g, walked[0], w[0]) else Follows(g, w, 0, j - |walked|)
    ensures from == j == 0 || Follows(g, walked + w, from, j)
  {
    var all, m := walked + w, |walked|;
    if j < m {
      if j > 0 {
        var d :| from <= d < j && Arc(g, walked[d], walked[j]);
        assert Arc(g, all[d], all[j]);
      }
    } else if from < m && j == m {
      assert Arc(g, all[0], all[j]);
    } else {
      var d :| (if from >= m then from - m else 0) <= d < j - m && Arc(g, w[d], w[j - m]);
      assert Arc(g, all[d + m], all[j]);
    }
  }

  lemma DescendNext(g: seq<seq<int>>, v0: set<nat>, node: nat, v: set<nat>, walked: seq<nat>,
                    v': set<nat>, walked': seq<nat>, i: nat, next: int)
    requires Square(g) && Descending(g, v0, node, v, walked, i)
    requires NextNonzero(g[node], i + 1, next)
    requires v <= v' && i in v' && Deepening(g, v0, node, v', walked')
    ensures Descending(g, v0, node, v', walked', next)
  {
    assert forall y: nat :: (next == -1 || y < next) && Arc(g, node, y) ==> y <= i;
  }

  /** Started from the same marks, both mark and print the same nodes. */
  lemma SameNodes(g: seq<seq<int>>, v0: set<nat>, node: nat, v1: set<nat>, bfs: seq<nat>, v2: set<nat>, dfs: seq<nat>)
    requires Square(g) && Traversed(g, v0, node, v1, bfs) && Traversed(g, v0, node, v2, dfs)
    ensures v1 == v2 && multiset(bfs) == multiset(dfs)
  {
    forall x ensures x in bfs <==> x in dfs {
    }
    assert Elements(bfs) == Elements(dfs);
    OnceBag(bfs);
    OnceBag(dfs);
  }

  lemma {:induction false} OnceBag(s: seq<nat>)
    requires Once(s)
    ensures multiset(s) == multiset(Elements(s))
  {
    if s != [] {
      var r := s[..|s| - 1];
      OnceBag(r);
      assert s == r + [s[|s| - 1]];
      assert Elements(s) == Elements(r) + {s[|s| - 1]};
    }
  }

  lemma OnceBound(s: seq<nat>, n: nat)
    requires Once(s) && forall x :: x in s ==> x < n
    ensures |s| <= n
  {
    OnceBag(s);
    assert |multiset(s)| == |s| && |multiset(Elements(s))| == |Elements(s)|;
    NodesAre(n);
    SubsetSize(Elements(s), Nodes(n));
  }

  lemma StartExplored(g: seq<seq<int>>, v0: set<nat>, node: nat)
    requires Square(g) && node < |g|
    ensures Explored(g, v0, node, v0 + {node}, [node], {node}) && Deepening(g, v0, node, v0 + {node}, [node])
  {
  }

  // ----- breadth first -----

  /** `y` has been printed, with at most the label `d`. */
  ghost predicate Labelled(walked: seq<nat>, depth: seq<nat>, y: nat, d: nat)
    requires |depth| == |walked|
  {
    exists j :: 0 <= j < |walked| && walked[j] == y && depth[j] <= d
  }

  /** The successors of the `k`-th node are at most one step further. */
  ghost predicate Spread(g: seq<seq<int>>, v0: set<nat>, walked: seq<nat>, depth: seq<nat>, k: nat)
    requires Square(g) && |depth| == |walked| && k < |walked|
  {
    forall y :: FreshArc(g, v0, walked[k], y) ==> Labelled(walked, depth, y, depth[k] + 1)
  }

  /** The printed nodes with their labels: the first `done` have had their successors
      printed, the rest, the queue, spans two layers at most. */
  ghost predicate Layered(g: seq<seq<int>>, v0: set<nat>, node: nat, walked: seq<nat>, depth: seq<nat>, done: nat)
    requires Square(g)
  {
    && |depth| == |walked| && done <= |walked| && Ascending(depth)
    && |walked| > 0 && walked[0] == node && depth[0] == 0
    && (forall k :: 0 <= k < |walked| ==> StepsTo(g, v0, node, walked[k], depth[k]))
    && (forall k :: 0 <= k < done ==> Spread(g, v0, walked, depth, k))
    && (done < |walked| ==> depth[|depth| - 1] <= depth[done] + 1)
  }

  ghost predicate Searching(g: seq<seq<int>>, v0: set<nat>, node: nat, v: set<nat>, walked: seq<nat>,
                            depth: seq<nat>, done: nat)
    requires Square(g)
  {
    && Layered(g, v0, node, walked, depth, done)
    && Explored(g, v0, node, v, walked, Elements(walked[done..]))
  }

  lemma SearchStart(g: seq<seq<int>>, v0: set<nat>, node: nat)
    requires Square(g) && node < |g|
    ensures Searching(g, v0, node, v0 + {node}, [node], [0], 0)
  {
    StartExplored(g, v0, node);
    assert [node][0..] == [node] && Elements([node]) == {node};
    assert FreshPath(g, v0, [node], node, node);
  }

  /** A successor, not marked yet, of the node being served is printed. */
  lemma SearchFound(g: seq<seq<int>>, v0: set<nat>, node: nat, v: set<nat>, walked: seq<nat>,
                    depth: seq<nat>, done: nat, y: nat)
    requires Square(g) && Searching(g, v0, node, v, walked, depth, done)
    requires done < |walked| && Arc(g, walked[done], y) && y !in v
    ensures Searching(g, v0, node, v + {y}, walked + [y], depth + [depth[done] + 1], done)
  {
    Discover(g, v0, node, v, walked, Elements(walked[done..]), walked[done], y);
    assert (walked + [y])[done..] == walked[done..] + [y];
    assert Elements(walked[done..] + [y]) == Elements(walked[done..]) + {y};
    LayeredMore(g, v0, node, walked, depth, done, y);
  }

  /** The node found is the next one in breadth-first order. */
  lemma BreadthMore(g: seq<seq<int>>, v0: set<nat>, node: nat, v: set<nat>, walked: seq<nat>,
                    depth: seq<nat>, done: nat, y: nat, before: Order)
    requires Square(g) && Searching(g, v0, node, v, walked, depth, done)
    requires done < |walked| && Arc(g, walked[done], y)
    requires forall z :: Arc(g, walked[done], z) && before(walked[done], z, y) ==> z in v
    requires BreadthOrder(g, v0, walked, before)
    ensures BreadthOrder(g, v0, walked + [y], before)
  {
    var all, m := walked + [y], |walked|;
    assert all[..m] == walked && all[done] == walked[done] && all[m] == y;
    assert FirstUnseen(g, v0, all, done, m, before);
    forall a, z | 0 <= a < done && Arc(g, all[a], z) ensures Seen(v0, all, m, z) {
      assert all[a] == walked[a] && walked[a] in walked && walked[a] !in walked[done..] by {
        AheadNotBehind(walked, a, done);
      }
    }
    assert AllSeen(g, v0, all, 0, done, m);
    forall j | 0 < j < |all| ensures NextBreadth(g, v0, all, j, before) {
      if j < m {
        assert NextBreadth(g, v0, walked, j, before);
        var i: nat :| i < j && FirstUnseen(g, v0, walked, i, j, before) && AllSeen(g, v0, walked, 0, i, j);
        EarlierSeen(g, v0, walked, [y], i, 0, i, j, before);
      }
    }
  }

  lemma AheadNotBehind(walked: seq<nat>, a: nat, done: nat)
    requires Once(walked) && a < done <= |walked|
    ensures walked[a] !in walked[done..]
  {
  }

  /** What had been seen when a node was printed does not change by printing more. */
  lemma EarlierSeen(g: seq<seq<int>>, v0: set<nat>, walked: seq<nat>, more: seq<nat>, i: nat, from: nat, to: nat,
                    j: nat, before: Order)
    requires Square(g) && i < j < |walked| && to <= j
    requires FirstUnseen(g, v0, walked, i, j, before) && AllSeen(g, v0, walked, from, to, j)
    ensures FirstUnseen(g, v0, walked + more, i, j, before) && AllSeen(g, v0, walked + more, from, to, j)
  {
    var all := walked + more;
    assert all[..j] == walked[..j];
    assert forall y :: Seen(v0, all, j, y) <==> Seen(v0, walked, j, y);
    assert forall a :: 0 <= a < j ==> all[a] == walked[a];
    assert all[j] == walked[j];
  }

  lemma LayeredMore(g: seq<seq<int>>, v0: set<nat>, node: nat, walked: seq<nat>, depth: seq<nat>, done: nat, y: nat)
    requires Square(g) && Layered(g, v0, node, walked, depth, done)
    requires done < |walked| && FreshArc(g, v0, walked[done], y)
    ensures Layered(g, v0, node, walked + [y], depth + [depth[done] + 1], done)
  {
    var walked', depth' := walked + [y], depth + [depth[done] + 1];
    forall k | 0 <= k < |walked'| ensures StepsTo(g, v0, node, walked'[k], depth'[k]) {
      if k < |walked| {
        assert StepsTo(g, v0, node, walked[k], depth[k]);
      } else {
        OneMoreStep(g, v0, node, walked[done], depth[done], y);
      }
    }
    forall k | 0 <= k < done ensures Spread(g, v0, walked', depth', k) {
      assert Spread(g, v0, walked, depth, k);
      forall z | FreshArc(g, v0, walked'[k], z) ensures Labelled(walked', depth', z, depth'[k] + 1) {
        assert Labelled(walked, depth, z, depth[k] + 1);
        var j :| 0 <= j < |walked| && walked[j] == z && depth[j] <= depth[k] + 1;
        assert walked'[j] == z && depth'[j] == depth[j];
      }
    }
  }

  lemma OneMoreStep(g: seq<seq<int>>, v0: set<nat>, node: nat, x: nat, d: nat, y: nat)
    requires Square(g) && StepsTo(g, v0, node, x, d) && FreshArc(g, v0, x, y)
    ensures StepsTo(g, v0, node, y, d + 1)
  {
    var p :| FreshPath(g, v0, p, node, x) && |p| == d + 1;
    assert FreshPath(g, v0, p + [y], node, y);
  }

  /** All successors of the node being served are marked: on to the next in the queue. */
  lemma SearchPassed(g: seq<seq<int>>, v0: set<nat>, node: nat, v: set<nat>, walked: seq<nat>,
                     depth: seq<nat>, done: nat)
    requires Square(g) && Searching(g, v0, node, v, walked, depth, done) && done < |walked|
    requires forall y: nat :: Arc(g, walked[done], y) ==> y in v
    ensures Searching(g, v0, node, v, walked, depth, done + 1)
  {
    assert walked[done..] == [walked[done]] + walked[done + 1..];
    forall y | FreshArc(g, v0, walked[done], y) ensures Labelled(walked, depth, y, depth[done] + 1) {
      var j :| 0 <= j < |walked| && walked[j] == y;
      assert depth[j] <= depth[|depth| - 1];
    }
    assert Spread(g, v0, walked, depth, done);
  }

  /** With the queue empty no path is shorter than the label of its end. */
  lemma {:induction false} LabelledWithin(g: seq<seq<int>>, v0: set<nat>, node: nat, walked: seq<nat>, depth: seq<nat>,
                                          p: seq<nat>, y: nat)
    requires Square(g) && Layered(g, v0, node, walked, depth, |walked|) && FreshPath(g, v0, p, node, y)
    ensures Labelled(walked, depth, y, |p| - 1)
    decreases |p|
  {
    if |p| == 1 {
      assert walked[0] == y;
    } else {
      var q, x := p[..|p| - 1], p[|p| - 2];
      assert FreshArc(g, v0, p[|p| - 2], p[|p| - 1]);
      LabelledWithin(g, v0, node, walked, depth, q, x);
      var j :| 0 <= j < |walked| && walked[j] == x && depth[j] <= |q| - 1;
      assert Spread(g, v0, walked, depth, j);
    }
  }

  lemma SearchEnd(g: seq<seq<int>>, v0: set<nat>, node: nat, v: set<nat>, walked: seq<nat>, depth: seq<nat>)
    requires Square(g) && Searching(g, v0, node, v, walked, depth, |walked|)
    ensures Traversed(g, v0, node, v, walked) && ByDistance(g, v0, node, walked)
  {
    assert Elements(walked[|walked|..]) == {};
    ExploredAll(g, v0, node, v, walked);
    forall k | 0 <= k < |walked| ensures FewestSteps(g, v0, node, walked[k], depth[k]) {
      forall c: nat | StepsTo(g, v0, node, walked[k], c) ensures depth[k] <= c {
        var p :| FreshPath(g, v0, p, node, walked[k]) && |p| == c + 1;
        LabelledWithin(g, v0, node, walked, depth, p, walked[k]);
      }
    }
    assert Distances(g, v0, node, walked, depth);
  }

  /** The loop over the successors of the node being served has come to `i` (-1: to the end). */
  ghost predicate Expanding(g: seq<seq<int>>, v0: set<nat>, node: nat, v: set<nat>, walked: seq<nat>,
                            depth: seq<nat>, done: nat, i: int)
    requires Square(g)
  {
    && Searching(g, v0, node, v, walked, depth, done) && done < |walked|
    && (i >= 0 ==> Arc(g, walked[done], i))
    && (forall y: nat :: (i < 0 || y < i) && Arc(g, walked[done], y) ==> y in v)
  }

  /** The enumeration leaves no successor out. */
  lemma NextArc(g: seq<seq<int>>, x: nat, i: nat, next: int)
    requires Square(g) && x < |g| && NextNonzero(g[x], i + 1, next)
    ensures next >= 0 ==> Arc(g, x, next)
    ensures forall y: nat :: (next < 0 || y < next) && Arc(g, x, y) ==> y <= i
  {
  }

  lemma ExpandNext(g: seq<seq<int>>, v0: set<nat>, node: nat, v: set<nat>, walked: seq<nat>,
                   depth: seq<nat>, done: nat, i: nat, next: int)
    requires Square(g) && Expanding(g, v0, node, v, walked, depth, done, i) && i in v
    requires NextNonzero(g[walked[done]], i + 1, next)
    ensures Expanding(g, v0, node, v, walked, depth, done, next)
  {
    NextArc(g, walked[done], i, next);
  }

  lemma ExpandFound(g: seq<seq<int>>, v0: set<nat>, node: nat, v: set<nat>, walked: seq<nat>,
                    depth: seq<nat>, done: nat, i: nat, next: int)
    requires Square(g) && Expanding(g, v0, node, v, walked, depth, done, i) && i !in v
    requires NextNonzero(g[walked[done]], i + 1, next)
    ensures Expanding(g, v0, node, v + {i}, walked + [i], depth + [depth[done] + 1], done, next)
    ensures (walked + [i])[done + 1..] == walked[done + 1..] + [i]
  {
    var x := walked[done];
    NextArc(g, x, i, next);
    assert forall y: nat :: (next < 0 || y < next) && Arc(g, x, y) ==> y in v + {i};
    SearchFound(g, v0, node, v, walked, depth, done, i);
    BehindFront(walked, done, i);
    assert (walked + [i])[done] == x;
  }

  lemma ExpandInOrder(g: seq<seq<int>>, v0: set<nat>, node: nat, v: set<nat>, walked: seq<nat>,
                      depth: seq<nat>, done: nat, i: nat)
    requires Square(g) && Expanding(g, v0, node, v, walked, depth, done, i)
    requires BreadthOrder(g, v0, walked, Smaller)
    ensures BreadthOrder(g, v0, walked + [i], Smaller)
  {
    BreadthMore(g, v0, node, v, walked, depth, done, i, Smaller);
  }

  lemma BehindFront(walked: seq<nat>, done: nat, y: nat)
    requires done < |walked|
    ensures (walked + [y])[done + 1..] == walked[done + 1..] + [y]
  {
  }
}
