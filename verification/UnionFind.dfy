/** The union-find class of 5_section_6/3_minSpanTree.cpp. */
module UnionFind {

  /** Node `x` hangs correctly in the forest of parent links `p`: `rep` names the root
      of its class, `depth` shrinks towards it. */
  ghost predicate Hangs(p: seq<nat>, rep: seq<nat>, depth: seq<nat>, x: nat)
    requires |rep| == |p| == |depth| && x < |p|
  {
    && p[x] < |p| && rep[x] < |p|
    && rep[p[x]] == rep[x] && rep[rep[x]] == rep[x]
    && (p[x] == x <==> rep[x] == x)
    && (p[x] != x ==> depth[p[x]] < depth[x])
  }

  ghost predicate Forest(p: seq<nat>, rep: seq<nat>, depth: seq<nat>) {
    |rep| == |p| == |depth| && forall x: nat {:trigger Hangs(p, rep, depth, x)} :: x < |p| ==> Hangs(p, rep, depth, x)
  }

  /** A node that is no root lies strictly deeper than its root. */
  lemma {:induction false} RootAbove(p: seq<nat>, rep: seq<nat>, depth: seq<nat>, x: nat)
    requires Forest(p, rep, depth) && x < |p|
    ensures Hangs(p, rep, depth, x)
    ensures p[x] != x ==> depth[rep[x]] < depth[x]
    decreases depth[x]
  {
    assert Hangs(p, rep, depth, x);
    if p[x] != x {
      RootAbove(p, rep, depth, p[x]);
    }
  }

  /** Path compression: pointing `x` straight at its root. */
  lemma Compressed(p: seq<nat>, rep: seq<nat>, depth: seq<nat>, x: nat)
    requires Forest(p, rep, depth) && x < |p|
    ensures Hangs(p, rep, depth, x) && Forest(p[x := rep[x]], rep, depth)
  {
    RootAbove(p, rep, depth, x);
    var p' := p[x := rep[x]];
    RootAbove(p, rep, depth, rep[x]);
    forall y: nat | y < |p'| ensures Hangs(p', rep, depth, y) {
      assert Hangs(p, rep, depth, y);
    }
  }

  /** The representatives once the class of `x` has joined that of `y`. */
  function Merged(rep: seq<nat>, x: nat, y: nat): (r: seq<nat>)
    requires x < |rep| && y < |rep|
    ensures |r| == |rep|
    ensures forall i :: 0 <= i < |rep| ==> r[i] == if rep[i] == rep[x] then rep[y] else rep[i]
  {
    seq(|rep|, i requires 0 <= i < |rep| => if rep[i] == rep[x] then rep[y] else rep[i])
  }

  ghost function Lowered(rep: seq<nat>, depth: seq<nat>, root: nat, drop: nat): (d: seq<nat>)
    requires |rep| == |depth|
    ensures |d| == |depth|
    ensures forall i :: 0 <= i < |d| ==> d[i] == if rep[i] == root then depth[i] + drop else depth[i]
  {
    seq(|depth|, i requires 0 <= i < |depth| => if rep[i] == root then depth[i] + drop else depth[i])
  }

  /** Hanging one root under another. */
  lemma Joined(p: seq<nat>, rep: seq<nat>, depth: seq<nat>, a: nat, b: nat)
    requires Forest(p, rep, depth) && a < |p| && b < |p| && a != b && rep[a] == a && rep[b] == b
    ensures Forest(p[a := b], Merged(rep, a, b), Lowered(rep, depth, a, depth[b] + 1))
  {
    var p', r', d' := p[a := b], Merged(rep, a, b), Lowered(rep, depth, a, depth[b] + 1);
    assert Hangs(p, rep, depth, a) && Hangs(p, rep, depth, b);
    forall y: nat | y < |p| ensures Hangs(p', r', d', y) {
      assert Hangs(p, rep, depth, y);
    }
  }

  lemma MergedAtRoots(rep: seq<nat>, x: nat, y: nat, a: nat, b: nat)
    requires x < |rep| && y < |rep| && a == rep[x] && b == rep[y]
    requires a < |rep| && b < |rep| && rep[a] == a && rep[b] == b
    ensures Merged(rep, x, y) == if a == b then rep else Merged(rep, a, b)
  {
  }

  class UnionFind {
    var parent: array<nat>
    ghost var rep: seq<nat>
    ghost var depth: seq<nat>

    ghost predicate Valid()
      reads this, parent
    {
      Forest(parent[..], rep, depth)
    }

    constructor (size: nat)
      ensures Valid() && fresh(parent) && parent.Length == size
      ensures rep == seq(size, i => i)
    {
      parent := new nat[size](i => i);
      rep := seq(size, i => i);
      depth := seq(size, _ => 0);
      new;
      forall x: nat | x < size ensures Hangs(parent[..], rep, depth, x) {
      }
    }

    /** Returns the representative of `x`, and points every node met straight at it;
        no class changes. */
    method Find(x: nat) returns (r: nat)
      requires Valid() && x < parent.Length
      modifies parent
      ensures Valid() && r == rep[x] && r < parent.Length
      ensures parent[x] == r
      decreases depth[x]
    {
      RootAbove(parent[..], rep, depth, x);
      if parent[x] != x {
        var root := Find(parent[x]);
        Compressed(parent[..], rep, depth, x);
        ghost var before := parent[..];
        parent[x] := root;
        assert parent[..] == before[x := rep[x]];
      }
      return parent[x];
    }

    /** Merges the classes of `x` and `y`, and no others. */
    method Unite(x: nat, y: nat)
      requires Valid() && x < parent.Length && y < parent.Length
      modifies this`rep, this`depth, parent
      ensures Valid() && rep == Merged(old(rep), x, y)
    {
      var rootX := Find(x);
      var rootY := Find(y);
      RootAbove(parent[..], rep, depth, x);
      RootAbove(parent[..], rep, depth, y);
      MergedAtRoots(rep, x, y, rootX, rootY);
      if rootX != rootY {
        Joined(parent[..], rep, depth, rootX, rootY);
        ghost var after := parent[..][rootX := rootY];
        parent[rootX] := rootY;
        assert parent[..] == after;
        depth := Lowered(rep, depth, rootX, depth[rootY] + 1);
        rep := Merged(rep, rootX, rootY);
      }
    }
  }
}
