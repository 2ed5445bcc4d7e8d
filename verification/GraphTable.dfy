/** The adjacency-list class of 5_section_6/2_traverse.cpp: its neighbour enumeration
    looks the current neighbour up again by value. */
module GraphTable {
  import opened Counting

  /** Index of the first `y` in `l`, or `|l|`. */
  function FirstIndex(l: seq<int>, y: int): (i: nat)
    ensures i <= |l| && (i < |l| ==> l[i] == y) && forall j :: 0 <= j < i ==> l[j] != y
  {
    if l == [] || l[0] == y then 0 else 1 + FirstIndex(l[1..], y)
  }

  function First(l: seq<int>): int {
    if l == [] then -1 else l[0]
  }

  function Next(l: seq<int>, y: int): int {
    var i := FirstIndex(l, y);
    if i + 1 < |l| then l[i + 1] else -1
  }

  class GraphTable {
    const nodeNum: nat
    const data: seq<seq<int>>

    predicate Valid() {
      |data| == nodeNum &&
      forall x, i :: 0 <= x < nodeNum && 0 <= i < |data[x]| ==> 0 <= data[x][i] < nodeNum
    }

    constructor (lists: seq<seq<int>>)
      requires forall x, i :: 0 <= x < |lists| && 0 <= i < |lists[x]| ==> 0 <= lists[x][i] < |lists|
      ensures Valid() && data == lists
    {
      nodeNum := |lists|;
      data := lists;
    }

    method FirstNeighbor(x: int) returns (y: int)
      requires Valid()
      ensures y == if 0 <= x < nodeNum then First(data[x]) else -1
    {
      if x < 0 || x >= nodeNum || data[x] == [] {
        return -1;
      }
      return data[x][0];
    }

    method NextNeighbor(x: int, y: int) returns (z: int)
      requires Valid()
      ensures z == if 0 <= x < nodeNum && 0 <= y < nodeNum then Next(data[x], y) else -1
    {
      if x < 0 || x >= nodeNum || y < 0 || y >= nodeNum {
        return -1;
      }
      for i := 0 to |data[x]|
        invariant forall j :: 0 <= j < i ==> data[x][j] != y
      {
        if data[x][i] == y {
          assert FirstIndex(data[x], y) == i;
          if i + 1 < |data[x]| {
            return data[x][i + 1];
          } else {
            return -1;
          }
        }
      }
      return -1;
    }
  }

  // ----- the loop `for (i = firstNeighbor(x); i != -1; i = nextNeighbor(x, i))` -----

  /** The value of the loop variable after `k` rounds over the list `l`. */
  function Visited(l: seq<int>, k: nat): int {
    if k == 0 then First(l)
    else if Visited(l, k - 1) == -1 then -1
    else Next(l, Visited(l, k - 1))
  }

  /** Over a list without repetition the loop meets every entry in order, then ends. */
  lemma {:induction false} VisitsInOrder(l: seq<int>, k: nat)
    requires Once(l) && k <= |l| && forall i :: 0 <= i < |l| ==> l[i] >= 0
    ensures Visited(l, k) == if k < |l| then l[k] else -1
  {
    if k > 0 {
      VisitsInOrder(l, k - 1);
      assert FirstIndex(l, l[k - 1]) == k - 1;
    }
  }

  /** An entry that repeats an earlier one sends the loop back: it never leaves the list. */
  lemma {:induction false} VisitsForever(l: seq<int>, j: nat, k: nat)
    requires 0 < j < |l| && Once(l[..j]) && l[j] in l[..j]
    requires forall i :: 0 <= i < |l| ==> l[i] >= 0
    ensures Visited(l, k) in l[..j] && Visited(l, k) >= 0
  {
    if k == 0 {
      assert l[0] == l[..j][0];
    } else {
      VisitsForever(l, j, k - 1);
      var m :| 0 <= m < j && l[..j][m] == Visited(l, k - 1);
      assert FirstIndex(l, l[m]) == m by {
        var f := FirstIndex(l, l[m]);
        assert f <= m && l[..j][f] == l[..j][m];
      }
      assert m + 1 < j ==> l[m + 1] == l[..j][m + 1];
    }
  }

  lemma {:induction false} FirstRepeat(l: seq<int>, n: nat) returns (j: nat)
    requires n <= |l| && !Once(l[..n])
    ensures 0 < j < n && Once(l[..j]) && l[j] in l[..j]
  {
    if Once(l[..n - 1]) {
      j := n - 1;
      forall a, b | 0 <= a < b < n - 1 ensures l[a] != l[b] {
        assert l[..n - 1][a] != l[..n - 1][b];
      }
      var a, b :| 0 <= a < b < n && l[..n][a] == l[..n][b];
      assert b == n - 1;
      assert l[..n - 1][a] == l[n - 1];
    } else {
      j := FirstRepeat(l, n - 1);
    }
  }

  /** The loop over a node's list ends exactly when the list has no repeated entry. */
  lemma EnumerationEnds(l: seq<int>)
    requires forall i :: 0 <= i < |l| ==> l[i] >= 0
    ensures (exists k: nat :: Visited(l, k) == -1) <==> Once(l)
  {
    if Once(l) {
      VisitsInOrder(l, |l|);
    } else {
      assert l[..|l|] == l;
      var j := FirstRepeat(l, |l|);
      forall k: nat ensures Visited(l, k) != -1 {
        VisitsForever(l, j, k);
      }
    }
  }
}
