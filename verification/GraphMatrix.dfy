/** The adjacency-matrix class the programs of 5_section_6 share, with its neighbour
    enumeration, for any number of nodes. */
module GraphMatrix {

  predicate Square(g: seq<seq<int>>) {
    forall i :: 0 <= i < |g| ==> |g[i]| == |g|
  }

  /** `next` is where a left-to-right walk over the nonzero entries of `row`, having
      passed everything before `start`, stops next; -1 when there is none. */
  predicate NextNonzero(row: seq<int>, start: int, next: int) {
    && (next == -1 || (0 <= next < |row| && start <= next && row[next] != 0))
    && forall j :: 0 <= j < |row| && start <= j && (next == -1 || j < next) ==> row[j] == 0
  }

  /** Where an enumeration of a row stands: entries before this have been passed. */
  function Passed(next: int, n: nat): int {
    if next == -1 then n else next
  }

  class GraphMatrix {
    const nodeNum: nat
    const data: seq<seq<int>>

    predicate Valid() {
      |data| == nodeNum && Square(data)
    }

    constructor (matrix: seq<seq<int>>)
      requires Square(matrix)
      ensures Valid() && data == matrix
    {
      nodeNum := |matrix|;
      data := matrix;
    }

    method FirstNeighbor(x: int) returns (next: int)
      requires Valid()
      ensures 0 <= x < nodeNum ==> NextNonzero(data[x], 0, next)
      ensures !(0 <= x < nodeNum) ==> next == -1
    {
      if x > nodeNum - 1 || x < 0 {
        return -1;
      }
      for i := 0 to nodeNum
        invariant forall j :: 0 <= j < i ==> data[x][j] == 0
      {
        if data[x][i] != 0 {
          return i;
        }
      }
      return -1;
    }

    method NextNeighbor(x: int, y: int) returns (next: int)
      requires Valid()
      ensures 0 <= x < nodeNum && 0 <= y < nodeNum ==> NextNonzero(data[x], y + 1, next)
      ensures !(0 <= x < nodeNum && 0 <= y < nodeNum) ==> next == -1
    {
      if x > nodeNum - 1 || x < 0 || y > nodeNum - 1 || y < 0 {
        return -1;
      }
      for i := y + 1 to nodeNum
        invariant forall j :: y < j < i ==> data[x][j] == 0
      {
        if data[x][i] != 0 {
          return i;
        }
      }
      return -1;
    }

    function GetWeight(x: int, y: int): (w: int)
      requires Valid()
      ensures 0 <= x < nodeNum && 0 <= y < nodeNum ==> w == data[x][y]
      ensures !(0 <= x < nodeNum && 0 <= y < nodeNum) ==> w == -1
    {
      if x > nodeNum - 1 || x < 0 || y > nodeNum - 1 || y < 0 then -1 else data[x][y]
    }
  }
}
