/** Positions in a binary heap kept in an array. */
module HeapShape {

  function Parent(k: int): (p: int)
    requires k > 0
    ensures 0 <= p < k
  {
    (k - 1) / 2
  }

  lemma ChildrenOf(i: nat, c: int)
    requires c > 0
    ensures Parent(c) == i <==> c == 2 * i + 1 || c == 2 * i + 2
  {
  }
}
