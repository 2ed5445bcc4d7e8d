/** Red-black trees as values: the shape the pointer structure of
    6_section_7/4_redBlackTree.cpp stands for, the colour and height invariants,
    and the path from a node up to the root.

    `N` is the type of node identities (object references in RedBlackTree.dfy). */
module RedBlackShape {

  datatype Color = RED | BLACK

  datatype Tree<N> =
    | Leaf
    | Node(id: N, val: int, color: Color, left: Tree<N>, right: Tree<N>)

  /** What surrounds a subtree, read upwards: each step names the parent, and the
      subtree hanging on its other side. */
  datatype Path<N> =
    | Top
    | ViaLeft(up: Path<N>, id: N, val: int, color: Color, sibling: Tree<N>)
    | ViaRight(up: Path<N>, id: N, val: int, color: Color, sibling: Tree<N>)

  // ----- contents -----

  function Ids<N>(t: Tree<N>): set<N> {
    match t
    case Leaf => {}
    case Node(id, _, _, l, r) => {id} + Ids(l) + Ids(r)
  }

  function PathIds<N>(c: Path<N>): set<N> {
    match c
    case Top => {}
    case ViaLeft(up, id, _, _, s) => {id} + Ids(s) + PathIds(up)
    case ViaRight(up, id, _, _, s) => {id} + Ids(s) + PathIds(up)
  }

  function Keys<N>(t: Tree<N>): seq<int> {
    match t
    case Leaf => []
    case Node(_, v, _, l, r) => Keys(l) + [v] + Keys(r)
  }

  function Before<N>(c: Path<N>): seq<int> {
    match c
    case Top => []
    case ViaLeft(up, _, _, _, _) => Before(up)
    case ViaRight(up, _, v, _, s) => Before(up) + Keys(s) + [v]
  }

  function After<N>(c: Path<N>): seq<int> {
    match c
    case Top => []
    case ViaLeft(up, _, v, _, s) => [v] + Keys(s) + After(up)
    case ViaRight(up, _, _, _, _) => After(up)
  }

  /** The whole tree with `t` at the end of the path. */
  function Plug<N>(c: Path<N>, t: Tree<N>): Tree<N> {
    match c
    case Top => t
    case ViaLeft(up, id, v, k, s) => Plug(up, Node(id, v, k, t, s))
    case ViaRight(up, id, v, k, s) => Plug(up, Node(id, v, k, s, t))
  }

  function WithSibling<N>(c: Path<N>, s: Tree<N>): (c': Path<N>)
    requires c != Top
    ensures c' != Top && c'.sibling == s && c'.id == c.id && c'.up == c.up
  {
    match c
    case ViaLeft(up, id, v, k, _) => ViaLeft(up, id, v, k, s)
    case ViaRight(up, id, v, k, _) => ViaRight(up, id, v, k, s)
  }

  /** The subtree one step up the path. */
  function Up<N>(c: Path<N>, t: Tree<N>): (r: Tree<N>)
    requires c != Top
    ensures r.Node?
  {
    match c
    case ViaLeft(_, id, v, k, s) => Node(id, v, k, t, s)
    case ViaRight(_, id, v, k, s) => Node(id, v, k, s, t)
  }

  /** `inner` continued upwards by `outer`. */
  function Join<N>(inner: Path<N>, outer: Path<N>): Path<N> {
    match inner
    case Top => outer
    case ViaLeft(up, id, v, k, s) => ViaLeft(Join(up, outer), id, v, k, s)
    case ViaRight(up, id, v, k, s) => ViaRight(Join(up, outer), id, v, k, s)
  }

  function Depth<N>(c: Path<N>): nat {
    match c
    case Top => 0
    case ViaLeft(up, _, _, _, _) => 1 + Depth(up)
    case ViaRight(up, _, _, _, _) => 1 + Depth(up)
  }

  function Size<N>(t: Tree<N>): nat {
    match t
    case Leaf => 0
    case Node(_, _, _, l, r) => Size(l) + 1 + Size(r)
  }

  // ----- every node occurs once -----

  predicate Distinct<N(==)>(t: Tree<N>) {
    match t
    case Leaf => true
    case Node(id, _, _, l, r) =>
      Distinct(l) && Distinct(r) && id !in Ids(l) && id !in Ids(r) && Ids(l) !! Ids(r)
  }

  predicate DistinctPath<N(==)>(c: Path<N>) {
    match c
    case Top => true
    case ViaLeft(up, id, _, _, s) =>
      DistinctPath(up) && Distinct(s) && id !in Ids(s) && id !in PathIds(up) && Ids(s) !! PathIds(up)
    case ViaRight(up, id, _, _, s) =>
      DistinctPath(up) && Distinct(s) && id !in Ids(s) && id !in PathIds(up) && Ids(s) !! PathIds(up)
  }

  // ----- the red-black invariants -----

  function ColorOf<N>(t: Tree<N>): Color {
    if t.Leaf? then BLACK else t.color
  }

  function ParentColor<N>(c: Path<N>): Color {
    if c.Top? then BLACK else c.color
  }

  function Weight(k: Color): nat {
    if k == BLACK then 1 else 0
  }

  /** Number of black nodes down the left edge; `Balanced` makes it that of every edge. */
  function BlackHeight<N>(t: Tree<N>): nat {
    match t
    case Leaf => 0
    case Node(_, _, k, l, _) => BlackHeight(l) + Weight(k)
  }

  predicate Balanced<N>(t: Tree<N>) {
    match t
    case Leaf => true
    case Node(_, _, _, l, r) => Balanced(l) && Balanced(r) && BlackHeight(l) == BlackHeight(r)
  }

  predicate NoRedRed<N>(t: Tree<N>) {
    match t
    case Leaf => true
    case Node(_, _, k, l, r) =>
      NoRedRed(l) && NoRedRed(r) && (k == RED ==> ColorOf(l) == BLACK && ColorOf(r) == BLACK)
  }

  predicate RedBlack<N>(t: Tree<N>) {
    Balanced(t) && NoRedRed(t) && ColorOf(t) == BLACK
  }

  /** The path wants a subtree of black height `h` at its lower end. */
  predicate BalancedPath<N>(c: Path<N>, h: nat) {
    match c
    case Top => true
    case ViaLeft(up, _, _, k, s) => Balanced(s) && BlackHeight(s) == h && BalancedPath(up, h + Weight(k))
    case ViaRight(up, _, _, k, s) => Balanced(s) && BlackHeight(s) == h && BalancedPath(up, h + Weight(k))
  }

  /** No red node of the path has a red parent or a red sibling subtree below it, and
      the uppermost node is black. */
  predicate NoRedRedPath<N>(c: Path<N>) {
    match c
    case Top => true
    case ViaLeft(up, _, _, k, s) =>
      NoRedRedPath(up) && NoRedRed(s) &&
      (k == RED ==> ColorOf(s) == BLACK && up != Top && ParentColor(up) == BLACK)
    case ViaRight(up, _, _, k, s) =>
      NoRedRedPath(up) && NoRedRed(s) &&
      (k == RED ==> ColorOf(s) == BLACK && up != Top && ParentColor(up) == BLACK)
  }

  /** The subtree in focus is one black node short, or will be once its root is black. */
  predicate Short<N>(c: Path<N>, t: Tree<N>) {
    Balanced(t) && NoRedRed(Blackened(t)) && BalancedPath(c, BlackHeight(t) + 1) && NoRedRedPath(c)
  }

  predicate Sorted(s: seq<int>) {
    forall i, j :: 0 <= i < j < |s| ==> s[i] <= s[j]
  }

  /** Everything is in order except, perhaps, that the red node in focus has a red parent
      or is the root. */
  predicate RedAt<N>(c: Path<N>, t: Tree<N>) {
    t.Node? && t.color == RED && Balanced(t) && NoRedRed(t) &&
    BalancedPath(c, BlackHeight(t)) && NoRedRedPath(c)
  }

  function Painted<N>(t: Tree<N>, k: Color): (r: Tree<N>)
    requires t.Node?
    ensures r.Node? && r.id == t.id
  {
    t.(color := k)
  }

  /** `s'` is `s` with `v` inserted at `at`, behind every key that is not larger. */
  predicate Inserted(s: seq<int>, v: int, at: nat, s': seq<int>) {
    && at <= |s| && s' == s[..at] + [v] + s[at..]
    && (forall x :: x in s[..at] ==> x <= v)
    && (forall x :: x in s[at..] ==> v < x)
  }

  /** `s'` is `s` without the occurrence of `v` at `at`. */
  predicate Removed(s: seq<int>, v: int, at: nat, s': seq<int>) {
    at < |s| && s[at] == v && s' == s[..at] + s[at + 1..]
  }

  function Blackened<N>(t: Tree<N>): Tree<N> {
    if t.Leaf? then t else t.(color := BLACK)
  }

  // ----- lemmas -----

  lemma KeysOnTheLeft(b: seq<int>, l: seq<int>, v: int, r: seq<int>, a: seq<int>)
    ensures b + (l + [v] + r) + a == b + l + ([v] + r + a)
  {
  }

  lemma KeysOnTheRight(b: seq<int>, l: seq<int>, v: int, r: seq<int>, a: seq<int>)
    ensures b + (l + [v] + r) + a == (b + l + [v]) + r + a
  {
  }

  lemma {:induction false} PlugKeys<N>(c: Path<N>, t: Tree<N>)
    ensures Keys(Plug(c, t)) == Before(c) + Keys(t) + After(c)
  {
    match c
    case Top =>
    case ViaLeft(up, id, v, k, s) =>
      PlugKeys(up, Node(id, v, k, t, s));
      KeysOnTheLeft(Before(up), Keys(t), v, Keys(s), After(up));
    case ViaRight(up, id, v, k, s) =>
      PlugKeys(up, Node(id, v, k, s, t));
      KeysOnTheRight(Before(up), Keys(s), v, Keys(t), After(up));
  }

  lemma {:induction false} PlugIds<N>(c: Path<N>, t: Tree<N>)
    ensures Ids(Plug(c, t)) == PathIds(c) + Ids(t)
  {
    match c
    case Top =>
    case ViaLeft(up, id, v, k, s) => PlugIds(up, Node(id, v, k, t, s));
    case ViaRight(up, id, v, k, s) => PlugIds(up, Node(id, v, k, s, t));
  }

  predicate SameContents<N(==)>(t: Tree<N>, t': Tree<N>) {
    Keys(t') == Keys(t) && Ids(t') == Ids(t)
  }

  lemma PlugSameContents<N>(c: Path<N>, t: Tree<N>, t': Tree<N>)
    requires SameContents(t, t')
    ensures SameContents(Plug(c, t), Plug(c, t'))
  {
    PlugKeys(c, t); PlugKeys(c, t');
    PlugIds(c, t); PlugIds(c, t');
  }

  lemma {:induction false} JoinPlug<N>(inner: Path<N>, outer: Path<N>, t: Tree<N>)
    ensures Plug(Join(inner, outer), t) == Plug(outer, Plug(inner, t))
  {
    match inner
    case Top =>
    case ViaLeft(up, id, v, k, s) => JoinPlug(up, outer, Node(id, v, k, t, s));
    case ViaRight(up, id, v, k, s) => JoinPlug(up, outer, Node(id, v, k, s, t));
  }

  /** A plugged tree is balanced exactly when both parts are and their heights fit. */
  lemma {:induction false} PlugBalanced<N>(c: Path<N>, t: Tree<N>)
    ensures Balanced(Plug(c, t)) <==> Balanced(t) && BalancedPath(c, BlackHeight(t))
  {
    match c
    case Top =>
    case ViaLeft(up, id, v, k, s) =>
      var t' := Node(id, v, k, t, s);
      PlugBalanced(up, t');
    case ViaRight(up, id, v, k, s) =>
      var t' := Node(id, v, k, s, t);
      PlugBalanced(up, t');
  }

  /** Likewise for the colours. */
  lemma {:induction false} PlugNoRedRed<N>(c: Path<N>, t: Tree<N>)
    ensures NoRedRed(Plug(c, t)) && ColorOf(Plug(c, t)) == BLACK
       <==> NoRedRed(t) && NoRedRedPath(c) &&
            (ColorOf(t) == RED ==> c != Top && ParentColor(c) == BLACK)
  {
    match c
    case Top =>
    case ViaLeft(up, id, v, k, s) => PlugNoRedRed(up, Node(id, v, k, t, s));
    case ViaRight(up, id, v, k, s) => PlugNoRedRed(up, Node(id, v, k, s, t));
  }

  /** Two paths that differ only in which node, with which value, their upper part
      starts with are balanced and coloured alike. */
  lemma {:induction false} JoinSameColors<N>(inner: Path<N>, c1: Path<N>, c2: Path<N>, h: nat)
    requires c1.ViaRight? && c2.ViaRight? && c2 == c1.(id := c2.id, val := c2.val)
    ensures BalancedPath(Join(inner, c1), h) == BalancedPath(Join(inner, c2), h)
    ensures NoRedRedPath(Join(inner, c1)) == NoRedRedPath(Join(inner, c2))
    ensures ParentColor(Join(inner, c1)) == ParentColor(Join(inner, c2))
    ensures Join(inner, c1) != Top && Join(inner, c2) != Top
  {
    JoinSameHeights(inner, c1, c2, h);
    JoinSameReds(inner, c1, c2);
  }

  lemma {:induction false} JoinSameHeights<N>(inner: Path<N>, c1: Path<N>, c2: Path<N>, h: nat)
    requires c1.ViaRight? && c2.ViaRight? && c2 == c1.(id := c2.id, val := c2.val)
    ensures BalancedPath(Join(inner, c1), h) == BalancedPath(Join(inner, c2), h)
  {
    match inner
    case Top =>
    case ViaLeft(up, _, _, k, _) => JoinSameHeights(up, c1, c2, h + Weight(k));
    case ViaRight(up, _, _, k, _) => JoinSameHeights(up, c1, c2, h + Weight(k));
  }

  lemma {:induction false} JoinSameReds<N>(inner: Path<N>, c1: Path<N>, c2: Path<N>)
    requires c1.ViaRight? && c2.ViaRight? && c2 == c1.(id := c2.id, val := c2.val)
    ensures NoRedRedPath(Join(inner, c1)) == NoRedRedPath(Join(inner, c2))
    ensures ParentColor(Join(inner, c1)) == ParentColor(Join(inner, c2))
    ensures Join(inner, c1) != Top && Join(inner, c2) != Top
  {
    match inner
    case Top =>
    case ViaLeft(up, _, _, k, _) => JoinSameReds(up, c1, c2);
    case ViaRight(up, _, _, k, _) => JoinSameReds(up, c1, c2);
  }

  lemma {:induction false} KeysSize<N>(t: Tree<N>)
    ensures |Keys(t)| == Size(t)
  {
    match t
    case Leaf =>
    case Node(_, _, _, l, r) => KeysSize(l); KeysSize(r);
  }

  function Pow2(n: nat): (p: nat)
    ensures p >= 1
  {
    if n == 0 then 1 else 2 * Pow2(n - 1)
  }

  lemma {:induction false} Pow2Monotone(a: nat, b: nat)
    requires a <= b
    ensures Pow2(a) <= Pow2(b)
  {
    if a < b { Pow2Monotone(a, b - 1); }
  }

  lemma {:induction false} Pow2Double(a: nat)
    ensures Pow2(2 * a) == Pow2(a) * Pow2(a)
  {
    if a > 0 {
      Pow2Double(a - 1);
      assert Pow2(2 * a) == 2 * (2 * Pow2(2 * (a - 1)));
    }
  }

  lemma {:induction false} BlackHeightBound<N>(t: Tree<N>)
    requires Balanced(t)
    ensures Pow2(BlackHeight(t)) <= Size(t) + 1
  {
    match t
    case Leaf =>
    case Node(_, _, k, l, r) => BlackHeightBound(l); BlackHeightBound(r);
  }

  /** Going down `c` from a red-black root meets at most two nodes per black one, plus a red one. */
  lemma {:induction false} DepthBound<N>(c: Path<N>, h: nat)
    requires BalancedPath(c, h) && NoRedRedPath(c)
    ensures c != Top ==> Depth(c) + 2 * h + (if ParentColor(c) == RED then 0 else 1)
                         <= 2 * (h + BlacksOn(c))
  {
    match c
    case Top =>
    case ViaLeft(up, _, _, k, _) => DepthBound(up, h + Weight(k));
    case ViaRight(up, _, _, k, _) => DepthBound(up, h + Weight(k));
  }

  function BlacksOn<N>(c: Path<N>): nat {
    match c
    case Top => 0
    case ViaLeft(up, _, _, k, _) => Weight(k) + BlacksOn(up)
    case ViaRight(up, _, _, k, _) => Weight(k) + BlacksOn(up)
  }

  lemma {:induction false} PlugBlackHeight<N>(c: Path<N>, t: Tree<N>)
    requires Balanced(Plug(c, t))
    ensures BlackHeight(Plug(c, t)) == BlackHeight(t) + BlacksOn(c)
  {
    match c
    case Top =>
    case ViaLeft(up, id, v, k, s) =>
      PlugBlackHeight(up, Node(id, v, k, t, s));
    case ViaRight(up, id, v, k, s) =>
      PlugBlackHeight(up, Node(id, v, k, s, t));
      PlugBalanced(up, Node(id, v, k, s, t));
  }

  /** Following a path into a red-black tree of n keys takes at most 2 * log2(n + 1)
      comparisons, the one with the key at its end included. */
  lemma {:induction false} PathLength<N>(c: Path<N>, t: Tree<N>)
    requires RedBlack(Plug(c, t))
    ensures Pow2(if t.Node? then Depth(c) + 1 else Depth(c)) <= Squared(|Keys(Plug(c, t))| + 1)
  {
    var whole := Plug(c, t);
    var b, n := BlackHeight(whole), |Keys(whole)| + 1;
    KeysSize(whole);
    PlugBalanced(c, t);
    PlugNoRedRed(c, t);
    DepthBound(c, BlackHeight(t));
    PlugBlackHeight(c, t);
    BlackHeightBound(whole);
    var d := if t.Node? then Depth(c) + 1 else Depth(c);
    assert d <= 2 * b by {
      if t.Node? && c == Top {
        assert BlackHeight(t) >= 1;
      } else if t.Node? && ColorOf(t) == BLACK {
        assert BlackHeight(t) >= 1;
      }
    }
    Pow2Monotone(d, 2 * b);
    Pow2Double(b);
    Squares(Pow2(b), n);
  }

  function Squared(n: nat): nat { n * n }

  lemma Squares(a: nat, b: nat)
    requires a <= b
    ensures a * a <= Squared(b)
  {
    assert a * a <= a * b <= b * b;
  }

  // ----- searching -----

  lemma SortedParts(a: seq<int>, v: int, b: seq<int>)
    requires Sorted(a + [v] + b)
    ensures forall x :: x in a ==> x <= v
    ensures forall x :: x in b ==> v <= x
  {
    var s := a + [v] + b;
    assert s[|a|] == v;
    forall x | x in a ensures x <= v {
      var i :| 0 <= i < |a| && a[i] == x;
      assert s[i] == x;
    }
    forall x | x in b ensures v <= x {
      var i :| 0 <= i < |b| && b[i] == x;
      assert s[|a| + 1 + i] == x;
    }
  }

  /** In a sorted tree everything left of the node in focus is at most its key, and
      everything right of it at least its key. */
  lemma FocusSorted<N>(c: Path<N>, t: Tree<N>)
    requires Sorted(Keys(Plug(c, t))) && t.Node?
    ensures forall x :: x in Before(c) || x in Keys(t.left) ==> x <= t.val
    ensures forall x :: x in Keys(t.right) || x in After(c) ==> t.val <= x
  {
    PlugKeys(c, t);
    var a, b := Before(c) + Keys(t.left), Keys(t.right) + After(c);
    Regroup(Before(c), Keys(t.left), t.val, Keys(t.right), After(c));
    SortedParts(a, t.val, b);
    InJoin(Before(c), Keys(t.left));
    InJoin(Keys(t.right), After(c));
  }

  lemma Regroup(a: seq<int>, l: seq<int>, v: int, r: seq<int>, b: seq<int>)
    ensures a + (l + [v] + r) + b == (a + l) + [v] + (r + b)
  {
  }

  lemma InJoin(a: seq<int>, b: seq<int>)
    ensures forall x :: x in a || x in b ==> x in a + b
  {
  }

  /** The empty place at the end of `c` is where a descent looking for `val` arrives. */
  ghost predicate SlotFor<N>(c: Path<N>, val: int) {
    (forall k :: k in Before(c) ==> k <= val) && (forall k :: k in After(c) ==> val < k)
  }

  lemma SlotBelow<N>(c: Path<N>, t: Tree<N>, val: int)
    requires Sorted(Keys(Plug(c, t))) && t.Node? && SlotFor(c, val)
    ensures if val < t.val then SlotFor(ViaLeft(c, t.id, t.val, t.color, t.right), val)
            else SlotFor(ViaRight(c, t.id, t.val, t.color, t.left), val)
  {
    FocusSorted(c, t);
  }

  lemma SlotSide<N>(c: Path<N>, val: int)
    requires SlotFor(c, val)
    ensures c.ViaLeft? ==> val < c.val
    ensures c.ViaRight? ==> c.val <= val
  {
    assert c.ViaLeft? ==> c.val in After(c);
    assert c.ViaRight? ==> c.val in Before(c);
  }

  lemma SortedInsert(s: seq<int>, v: int, at: nat, s': seq<int>)
    requires Sorted(s) && Inserted(s, v, at, s')
    ensures Sorted(s')
  {
    forall i, j | 0 <= i < j < |s'| ensures s'[i] <= s'[j] {
      if i < at { assert s'[i] in s[..at]; }
      if j > at { assert s'[j] in s[at..]; }
    }
  }

  /** One occurrence more, one occurrence less. */
  lemma KeysAsBag(s: seq<int>, v: int, at: nat, s': seq<int>)
    ensures Inserted(s, v, at, s') ==> multiset(s') == multiset(s) + multiset{v}
    ensures Removed(s, v, at, s') ==> multiset(s') == multiset(s) - multiset{v} && multiset(s)[v] > 0
  {
    if Inserted(s, v, at, s') {
      assert s == s[..at] + s[at..];
    }
    if Removed(s, v, at, s') {
      assert s == s[..at] + [v] + s[at + 1..];
    }
  }

  lemma SortedRemove(s: seq<int>, v: int, at: nat, s': seq<int>)
    requires Sorted(s) && Removed(s, v, at, s')
    ensures Sorted(s')
  {
  }

  /** What hanging a red node at the end of an insertion path does. */
  lemma HangKeys<N>(c: Path<N>, t: Tree<N>, n: Tree<N>) returns (at: nat)
    requires t == Plug(c, Leaf) && Sorted(Keys(t)) && n.Node? && Keys(n) == [n.val]
    requires SlotFor(c, n.val)
    ensures Inserted(Keys(t), n.val, at, Keys(Plug(c, n))) && Sorted(Keys(Plug(c, n)))
  {
    PlugKeys(c, Leaf);
    PlugKeys(c, n);
    at := |Before(c)|;
    assert Keys(t) == Before(c) + After(c);
    InsertedBetween(Before(c), After(c), n.val);
    SortedInsert(Keys(t), n.val, at, Keys(Plug(c, n)));
  }

  lemma HangRedAt<N>(c: Path<N>, z: N, v: int)
    requires RedBlack(Plug(c, Leaf))
    ensures var n := Node(z, v, RED, Leaf, Leaf);
      Keys(n) == [v] && RedAt(c, n) && Ids(Plug(c, n)) == Ids(Plug(c, Leaf)) + {z}
  {
    var n := Node(z, v, RED, Leaf, Leaf);
    PlugIds(c, Leaf);
    PlugIds(c, n);
    PlugBalanced(c, Leaf);
    PlugNoRedRed(c, Leaf);
  }

  lemma InsertedBetween(a: seq<int>, b: seq<int>, v: int)
    requires forall x :: x in a ==> x <= v
    requires forall x :: x in b ==> v < x
    ensures Inserted(a + b, v, |a|, a + [v] + b)
  {
    assert (a + b)[..|a|] == a && (a + b)[|a|..] == b;
  }

  // ----- the rounds of the insertion loop -----

  /** Case 1, the uncle is red: the grandparent with its colour pushed down. */
  function PushedDown<N>(c: Path<N>, t: Tree<N>): Tree<N>
    requires c != Top && c.up != Top && c.up.sibling.Node?
  {
    Painted(Up(WithSibling(c.up, Painted(c.up.sibling, BLACK)), Painted(Up(c, t), BLACK)), RED)
  }

  lemma PushedDownRedAt<N>(c: Path<N>, t: Tree<N>)
    requires RedAt(c, t) && c != Top && c.color == RED && ColorOf(c.up.sibling) == RED
    ensures c.up != Top && RedAt(c.up.up, PushedDown(c, t)) && Depth(c.up.up) < Depth(c)
    ensures SameContents(Plug(c, t), Plug(c.up.up, PushedDown(c, t)))
  {
    assert BalancedPath(c.up, BlackHeight(t) + Weight(c.color)) && NoRedRedPath(c.up);
    var g := c.up;
    var p, p' := Up(c, t), Painted(Up(c, t), BLACK);
    var u' := Painted(g.sibling, BLACK);
    assert SameContents(p, p') && Balanced(p') && NoRedRed(p');
    assert SameContents(g.sibling, u') && Balanced(u') && NoRedRed(u');
    assert SameContents(Up(g, p), PushedDown(c, t));
    PlugSameContents(g.up, Up(g, p), PushedDown(c, t));
  }

  function RotatedLeft<N>(t: Tree<N>): Tree<N>
    requires t.Node? && t.right.Node?
  {
    var y := t.right;
    Node(y.id, y.val, y.color, Node(t.id, t.val, t.color, t.left, y.left), y.right)
  }

  function RotatedRight<N>(t: Tree<N>): Tree<N>
    requires t.Node? && t.left.Node?
  {
    var y := t.left;
    Node(y.id, y.val, y.color, y.left, Node(t.id, t.val, t.color, y.right, t.right))
  }

  lemma LeftRotationIds<N>(t: Tree<N>)
    requires t.Node? && t.right.Node? && Distinct(t)
    ensures Distinct(RotatedLeft(t)) && Ids(RotatedLeft(t)) == Ids(t)
  {
    var y := t.right;
    var x := Node(t.id, t.val, t.color, t.left, y.left);
    assert Ids(t) == {t.id} + Ids(t.left) + Ids(y) && Ids(y) == {y.id} + Ids(y.left) + Ids(y.right);
    assert Ids(x) == {t.id} + Ids(t.left) + Ids(y.left) && Distinct(y) && Distinct(x);
  }

  lemma RightRotationIds<N>(t: Tree<N>)
    requires t.Node? && t.left.Node? && Distinct(t)
    ensures Distinct(RotatedRight(t)) && Ids(RotatedRight(t)) == Ids(t)
  {
    var y := t.left;
    var x := Node(t.id, t.val, t.color, y.right, t.right);
    assert Ids(t) == {t.id} + Ids(t.right) + Ids(y) && Ids(y) == {y.id} + Ids(y.right) + Ids(y.left);
    assert Ids(x) == {t.id} + Ids(t.right) + Ids(y.right) && Distinct(y) && Distinct(x);
  }

  /** A rotation keeps the keys in order. */
  lemma LeftRotationKeys<N>(t: Tree<N>)
    requires t.Node? && t.right.Node?
    ensures SameContents(t, RotatedLeft(t))
  {
    var y := t.right;
    var x := Node(t.id, t.val, t.color, t.left, y.left);
    var a, b, c := Keys(t.left), Keys(y.left), Keys(y.right);
    assert Keys(x) == a + [t.val] + b;
    assert Keys(y) == b + [y.val] + c;
    assert (a + [t.val] + b) + [y.val] + c == a + [t.val] + (b + [y.val] + c);
  }

  lemma RightRotationKeys<N>(t: Tree<N>)
    requires t.Node? && t.left.Node?
    ensures SameContents(t, RotatedRight(t))
  {
    var y := t.left;
    var x := Node(t.id, t.val, t.color, y.right, t.right);
    var a, b, c := Keys(y.left), Keys(y.right), Keys(t.right);
    assert Keys(x) == b + [t.val] + c;
    assert Keys(y) == a + [y.val] + b;
    assert (a + [y.val] + b) + [t.val] + c == a + [y.val] + (b + [t.val] + c);
  }

  /** Case 2, the node in focus is an inner grandchild: after rotating its parent the
      focus is on the former parent, now an outer grandchild. */
  lemma InnerToOuterLeft<N>(c: Path<N>, t: Tree<N>)
    requires RedAt(c, t) && c.ViaRight? && c.color == RED && c.up.ViaLeft?
    ensures var q := RotatedLeft(Up(c, t));
      var c' := ViaLeft(c.up, q.id, q.val, q.color, q.right);
      RedAt(c', q.left) && q.color == RED && Depth(c') == Depth(c) && SameContents(Plug(c, t), Plug(c', q.left))
  {
    LeftRotationKeys(Up(c, t));
    PlugSameContents(c.up, Up(c, t), RotatedLeft(Up(c, t)));
  }

  lemma InnerToOuterRight<N>(c: Path<N>, t: Tree<N>)
    requires RedAt(c, t) && c.ViaLeft? && c.color == RED && c.up.ViaRight?
    ensures var q := RotatedRight(Up(c, t));
      var c' := ViaRight(c.up, q.id, q.val, q.color, q.left);
      RedAt(c', q.right) && q.color == RED && Depth(c') == Depth(c) && SameContents(Plug(c, t), Plug(c', q.right))
  {
    RightRotationKeys(Up(c, t));
    PlugSameContents(c.up, Up(c, t), RotatedRight(Up(c, t)));
  }

  /** The grandparent, red, over the parent, black: what case 3 rotates. */
  function Outer<N>(c: Path<N>, t: Tree<N>): Tree<N>
    requires c != Top && c.up != Top
  {
    Painted(Up(c.up, Painted(Up(c, t), BLACK)), RED)
  }

  lemma OuterContents<N>(c: Path<N>, t: Tree<N>)
    requires c != Top && c.up != Top
    ensures SameContents(Up(c.up, Up(c, t)), Outer(c, t))
  {
    assert SameContents(Up(c, t), Painted(Up(c, t), BLACK));
  }

  /** Where the node in focus hangs when its parent has come up. */
  function FinishedLeft<N>(c: Path<N>, t: Tree<N>): Path<N>
    requires c.ViaLeft? && c.up.ViaLeft?
  {
    ViaLeft(c.up.up, c.id, c.val, BLACK, RotatedRight(Outer(c, t)).right)
  }

  /** Case 3: the rotation at the grandparent ends the loop. */
  lemma OuterRight<N>(c: Path<N>, t: Tree<N>)
    requires RedAt(c, t) && c.ViaLeft? && c.color == RED && c.up.ViaLeft? && ColorOf(c.up.sibling) == BLACK
    ensures var c' := FinishedLeft(c, t);
      RotatedRight(Outer(c, t)) == Up(c', t) && RedAt(c', t) && c' != Top && Depth(c') < Depth(c) &&
      SameContents(Plug(c, t), Plug(c', t))
  {
    assert BalancedPath(c.up, BlackHeight(t) + Weight(c.color)) && NoRedRedPath(c.up);
    OuterContents(c, t);
    RightRotationKeys(Outer(c, t));
    PlugSameContents(c.up.up, Up(c.up, Up(c, t)), RotatedRight(Outer(c, t)));
  }

  /** Where the node in focus hangs when its parent has come up. */
  function FinishedRight<N>(c: Path<N>, t: Tree<N>): Path<N>
    requires c.ViaRight? && c.up.ViaRight?
  {
    ViaRight(c.up.up, c.id, c.val, BLACK, RotatedLeft(Outer(c, t)).left)
  }

  lemma OuterLeft<N>(c: Path<N>, t: Tree<N>)
    requires RedAt(c, t) && c.ViaRight? && c.color == RED && c.up.ViaRight? && ColorOf(c.up.sibling) == BLACK
    ensures var c' := FinishedRight(c, t);
      RotatedLeft(Outer(c, t)) == Up(c', t) && RedAt(c', t) && c' != Top && Depth(c') < Depth(c) &&
      SameContents(Plug(c, t), Plug(c', t))
  {
    assert BalancedPath(c.up, BlackHeight(t) + Weight(c.color)) && NoRedRedPath(c.up);
    OuterContents(c, t);
    LeftRotationKeys(Outer(c, t));
    PlugSameContents(c.up.up, Up(c.up, Up(c, t)), RotatedLeft(Outer(c, t)));
  }

  // ----- the rounds of the deletion loop -----

  lemma {:induction false} PlugLeaf<N>(c: Path<N>, t: Tree<N>)
    ensures Plug(c, t) == Leaf <==> c == Top && t == Leaf
  {
    match c
    case Top =>
    case ViaLeft(up, id, v, k, s) => PlugLeaf(up, Node(id, v, k, t, s));
    case ViaRight(up, id, v, k, s) => PlugLeaf(up, Node(id, v, k, s, t));
  }

  lemma SiblingIsNode<N>(c: Path<N>, t: Tree<N>)
    requires Short(c, t) && c != Top
    ensures c.sibling.Node?
  {
  }

  /** When the loop ends, at the root or at a red node, painting that node black is enough. */
  lemma BlackenedDone<N>(c: Path<N>, t: Tree<N>)
    requires Short(c, t) && (c == Top || ColorOf(t) == RED)
    ensures RedBlack(Plug(c, Blackened(t))) && SameContents(Plug(c, t), Plug(c, Blackened(t)))
  {
    var t' := Blackened(t);
    assert SameContents(t, t') && Balanced(t');
    PlugSameContents(c, t, t');
    PlugBalanced(c, t');
    PlugNoRedRed(c, t');
  }

  /** Case 2: a red sibling with black children makes both sides equally short. */
  lemma SiblingReddenedShort<N>(c: Path<N>, t: Tree<N>)
    requires Short(c, t) && ColorOf(t) == BLACK && c != Top && c.sibling.Node? && c.sibling.color == BLACK
    requires ColorOf(c.sibling.left) == BLACK && ColorOf(c.sibling.right) == BLACK
    ensures var t' := Up(WithSibling(c, Painted(c.sibling, RED)), t);
      Short(c.up, t') && SameContents(Plug(c, t), Plug(c.up, t'))
  {
    var w := c.sibling;
    assert SameContents(w, Painted(w, RED));
    PlugSameContents(c.up, Up(c, t), Up(WithSibling(c, Painted(w, RED)), t));
  }

  // ----- what taking out a node leaves -----

  /** `l + [v] + r` between `p` and `q` loses its `v`. */
  lemma RemovedBetween(p: seq<int>, l: seq<int>, v: int, r: seq<int>, q: seq<int>)
    ensures Removed(p + (l + [v] + r) + q, v, |p| + |l|, p + (l + r) + q)
  {
    var s := p + (l + [v] + r) + q;
    assert s[..|p| + |l|] == p + l;
    assert s[|p| + |l| + 1..] == r + q;
    assert (p + l) + (r + q) == p + (l + r) + q;
  }

  lemma RemovedWithin(s: seq<int>, k: seq<int>, s': seq<int>, k': seq<int>,
                      p: seq<int>, l: seq<int>, v: int, r: seq<int>, q: seq<int>)
    requires s == p + k + q && k == l + [v] + r
    requires s' == p + k' + q && k' == l + r
    ensures Removed(s, v, |p| + |l|, s')
  {
    RemovedBetween(p, l, v, r, q);
  }

  /** A key that is missing in the subtree in focus is missing in the whole. */
  lemma {:induction false} RemovedInPlace<N>(c: Path<N>, t: Tree<N>, t': Tree<N>, l: seq<int>, v: int, r: seq<int>)
    returns (at: nat)
    requires Keys(t) == l + [v] + r && Keys(t') == l + r
    ensures Removed(Keys(Plug(c, t)), v, at, Keys(Plug(c, t')))
  {
    PlugKeys(c, t);
    PlugKeys(c, t');
    at := |Before(c)| + |l|;
    RemovedWithin(Keys(Plug(c, t)), Keys(t), Keys(Plug(c, t')), Keys(t'), Before(c), l, v, r, After(c));
  }

  lemma {:induction false} SpliceColors<N>(c: Path<N>, t: Tree<N>, sub: Tree<N>)
    requires RedBlack(Plug(c, t)) && t.Node?
    requires (sub == t.right && t.left.Leaf?) || (sub == t.left && t.right.Leaf?)
    ensures t.color == BLACK ==> Short(c, sub)
    ensures t.color == RED ==> RedBlack(Plug(c, sub))
  {
    PlugBalanced(c, t);
    PlugNoRedRed(c, t);
    assert BlackHeight(t) == BlackHeight(sub) + Weight(t.color);
    if t.color == RED {
      PlugBalanced(c, sub);
      PlugNoRedRed(c, sub);
    }
  }

  /** A node with at most one child gives way to that child, and its place is short
      if it was black. */
  lemma SpliceShape<N>(c: Path<N>, t: Tree<N>, sub: Tree<N>) returns (at: nat)
    requires RedBlack(Plug(c, t)) && Distinct(Plug(c, t)) && t.Node?
    requires (sub == t.right && t.left.Leaf?) || (sub == t.left && t.right.Leaf?)
    ensures t.color == BLACK ==> Short(c, sub)
    ensures t.color == RED ==> RedBlack(Plug(c, sub))
    ensures Removed(Keys(Plug(c, t)), t.val, at, Keys(Plug(c, sub)))
    ensures Ids(Plug(c, t)) == Ids(Plug(c, sub)) + {t.id} && t.id !in Ids(Plug(c, sub))
  {
    SpliceColors(c, t, sub);
    at := SpliceKeys(c, t, sub);
    PlugIds(c, t); PlugIds(c, sub);
    PlugDistinct(c, t);
  }

  lemma {:induction false} SpliceKeys<N>(c: Path<N>, t: Tree<N>, sub: Tree<N>) returns (at: nat)
    requires t.Node?
    requires (sub == t.right && t.left.Leaf?) || (sub == t.left && t.right.Leaf?)
    ensures Removed(Keys(Plug(c, t)), t.val, at, Keys(Plug(c, sub)))
  {
    OnlyChildKeys(t, sub);
    at := RemovedInPlace(c, t, sub, Keys(t.left), t.val, Keys(t.right));
  }

  lemma {:induction false} OnlyChildKeys<N>(t: Tree<N>, sub: Tree<N>)
    requires t.Node?
    requires (sub == t.right && t.left.Leaf?) || (sub == t.left && t.right.Leaf?)
    ensures Keys(sub) == Keys(t.left) + Keys(t.right)
    ensures Keys(t) == Keys(t.left) + [t.val] + Keys(t.right)
  {
  }

  lemma {:induction false} PlugDistinct<N>(c: Path<N>, t: Tree<N>)
    ensures Distinct(Plug(c, t)) <==> Distinct(t) && DistinctPath(c) && PathIds(c) !! Ids(t)
  {
    match c
    case Top =>
    case ViaLeft(up, id, v, k, s) => PlugDistinct(up, Node(id, v, k, t, s));
    case ViaRight(up, id, v, k, s) => PlugDistinct(up, Node(id, v, k, s, t));
  }

  /** The path to the successor's place once the successor, the leftmost node `s` of the
      right subtree, has taken the place of the root of `t`. */
  function SuccessorPath<N>(c: Path<N>, t: Tree<N>, inner: Path<N>, s: Tree<N>): Path<N>
    requires t.Node? && s.Node?
  {
    Join(inner, ViaRight(c, s.id, s.val, t.color, t.left))
  }

  lemma LeftmostKeys<N>(inner: Path<N>, s: Tree<N>)
    requires s.Node? && s.left == Leaf && Before(inner) == []
    ensures Keys(Plug(inner, s)) == [s.val] + Keys(Plug(inner, s.right))
  {
    PlugKeys(inner, s);
    PlugKeys(inner, s.right);
    FirstKey(Before(inner), Keys(s.left), s.val, Keys(s.right), After(inner));
  }

  lemma FirstKey(b: seq<int>, l: seq<int>, v: int, k: seq<int>, a: seq<int>)
    requires b == [] && l == []
    ensures b + (l + [v] + k) + a == [v] + (b + k + a)
  {
  }

  lemma KeysRegroup(l: seq<int>, v: int, k: seq<int>)
    ensures l + [v] + k == l + ([v] + k)
  {
  }

  /** The subtree with the successor in the place of its root. */
  lemma {:induction false} SuccessorTree<N>(c: Path<N>, t: Tree<N>, inner: Path<N>, s: Tree<N>) returns (t': Tree<N>)
    requires t.Node? && s.Node? && s.left == Leaf && t.right == Plug(inner, s) && Before(inner) == []
    ensures Plug(SuccessorPath(c, t, inner, s), s.right) == Plug(c, t')
    ensures Keys(t') == Keys(t.left) + Keys(t.right) && Keys(t) == Keys(t.left) + [t.val] + Keys(t.right)
  {
    var rest := Plug(inner, s.right);
    t' := Node(s.id, s.val, t.color, t.left, rest);
    JoinPlug(inner, ViaRight(c, s.id, s.val, t.color, t.left), s.right);
    LeftmostKeys(inner, s);
    KeysRegroup(Keys(t.left), s.val, Keys(rest));
  }

  lemma {:induction false} SuccessorKeys<N>(c: Path<N>, t: Tree<N>, inner: Path<N>, s: Tree<N>) returns (at: nat)
    requires t.Node? && s.Node? && s.left == Leaf && t.right == Plug(inner, s) && Before(inner) == []
    ensures Removed(Keys(Plug(c, t)), t.val, at, Keys(Plug(SuccessorPath(c, t, inner, s), s.right)))
  {
    var t' := SuccessorTree(c, t, inner, s);
    at := RemovedInPlace(c, t, t', Keys(t.left), t.val, Keys(t.right));
  }

  lemma SuccessorColors<N>(c: Path<N>, t: Tree<N>, inner: Path<N>, s: Tree<N>)
    requires t.Node? && s.Node? && s.left == Leaf && t.right == Plug(inner, s)
    requires RedBlack(Plug(c, t))
    ensures var c' := SuccessorPath(c, t, inner, s);
      (s.color == BLACK ==> Short(c', s.right)) && (s.color == RED ==> RedBlack(Plug(c', s.right)))
  {
    var c1, c2 := ViaRight(c, t.id, t.val, t.color, t.left), ViaRight(c, s.id, s.val, t.color, t.left);
    JoinPlug(inner, c1, s);
    var c', p := Join(inner, c2), Join(inner, c1);
    PlugBalanced(p, s);
    PlugNoRedRed(p, s);
    JoinSameColors(inner, c1, c2, BlackHeight(s));
    PlugBalanced(c', s.right);
    PlugNoRedRed(c', s.right);
  }

  lemma SuccessorIds<N>(c: Path<N>, t: Tree<N>, inner: Path<N>, s: Tree<N>)
    requires t.Node? && s.Node? && s.left == Leaf && t.right == Plug(inner, s)
    requires Distinct(Plug(c, t))
    ensures var t' := Plug(SuccessorPath(c, t, inner, s), s.right);
      Ids(Plug(c, t)) == Ids(t') + {t.id} && t.id !in Ids(t') && Distinct(t')
  {
    var rest := Plug(inner, s.right);
    var t' := Node(s.id, s.val, t.color, t.left, rest);
    JoinPlug(inner, ViaRight(c, s.id, s.val, t.color, t.left), s.right);
    PlugDistinct(c, t);
    assert Distinct(t.right);
    PlugDistinct(inner, s);
    PlugDistinct(inner, s.right);
    PlugIds(inner, s);
    PlugIds(inner, s.right);
    assert Ids(t.right) == Ids(rest) + {s.id} && s.id !in Ids(rest);
    PlugIds(c, t);
    PlugIds(c, t');
    PlugDistinct(c, t');
  }

  /** Case 1 for a left child in focus: its red sibling comes up. */
  function SiblingUpLeft<N>(c: Path<N>, t: Tree<N>): (r: Tree<N>)
    requires c.ViaLeft? && c.sibling.Node?
    ensures r.Node? && r.right.Node?
  {
    Painted(Up(WithSibling(c, Painted(c.sibling, BLACK)), t), RED)
  }

  /** Where the node in focus hangs then: the sibling's inner child is its new sibling. */
  function RaisedLeft<N>(c: Path<N>, t: Tree<N>): Path<N>
    requires c.ViaLeft? && c.sibling.Node?
  {
    var q := RotatedLeft(SiblingUpLeft(c, t));
    ViaLeft(ViaLeft(c.up, q.id, q.val, q.color, q.right), c.id, c.val, RED, c.sibling.left)
  }

  lemma SiblingUpLeftShort<N>(c: Path<N>, t: Tree<N>)
    requires Short(c, t) && c.ViaLeft? && ColorOf(c.sibling) == RED
    ensures var c' := RaisedLeft(c, t);
      RotatedLeft(SiblingUpLeft(c, t)).left == Up(c', t) && Short(c', t) &&
      c'.sibling.Node? && c'.sibling.color == BLACK &&
      Depth(c') == Depth(c) + 1 && SameContents(Plug(c, t), Plug(c', t))
  {
    var w := c.sibling;
    assert SameContents(w, Painted(w, BLACK));
    assert SameContents(Up(c, t), SiblingUpLeft(c, t));
    LeftRotationKeys(SiblingUpLeft(c, t));
    PlugSameContents(c.up, Up(c, t), RotatedLeft(SiblingUpLeft(c, t)));
  }

  /** Case 3: the sibling's red inner child comes up beside the focus. */
  function SiblingTurnedLeft<N>(w: Tree<N>): (r: Tree<N>)
    requires w.Node? && w.left.Node?
    ensures r.Node? && r.left.Node?
  {
    w.(color := RED, left := Painted(w.left, BLACK))
  }

  lemma SiblingTurnedLeftShort<N>(c: Path<N>, t: Tree<N>)
    requires Short(c, t) && c.ViaLeft? && c.sibling.Node? && c.sibling.color == BLACK
    requires ColorOf(c.sibling.right) == BLACK && ColorOf(c.sibling.left) == RED
    ensures var w' := RotatedRight(SiblingTurnedLeft(c.sibling));
      var c' := WithSibling(c, w');
      Short(c', t) && w'.color == BLACK && ColorOf(w'.right) == RED &&
      SameContents(Plug(c, t), Plug(c', t))
  {
    var w := c.sibling;
    assert Balanced(w.left) && NoRedRed(w.left);
    assert SameContents(w.left, Painted(w.left, BLACK));
    assert SameContents(w, SiblingTurnedLeft(w));
    RightRotationKeys(SiblingTurnedLeft(w));
    PlugSameContents(c.up, Up(c, t), Up(WithSibling(c, RotatedRight(SiblingTurnedLeft(w))), t));
  }

  /** Case 4: rotating the sibling up, in the parent's colour, pays the missing black. */
  function SiblingPaysLeft<N>(c: Path<N>, t: Tree<N>): (r: Tree<N>)
    requires c.ViaLeft? && c.sibling.Node? && c.sibling.right.Node?
    ensures r.Node? && r.right.Node?
  {
    var w := c.sibling;
    Painted(Up(WithSibling(c, w.(color := c.color, right := Painted(w.right, BLACK))), t), BLACK)
  }

  lemma SiblingPaysLeftDone<N>(c: Path<N>, t: Tree<N>)
    requires Short(c, t) && ColorOf(t) == BLACK && c.ViaLeft? && c.sibling.Node? && c.sibling.color == BLACK
    requires ColorOf(c.sibling.right) == RED
    ensures var whole := Plug(c.up, RotatedLeft(SiblingPaysLeft(c, t)));
      RedBlack(whole) && whole.Node? && SameContents(Plug(c, t), whole)
  {
    var w := c.sibling;
    var q := SiblingPaysLeft(c, t);
    assert Balanced(w.right) && NoRedRed(w.right);
    assert SameContents(w.right, Painted(w.right, BLACK));
    assert SameContents(w, q.right);
    assert SameContents(Up(c, t), q);
    LeftRotationKeys(q);
    PlugSameContents(c.up, Up(c, t), RotatedLeft(q));
    var r := RotatedLeft(q);
    assert Balanced(r.left) && Balanced(r.right) && NoRedRed(r.left) && NoRedRed(r.right);
    PlugBalanced(c.up, r);
    PlugNoRedRed(c.up, r);
    PlugLeaf(c.up, r);
  }

  /** Case 1 for a right child in focus: its red sibling comes up. */
  function SiblingUpRight<N>(c: Path<N>, t: Tree<N>): (r: Tree<N>)
    requires c.ViaRight? && c.sibling.Node?
    ensures r.Node? && r.left.Node?
  {
    Painted(Up(WithSibling(c, Painted(c.sibling, BLACK)), t), RED)
  }

  /** Where the node in focus hangs then: the sibling's inner child is its new sibling. */
  function RaisedRight<N>(c: Path<N>, t: Tree<N>): Path<N>
    requires c.ViaRight? && c.sibling.Node?
  {
    var q := RotatedRight(SiblingUpRight(c, t));
    ViaRight(ViaRight(c.up, q.id, q.val, q.color, q.left), c.id, c.val, RED, c.sibling.right)
  }

  lemma SiblingUpRightShort<N>(c: Path<N>, t: Tree<N>)
    requires Short(c, t) && c.ViaRight? && ColorOf(c.sibling) == RED
    ensures var c' := RaisedRight(c, t);
      RotatedRight(SiblingUpRight(c, t)).right == Up(c', t) && Short(c', t) &&
      c'.sibling.Node? && c'.sibling.color == BLACK &&
      Depth(c') == Depth(c) + 1 && SameContents(Plug(c, t), Plug(c', t))
  {
    var w := c.sibling;
    assert SameContents(w, Painted(w, BLACK));
    assert SameContents(Up(c, t), SiblingUpRight(c, t));
    RightRotationKeys(SiblingUpRight(c, t));
    PlugSameContents(c.up, Up(c, t), RotatedRight(SiblingUpRight(c, t)));
  }

  /** Case 3: the sibling's red inner child comes up beside the focus. */
  function SiblingTurnedRight<N>(w: Tree<N>): (r: Tree<N>)
    requires w.Node? && w.right.Node?
    ensures r.Node? && r.right.Node?
  {
    w.(color := RED, right := Painted(w.right, BLACK))
  }

  lemma SiblingTurnedRightShort<N>(c: Path<N>, t: Tree<N>)
    requires Short(c, t) && c.ViaRight? && c.sibling.Node? && c.sibling.color == BLACK
    requires ColorOf(c.sibling.left) == BLACK && ColorOf(c.sibling.right) == RED
    ensures var w' := RotatedLeft(SiblingTurnedRight(c.sibling));
      var c' := WithSibling(c, w');
      Short(c', t) && w'.color == BLACK && ColorOf(w'.left) == RED &&
      SameContents(Plug(c, t), Plug(c', t))
  {
    var w := c.sibling;
    assert Balanced(w.right) && NoRedRed(w.right);
    assert SameContents(w.right, Painted(w.right, BLACK));
    assert SameContents(w, SiblingTurnedRight(w));
    LeftRotationKeys(SiblingTurnedRight(w));
    PlugSameContents(c.up, Up(c, t), Up(WithSibling(c, RotatedLeft(SiblingTurnedRight(w))), t));
  }

  /** Case 4: rotating the sibling up, in the parent's colour, pays the missing black. */
  function SiblingPaysRight<N>(c: Path<N>, t: Tree<N>): (r: Tree<N>)
    requires c.ViaRight? && c.sibling.Node? && c.sibling.left.Node?
    ensures r.Node? && r.left.Node?
  {
    var w := c.sibling;
    Painted(Up(WithSibling(c, w.(color := c.color, left := Painted(w.left, BLACK))), t), BLACK)
  }

  lemma SiblingPaysRightDone<N>(c: Path<N>, t: Tree<N>)
    requires Short(c, t) && ColorOf(t) == BLACK && c.ViaRight? && c.sibling.Node? && c.sibling.color == BLACK
    requires ColorOf(c.sibling.left) == RED
    ensures var whole := Plug(c.up, RotatedRight(SiblingPaysRight(c, t)));
      RedBlack(whole) && whole.Node? && SameContents(Plug(c, t), whole)
  {
    var w := c.sibling;
    var q := SiblingPaysRight(c, t);
    assert Balanced(w.left) && NoRedRed(w.left);
    assert SameContents(w.left, Painted(w.left, BLACK));
    assert SameContents(w, q.left);
    assert SameContents(Up(c, t), q);
    RightRotationKeys(q);
    PlugSameContents(c.up, Up(c, t), RotatedRight(q));
    var r := RotatedRight(q);
    assert Balanced(r.right) && Balanced(r.left) && NoRedRed(r.right) && NoRedRed(r.left);
    PlugBalanced(c.up, r);
    PlugNoRedRed(c.up, r);
    PlugLeaf(c.up, r);
  }
}
