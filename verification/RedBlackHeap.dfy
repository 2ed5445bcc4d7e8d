/** Snapshots of the node objects, when a snapshot holds a given tree, and what the
    pointer rewritings of 6_section_7/4_redBlackTree.cpp do to the tree it holds. */
module RedBlackHeap {
  import opened RedBlackShape

  datatype Cell<N> = Cell(val: int, color: Color, left: N, right: N, parent: N)

  datatype Heap<N> = Heap(cells: map<N, Cell<N>>, root: N, nil: N)

  // ----- when a snapshot holds a tree -----

  /** `n`, whose parent field is `p`, is the root of `t`. */
  predicate Holds<N(==)>(h: Heap<N>, t: Tree<N>, n: N, p: N) {
    match t
    case Leaf => n == h.nil
    case Node(id, v, k, l, r) =>
      n == id && id != h.nil && id in h.cells &&
      h.cells[id].val == v && h.cells[id].color == k && h.cells[id].parent == p &&
      Holds(h, l, h.cells[id].left, id) && Holds(h, r, h.cells[id].right, id)
  }

  function Bottom<N>(h: Heap<N>, c: Path<N>): N {
    if c.Top? then h.nil else c.id
  }

  /** The nodes of `c` are linked as `c` says, with `n` hanging at the lower end. */
  predicate HoldsPath<N(==)>(h: Heap<N>, c: Path<N>, n: N) {
    match c
    case Top => h.root == n
    case ViaLeft(up, id, v, k, s) =>
      id != h.nil && id in h.cells &&
      h.cells[id].val == v && h.cells[id].color == k && h.cells[id].parent == Bottom(h, up) &&
      h.cells[id].left == n && Holds(h, s, h.cells[id].right, id) && HoldsPath(h, up, id)
    case ViaRight(up, id, v, k, s) =>
      id != h.nil && id in h.cells &&
      h.cells[id].val == v && h.cells[id].color == k && h.cells[id].parent == Bottom(h, up) &&
      h.cells[id].right == n && Holds(h, s, h.cells[id].left, id) && HoldsPath(h, up, id)
  }

  /** The snapshot holds `Plug(c, t)`, and `n` is the root of the part `t`. */
  predicate View<N(==)>(h: Heap<N>, c: Path<N>, t: Tree<N>, n: N) {
    && HoldsPath(h, c, n) && Holds(h, t, n, Bottom(h, c))
    && DistinctPath(c) && Distinct(t) && PathIds(c) !! Ids(t)
    && h.nil in h.cells && h.cells[h.nil].color == BLACK
  }

  // ----- single writes -----

  function SetLeft<N>(h: Heap<N>, n: N, v: N): Heap<N> requires n in h.cells {
    h.(cells := h.cells[n := h.cells[n].(left := v)])
  }

  function SetRight<N>(h: Heap<N>, n: N, v: N): Heap<N> requires n in h.cells {
    h.(cells := h.cells[n := h.cells[n].(right := v)])
  }

  function SetColor<N>(h: Heap<N>, n: N, k: Color): Heap<N> requires n in h.cells {
    h.(cells := h.cells[n := h.cells[n].(color := k)])
  }

  // ----- frames -----

  predicate Agree<N>(h: Heap<N>, h': Heap<N>, s: set<N>) {
    h'.nil == h.nil && forall n :: n in s && n in h.cells ==> n in h'.cells && h'.cells[n] == h.cells[n]
  }

  lemma {:induction false} HoldsFrame<N>(h: Heap<N>, h': Heap<N>, t: Tree<N>, n: N, p: N)
    requires Holds(h, t, n, p) && Agree(h, h', Ids(t))
    ensures Holds(h', t, n, p)
  {
    match t
    case Leaf =>
    case Node(id, v, k, l, r) =>
      HoldsFrame(h, h', l, h.cells[id].left, id);
      HoldsFrame(h, h', r, h.cells[id].right, id);
  }

  /** Writing the parent field of a subtree's root re-hangs the subtree. */
  lemma Rehang<N>(h: Heap<N>, h': Heap<N>, t: Tree<N>, n: N, p: N, p': N)
    requires Holds(h, t, n, p) && Distinct(t)
    requires t.Node? ==> n in h'.cells && h'.cells[n] == h.cells[n].(parent := p')
    requires Agree(h, h', Ids(t) - {n})
    ensures Holds(h', t, n, p')
  {
    match t
    case Leaf =>
    case Node(id, v, k, l, r) =>
      HoldsFrame(h, h', l, h.cells[id].left, id);
      HoldsFrame(h, h', r, h.cells[id].right, id);
  }

  lemma {:induction false} PathFrame<N>(h: Heap<N>, h': Heap<N>, c: Path<N>, n: N)
    requires HoldsPath(h, c, n) && Agree(h, h', PathIds(c)) && h'.root == h.root
    ensures HoldsPath(h', c, n)
  {
    match c
    case Top =>
    case ViaLeft(up, id, _, _, s) =>
      HoldsFrame(h, h', s, h.cells[id].right, id);
      PathFrame(h, h', up, id);
    case ViaRight(up, id, _, _, s) =>
      HoldsFrame(h, h', s, h.cells[id].left, id);
      PathFrame(h, h', up, id);
  }

  /** Redirecting the link at the lower end of the path: the root pointer, or the
      left or right field of the lowest node. */
  function Redirect<N(==)>(h: Heap<N>, c: Path<N>, n: N): Heap<N>
    requires c.Top? || c.id in h.cells
  {
    match c
    case Top => h.(root := n)
    case ViaLeft(_, id, _, _, _) => SetLeft(h, id, n)
    case ViaRight(_, id, _, _, _) => SetRight(h, id, n)
  }

  lemma RedirectPath<N>(h: Heap<N>, h': Heap<N>, c: Path<N>, n: N, n': N)
    requires HoldsPath(h, c, n) && DistinctPath(c)
    requires var g := Redirect(h, c, n'); Agree(g, h', PathIds(c)) && h'.root == g.root
    ensures HoldsPath(h', c, n')
  {
    match c
    case Top =>
    case ViaLeft(up, id, _, _, s) =>
      HoldsFrame(h, h', s, h.cells[id].right, id);
      PathFrame(h, h', up, id);
    case ViaRight(up, id, _, _, s) =>
      HoldsFrame(h, h', s, h.cells[id].left, id);
      PathFrame(h, h', up, id);
  }

  // ----- moving the focus -----

  /** The parent field at the focus, and the test `x == x->parent->left`, tell where
      the focus hangs. */
  lemma FocusSide<N>(h: Heap<N>, c: Path<N>, t: Tree<N>, n: N)
    requires View(h, c, t, n)
    ensures c == Top <==> h.root == n && (t.Node? || Plug(c, t) == Leaf)
    ensures t.Node? ==> (c == Top <==> h.cells[n].parent == h.nil)
    ensures c != Top ==> c.id in h.cells && h.root != h.nil && h.root !in Ids(t)
    ensures t.Node? && c.ViaLeft? ==> h.cells[c.id].left == n && h.cells[c.id].right != n
    ensures t.Node? && c.ViaRight? ==> h.cells[c.id].right == n && h.cells[c.id].left != n
  {
    RootOnPath(h, c, n);
    PlugLeaf(c, t);
  }

  lemma {:induction false} RootOnPath<N>(h: Heap<N>, c: Path<N>, n: N)
    requires HoldsPath(h, c, n)
    ensures c != Top ==> h.root in PathIds(c) && h.root != h.nil
  {
    match c
    case Top =>
    case ViaLeft(up, id, _, _, _) => RootOnPath(h, up, id);
    case ViaRight(up, id, _, _, _) => RootOnPath(h, up, id);
  }

  lemma ToLeft<N>(h: Heap<N>, c: Path<N>, t: Tree<N>, n: N)
    requires View(h, c, t, n) && t.Node?
    ensures View(h, ViaLeft(c, t.id, t.val, t.color, t.right), t.left, h.cells[n].left)
  {
  }

  lemma ToRight<N>(h: Heap<N>, c: Path<N>, t: Tree<N>, n: N)
    requires View(h, c, t, n) && t.Node?
    ensures View(h, ViaRight(c, t.id, t.val, t.color, t.left), t.right, h.cells[n].right)
  {
  }

  lemma ToParent<N>(h: Heap<N>, c: Path<N>, t: Tree<N>, n: N)
    requires View(h, c, t, n) && c != Top
    ensures View(h, c.up, Up(c, t), c.id)
  {
  }

  /** The parent field leads to a node, of the colour the path says. */
  lemma ToParentColor<N>(h: Heap<N>, c: Path<N>, t: Tree<N>, n: N)
    requires View(h, c, t, n) && t.Node?
    ensures n in h.cells && n != h.nil && h.cells[n].parent == Bottom(h, c) && Bottom(h, c) in h.cells
    ensures h.cells[Bottom(h, c)].color == ParentColor(c)
  {
    FocusSide(h, c, t, n);
  }

  /** The path to the sibling of a subtree `t` hanging below `c`. */
  function Across<N>(c: Path<N>, t: Tree<N>): Path<N>
    requires c != Top
  {
    match c
    case ViaLeft(up, id, v, k, _) => ViaRight(up, id, v, k, t)
    case ViaRight(up, id, v, k, _) => ViaLeft(up, id, v, k, t)
  }

  lemma ToSibling<N>(h: Heap<N>, c: Path<N>, t: Tree<N>, n: N)
    requires View(h, c, t, n) && c != Top
    ensures c.id in h.cells
    ensures c.ViaLeft? ==> View(h, Across(c, t), c.sibling, h.cells[c.id].right)
    ensures c.ViaRight? ==> View(h, Across(c, t), c.sibling, h.cells[c.id].left)
  {
    ToParent(h, c, t, n);
    if c.ViaLeft? {
      ToRight(h, c.up, Up(c, t), c.id);
    } else {
      ToLeft(h, c.up, Up(c, t), c.id);
    }
  }

  /** Root of `t` as the snapshot names it. */
  function RootId<N>(h: Heap<N>, t: Tree<N>): N {
    if t.Leaf? then h.nil else t.id
  }

  /** The focus can be moved all the way up ... */
  lemma {:induction false} ToTop<N>(h: Heap<N>, c: Path<N>, t: Tree<N>, n: N)
    requires View(h, c, t, n)
    ensures View(h, Top, Plug(c, t), h.root)
  {
    match c
    case Top =>
    case ViaLeft(up, id, v, k, s) => ToTop(h, up, Node(id, v, k, t, s), id);
    case ViaRight(up, id, v, k, s) => ToTop(h, up, Node(id, v, k, s, t), id);
  }

  /** ... and down along any path inside the subtree in focus. */
  lemma {:induction false} Descend<N>(h: Heap<N>, outer: Path<N>, inner: Path<N>, t: Tree<N>)
    requires View(h, outer, Plug(inner, t), RootId(h, Plug(inner, t)))
    ensures View(h, Join(inner, outer), t, RootId(h, t))
  {
    match inner
    case Top =>
    case ViaLeft(up, id, v, k, s) =>
      var parent := Node(id, v, k, t, s);
      Descend(h, outer, up, parent);
      ToLeft(h, Join(up, outer), parent, id);
    case ViaRight(up, id, v, k, s) =>
      var parent := Node(id, v, k, s, t);
      Descend(h, outer, up, parent);
      ToRight(h, Join(up, outer), parent, id);
  }

  lemma {:induction false} Ascend<N>(h: Heap<N>, outer: Path<N>, inner: Path<N>, t: Tree<N>)
    requires View(h, Join(inner, outer), t, RootId(h, t))
    ensures View(h, outer, Plug(inner, t), RootId(h, Plug(inner, t)))
  {
    match inner
    case Top =>
    case ViaLeft(up, id, v, k, s) => Ascend(h, outer, up, Node(id, v, k, t, s));
    case ViaRight(up, id, v, k, s) => Ascend(h, outer, up, Node(id, v, k, s, t));
  }

  // ----- recolouring -----

  lemma RecolorView<N>(h: Heap<N>, c: Path<N>, t: Tree<N>, n: N, k: Color)
    requires View(h, c, t, n) && t.Node?
    ensures View(SetColor(h, n, k), c, Painted(t, k), n)
  {
    var h' := SetColor(h, n, k);
    HoldsFrame(h, h', t.left, h.cells[n].left, n);
    HoldsFrame(h, h', t.right, h.cells[n].right, n);
    PathFrame(h, h', c, n);
  }

  /** Painting black whatever is in focus, `nil` included. */
  lemma BlackenView<N>(h: Heap<N>, c: Path<N>, t: Tree<N>, n: N)
    requires View(h, c, t, n)
    ensures n in h.cells && View(SetColor(h, n, BLACK), c, Blackened(t), n)
  {
    if t.Node? {
      RecolorView(h, c, t, n, BLACK);
    } else {
      assert SetColor(h, n, BLACK).cells == h.cells;
    }
  }

  // ----- rotations -----

  /** What a left rotation at `x` changes, field by field: `y` is the right child that
      comes up, `b` the subtree that changes sides. */
  predicate LeftRotated<N(==)>(h: Heap<N>, h': Heap<N>, c: Path<N>, x: N, y: N, b: N)
  {
    && x in h.cells && y in h.cells && b in h.cells && (c != Top ==> c.id in h.cells)
    && h'.cells.Keys == h.cells.Keys && h'.nil == h.nil
    && h'.cells[x] == h.cells[x].(right := b, parent := y)
    && h'.cells[y] == h.cells[y].(left := x, parent := Bottom(h, c))
    && (b != h.nil ==> h'.cells[b] == h.cells[b].(parent := x))
    && h'.root == Redirect(h, c, y).root
    && (c != Top ==> h'.cells[c.id] == Redirect(h, c, y).cells[c.id])
    && (forall n :: n in h.cells && n != x && n != y && (n == h.nil || n != b) && (c == Top || n != c.id) ==>
         h'.cells[n] == h.cells[n])
  }

  predicate RightRotated<N(==)>(h: Heap<N>, h': Heap<N>, c: Path<N>, x: N, y: N, b: N)
  {
    && x in h.cells && y in h.cells && b in h.cells && (c != Top ==> c.id in h.cells)
    && h'.cells.Keys == h.cells.Keys && h'.nil == h.nil
    && h'.cells[x] == h.cells[x].(left := b, parent := y)
    && h'.cells[y] == h.cells[y].(right := x, parent := Bottom(h, c))
    && (b != h.nil ==> h'.cells[b] == h.cells[b].(parent := x))
    && h'.root == Redirect(h, c, y).root
    && (c != Top ==> h'.cells[c.id] == Redirect(h, c, y).cells[c.id])
    && (forall n :: n in h.cells && n != x && n != y && (n == h.nil || n != b) && (c == Top || n != c.id) ==>
         h'.cells[n] == h.cells[n])
  }

  /** The nodes a left rotation at `x` under `c` touches are all there, and different. */
  predicate LeftRotatable<N(==)>(h: Heap<N>, c: Path<N>, x: N) {
    x in h.cells && x != h.nil && h.cells[x].right in h.cells && h.cells[x].parent == Bottom(h, c) &&
    var y := h.cells[x].right;
    var b := h.cells[y].left;
    x != y && y != h.nil && b in h.cells && b != x && b != y &&
    (c != Top ==> c.id in h.cells && c.id != h.nil && c.id != x && c.id != y && c.id != b) &&
    (c.ViaLeft? ==> h.cells[c.id].left == x) &&
    (c.ViaRight? ==> h.cells[c.id].left != x)
  }

  lemma LeftRotateNodes<N>(h: Heap<N>, c: Path<N>, t: Tree<N>, x: N)
    requires View(h, c, t, x) && t.Node? && t.right.Node?
    ensures LeftRotatable(h, c, x) && h.cells[x].right == t.right.id
    ensures h.cells[t.right.id].left == RootId(h, t.right.left)
  {
    FocusSide(h, c, t, x);
    var y := t.right.id;
    assert Holds(h, t.right, h.cells[x].right, x);
    assert Holds(h, t.right.left, h.cells[y].left, y);
    assert Ids(t.right) == {y} + Ids(t.right.left) + Ids(t.right.right);
    assert RootId(h, t.right.left) == h.cells[y].left;
    assert t.right.left.Node? ==> h.cells[y].left in Ids(t.right.left);
  }

  /** The nodes a right rotation at `x` under `c` touches are all there, and different. */
  predicate RightRotatable<N(==)>(h: Heap<N>, c: Path<N>, x: N) {
    x in h.cells && x != h.nil && h.cells[x].left in h.cells && h.cells[x].parent == Bottom(h, c) &&
    var y := h.cells[x].left;
    var b := h.cells[y].right;
    x != y && y != h.nil && b in h.cells && b != x && b != y &&
    (c != Top ==> c.id in h.cells && c.id != h.nil && c.id != x && c.id != y && c.id != b) &&
    (c.ViaRight? ==> h.cells[c.id].right == x) &&
    (c.ViaLeft? ==> h.cells[c.id].right != x)
  }

  lemma RightRotateNodes<N>(h: Heap<N>, c: Path<N>, t: Tree<N>, x: N)
    requires View(h, c, t, x) && t.Node? && t.left.Node?
    ensures RightRotatable(h, c, x) && h.cells[x].left == t.left.id
    ensures h.cells[t.left.id].right == RootId(h, t.left.right)
  {
    FocusSide(h, c, t, x);
    var y := t.left.id;
    assert Holds(h, t.left, h.cells[x].left, x);
    assert Holds(h, t.left.right, h.cells[y].right, y);
    assert Ids(t.left) == {y} + Ids(t.left.left) + Ids(t.left.right);
    assert RootId(h, t.left.right) == h.cells[y].right;
    assert t.left.right.Node? ==> h.cells[y].right in Ids(t.left.right);
  }

  /** After a left rotation the right child is the root of the rotated subtree. */
  lemma LeftRotateBelow<N>(h: Heap<N>, h': Heap<N>, c: Path<N>, t: Tree<N>, x: N)
    requires View(h, c, t, x) && t.Node? && t.right.Node?
    requires t.right.id in h.cells && LeftRotated(h, h', c, x, t.right.id, h.cells[t.right.id].left)
    ensures Holds(h', RotatedLeft(t), t.right.id, Bottom(h, c))
  {
    LeftRotateNodes(h, c, t, x);
    var y := t.right.id;
    assert Holds(h, t.right, y, x) && Distinct(t.right);
    HoldsFrame(h, h', t.left, h.cells[x].left, x);
    HoldsFrame(h, h', t.right.right, h.cells[y].right, y);
    Rehang(h, h', t.right.left, h.cells[y].left, y, x);
    assert Holds(h', Node(t.id, t.val, t.color, t.left, t.right.left), x, y);
  }

  lemma LeftRotatePath<N>(h: Heap<N>, h': Heap<N>, c: Path<N>, t: Tree<N>, x: N)
    requires View(h, c, t, x) && t.Node? && t.right.Node?
    requires t.right.id in h.cells && LeftRotated(h, h', c, x, t.right.id, h.cells[t.right.id].left)
    ensures HoldsPath(h', c, t.right.id) && h'.cells[h.nil] == h.cells[h.nil]
  {
    LeftRotateNodes(h, c, t, x);
    assert Ids(t) == {x} + Ids(t.left) + Ids(t.right);
    assert Ids(t.right) == {t.right.id} + Ids(t.right.left) + Ids(t.right.right);
    RedirectPath(h, h', c, x, t.right.id);
  }

  lemma LeftRotateView<N>(h: Heap<N>, h': Heap<N>, c: Path<N>, t: Tree<N>, x: N)
    requires View(h, c, t, x) && t.Node? && t.right.Node?
    requires t.right.id in h.cells && LeftRotated(h, h', c, x, t.right.id, h.cells[t.right.id].left)
    ensures View(h', c, RotatedLeft(t), t.right.id)
    ensures h'.cells[h.nil] == h.cells[h.nil]
  {
    LeftRotateBelow(h, h', c, t, x);
    LeftRotatePath(h, h', c, t, x);
    LeftRotationIds(t);
  }

  /** After a right rotation the left child is the root of the rotated subtree. */
  lemma RightRotateBelow<N>(h: Heap<N>, h': Heap<N>, c: Path<N>, t: Tree<N>, x: N)
    requires View(h, c, t, x) && t.Node? && t.left.Node?
    requires t.left.id in h.cells && RightRotated(h, h', c, x, t.left.id, h.cells[t.left.id].right)
    ensures Holds(h', RotatedRight(t), t.left.id, Bottom(h, c))
  {
    RightRotateNodes(h, c, t, x);
    var y := t.left.id;
    assert Holds(h, t.left, y, x) && Distinct(t.left);
    HoldsFrame(h, h', t.right, h.cells[x].right, x);
    HoldsFrame(h, h', t.left.left, h.cells[y].left, y);
    Rehang(h, h', t.left.right, h.cells[y].right, y, x);
    assert Holds(h', Node(t.id, t.val, t.color, t.left.right, t.right), x, y);
  }

  lemma RightRotatePath<N>(h: Heap<N>, h': Heap<N>, c: Path<N>, t: Tree<N>, x: N)
    requires View(h, c, t, x) && t.Node? && t.left.Node?
    requires t.left.id in h.cells && RightRotated(h, h', c, x, t.left.id, h.cells[t.left.id].right)
    ensures HoldsPath(h', c, t.left.id) && h'.cells[h.nil] == h.cells[h.nil]
  {
    RightRotateNodes(h, c, t, x);
    assert Ids(t) == {x} + Ids(t.right) + Ids(t.left);
    assert Ids(t.left) == {t.left.id} + Ids(t.left.right) + Ids(t.left.left);
    RedirectPath(h, h', c, x, t.left.id);
  }

  lemma RightRotateView<N>(h: Heap<N>, h': Heap<N>, c: Path<N>, t: Tree<N>, x: N)
    requires View(h, c, t, x) && t.Node? && t.left.Node?
    requires t.left.id in h.cells && RightRotated(h, h', c, x, t.left.id, h.cells[t.left.id].right)
    ensures View(h', c, RotatedRight(t), t.left.id)
    ensures h'.cells[h.nil] == h.cells[h.nil]
  {
    RightRotateBelow(h, h', c, t, x);
    RightRotatePath(h, h', c, t, x);
    RightRotationIds(t);
  }

  // ----- descents -----

  /** One level further down the search for `val`. */
  lemma SearchOn<N>(h: Heap<N>, c: Path<N>, t: Tree<N>, n: N, val: int) returns (c': Path<N>, t': Tree<N>)
    requires View(h, c, t, n) && t.Node? && Sorted(Keys(Plug(c, t))) && t.val != val
    ensures View(h, c', t', if val < t.val then h.cells[n].left else h.cells[n].right)
    ensures (if val < t.val then h.cells[n].left else h.cells[n].right) == RootId(h, t')
    ensures Plug(c', t') == Plug(c, t) && Depth(c') == Depth(c) + 1 && t' < t
    ensures val in Keys(t) <==> val in Keys(t')
  {
    FocusSorted(c, t);
    if val < t.val {
      ToLeft(h, c, t, n);
      c', t' := ViaLeft(c, t.id, t.val, t.color, t.right), t.left;
      ColorRead(h, c', t', h.cells[n].left);
    } else {
      ToRight(h, c, t, n);
      c', t' := ViaRight(c, t.id, t.val, t.color, t.left), t.right;
      ColorRead(h, c', t', h.cells[n].right);
    }
  }

  /** One level further down to the place where `val` belongs. */
  lemma SlotOn<N>(h: Heap<N>, c: Path<N>, t: Tree<N>, n: N, val: int) returns (c': Path<N>, t': Tree<N>)
    requires View(h, c, t, n) && t.Node? && Sorted(Keys(Plug(c, t))) && SlotFor(c, val)
    ensures View(h, c', t', if val < t.val then h.cells[n].left else h.cells[n].right)
    ensures (if val < t.val then h.cells[n].left else h.cells[n].right) == RootId(h, t')
    ensures Plug(c', t') == Plug(c, t) && t' < t && c' != Top && c'.id == t.id && SlotFor(c', val)
  {
    SlotBelow(c, t, val);
    if val < t.val {
      ToLeft(h, c, t, n);
      c', t' := ViaLeft(c, t.id, t.val, t.color, t.right), t.left;
      ColorRead(h, c', t', h.cells[n].left);
    } else {
      ToRight(h, c, t, n);
      c', t' := ViaRight(c, t.id, t.val, t.color, t.left), t.right;
      ColorRead(h, c', t', h.cells[n].right);
    }
  }

  // ----- hanging in and taking out nodes -----

  lemma {:induction false} PathIdsInCells<N>(h: Heap<N>, c: Path<N>, n: N)
    requires HoldsPath(h, c, n)
    ensures PathIds(c) <= h.cells.Keys && h.nil !in PathIds(c)
  {
    match c
    case Top =>
    case ViaLeft(up, id, _, _, s) =>
      PathIdsInCells(h, up, id);
      IdsInCells(h, s, h.cells[id].right, id);
    case ViaRight(up, id, _, _, s) =>
      PathIdsInCells(h, up, id);
      IdsInCells(h, s, h.cells[id].left, id);
  }

  lemma {:induction false} IdsInCells<N>(h: Heap<N>, t: Tree<N>, n: N, p: N)
    requires Holds(h, t, n, p)
    ensures Ids(t) <= h.cells.Keys && h.nil !in Ids(t)
  {
    match t
    case Leaf =>
    case Node(id, _, _, l, r) =>
      IdsInCells(h, l, h.cells[id].left, id);
      IdsInCells(h, r, h.cells[id].right, id);
  }

  /** The link at the lower end of `c` now leads to `v`, whose parent is the lowest node
      of `c`; nothing else has changed. */
  predicate Relinked<N(==)>(h: Heap<N>, h': Heap<N>, c: Path<N>, v: N) {
    && v in h.cells && h'.cells.Keys == h.cells.Keys && h'.nil == h.nil
    && (c != Top ==> c.id in h.cells && c.id != v && h'.cells[c.id] == Redirect(h, c, v).cells[c.id])
    && h'.root == Redirect(h, c, v).root
    && h'.cells[v] == h.cells[v].(parent := Bottom(h, c))
    && (forall n :: n in h.cells && n != v && (c == Top || n != c.id) ==> h'.cells[n] == h.cells[n])
  }

  /** What `transplant(u, v)` needs to find the link to `u`. */
  predicate Linked<N(==)>(h: Heap<N>, c: Path<N>, u: N) {
    && u in h.cells && h.cells[u].parent == Bottom(h, c)
    && (c != Top ==> c.id in h.cells && c.id != h.nil)
    && (c.ViaLeft? ==> h.cells[c.id].left == u)
    && (c.ViaRight? ==> h.cells[c.id].left != u)
  }

  /** Replacing a node that has at most one child by that child. */
  lemma SpliceView<N>(h: Heap<N>, h': Heap<N>, c: Path<N>, t: Tree<N>, u: N, sub: Tree<N>)
    requires View(h, c, t, u) && t.Node?
    requires (sub == t.right && t.left.Leaf?) || (sub == t.left && t.right.Leaf?)
    requires Relinked(h, h', c, RootId(h, sub))
    ensures View(h', c, sub, RootId(h, sub))
    ensures h'.cells[RootId(h, sub)].parent == Bottom(h, c)
  {
    var v := RootId(h, sub);
    PathIdsInCells(h, c, u);
    RedirectPath(h, h', c, u, v);
    if sub == t.right {
      assert Holds(h, sub, h.cells[u].right, u);
    } else {
      assert Holds(h, sub, h.cells[u].left, u);
    }
    Rehang(h, h', sub, v, u, Bottom(h, c));
  }

  /** Putting a detached node `y` in the place of the root `z` of the subtree in focus. */
  predicate Replaced<N(==)>(h: Heap<N>, h': Heap<N>, c: Path<N>, z: N, y: N, l: N, r: N) {
    && z in h.cells && y in h.cells && y != h.nil && h'.nil == h.nil && h.nil in h.cells
    && (c != Top ==> c.id in h.cells && c.id != y)
    && h'.cells.Keys == h.cells.Keys
    && h'.cells[y] == Cell(h.cells[y].val, h.cells[z].color, l, r, Bottom(h, c))
    && (c != Top ==> h'.cells[c.id] == Redirect(h, c, y).cells[c.id])
    && h'.root == Redirect(h, c, y).root
    && (l in h.cells && l != h.nil ==> h'.cells[l] == h.cells[l].(parent := y))
    && (r in h.cells && r != h.nil ==> h'.cells[r] == h.cells[r].(parent := y))
    && h'.cells[h.nil].color == h.cells[h.nil].color
    && (forall n :: n in h.cells && n != y && n != z && n != l && n != r && n != h.nil && (c == Top || n != c.id) ==>
         h'.cells[n] == h.cells[n])
  }

  /** Linking `y` in for `z`: the parent's side, the left subtree `l`, and the colour. */
  predicate Seated<N(==)>(g: Heap<N>, h': Heap<N>, c: Path<N>, z: N, y: N, l: N) {
    && z in g.cells && y in g.cells && l in g.cells && l != y && h'.nil == g.nil
    && (c != Top ==> c.id in g.cells && c.id != y && c.id != l)
    && h'.cells.Keys == g.cells.Keys
    && h'.cells[y] == g.cells[y].(left := l, color := g.cells[z].color, parent := Bottom(g, c))
    && (c != Top ==> h'.cells[c.id] == Redirect(g, c, y).cells[c.id])
    && h'.root == Redirect(g, c, y).root
    && h'.cells[l] == g.cells[l].(parent := y)
    && (forall n :: n in g.cells && n != y && n != l && (c == Top || n != c.id) ==> h'.cells[n] == g.cells[n])
  }

  /** Together with re-hanging the right subtree `r` this is a replacement. */
  lemma SeatedReplaced<N>(h: Heap<N>, g: Heap<N>, h': Heap<N>, c: Path<N>, z: N, y: N, l: N, r: N)
    requires Seated(g, h', c, z, y, l)
    requires g.cells.Keys == h.cells.Keys && g.root == h.root && g.nil == h.nil && h.nil in h.cells
    requires y != z && y != h.nil && l != h.nil && z != h.nil && z != r && l != r && y != r
    requires c != Top ==> c.id != r && c.id != h.nil && c.id != z
    requires g.cells[y].val == h.cells[y].val && g.cells[y].right == r
    requires r in h.cells && r != h.nil ==> g.cells[r] == h.cells[r].(parent := y)
    requires g.cells[h.nil].color == h.cells[h.nil].color
    requires forall n :: n in h.cells && n != y && n != r && n != h.nil ==> g.cells[n] == h.cells[n]
    ensures Replaced(h, h', c, z, y, l, r)
  {
  }

  lemma ReplaceView<N>(h: Heap<N>, h': Heap<N>, c: Path<N>, z: N, y: N,
                       lt: Tree<N>, l: N, rt: Tree<N>, r: N, pr: N)
    requires HoldsPath(h, c, z) && Holds(h, lt, l, z) && Holds(h, rt, r, pr)
    requires h.nil in h.cells && h.cells[h.nil].color == BLACK
    requires DistinctPath(c) && Distinct(lt) && Distinct(rt)
    requires PathIds(c) !! Ids(lt) && PathIds(c) !! Ids(rt) && Ids(lt) !! Ids(rt)
    requires y !in PathIds(c) && y !in Ids(lt) && y !in Ids(rt)
    requires z !in PathIds(c) && z !in Ids(lt) && z !in Ids(rt)
    requires Replaced(h, h', c, z, y, l, r)
    ensures View(h', c, Node(y, h.cells[y].val, h.cells[z].color, lt, rt), y)
  {
    ReplacePath(h, h', c, z, y, lt, l, rt, r, pr);
    IdsInCells(h, lt, l, z);
    IdsInCells(h, rt, r, pr);
    assert lt.Node? ==> l in Ids(lt);
    assert rt.Node? ==> r in Ids(rt);
    ReplaceSubtree(h, h', c, z, y, l, r, lt, l, z);
    ReplaceSubtree(h, h', c, z, y, l, r, rt, r, pr);
  }

  /** The path leads to `y` then. */
  lemma ReplacePath<N>(h: Heap<N>, h': Heap<N>, c: Path<N>, z: N, y: N,
                       lt: Tree<N>, l: N, rt: Tree<N>, r: N, pr: N)
    requires HoldsPath(h, c, z) && Holds(h, lt, l, z) && Holds(h, rt, r, pr)
    requires h.nil in h.cells && DistinctPath(c)
    requires PathIds(c) !! Ids(lt) && PathIds(c) !! Ids(rt) && y !in PathIds(c) && z !in PathIds(c)
    requires Replaced(h, h', c, z, y, l, r)
    ensures HoldsPath(h', c, y)
  {
    PathIdsInCells(h, c, z);
    assert lt.Node? ==> l in Ids(lt);
    assert rt.Node? ==> r in Ids(rt);
    RedirectPath(h, h', c, z, y);
  }

  /** Either subtree hangs below `y` then. */
  lemma ReplaceSubtree<N>(h: Heap<N>, h': Heap<N>, c: Path<N>, z: N, y: N, l: N, r: N,
                          part: Tree<N>, n: N, p: N)
    requires Holds(h, part, n, p) && Distinct(part) && y !in Ids(part) && z !in Ids(part)
    requires PathIds(c) !! Ids(part) && Replaced(h, h', c, z, y, l, r)
    requires (n == l || n == r) && forall m :: m in Ids(part) && (m == l || m == r) ==> m == n
    ensures Holds(h', part, n, y)
  {
    IdsInCells(h, part, n, p);
    Rehang(h, h', part, n, p, y);
  }

  /** The lowest node of a path. */
  lemma BottomFields<N>(h: Heap<N>, c: Path<N>, n: N)
    requires HoldsPath(h, c, n)
    ensures c != Top ==> c.id in h.cells && c.id != h.nil && h.cells[c.id].val == c.val
  {
  }

  /** Hanging a fresh node at the empty lower end of a path. */
  predicate Hung<N(==)>(h: Heap<N>, h': Heap<N>, c: Path<N>, z: N, v: int) {
    && z !in h.cells && h'.cells.Keys == h.cells.Keys + {z} && h'.nil == h.nil
    && (c != Top ==> c.id in h.cells && h'.cells[c.id] == Redirect(h, c, z).cells[c.id])
    && h'.root == Redirect(h, c, z).root
    && h'.cells[z] == Cell(v, RED, h.nil, h.nil, Bottom(h, c))
    && (forall n :: n in h.cells && (c == Top || n != c.id) ==> h'.cells[n] == h.cells[n])
  }

  lemma HangView<N>(h: Heap<N>, h': Heap<N>, c: Path<N>, z: N, v: int)
    requires View(h, c, Leaf, h.nil) && Hung(h, h', c, z, v)
    ensures View(h', c, Node(z, v, RED, Leaf, Leaf), z)
  {
    PathIdsInCells(h, c, h.nil);
    RedirectPath(h, h', c, h.nil, z);
  }

  /** Nodes outside the tree do not matter. */
  lemma ViewFrame<N>(h: Heap<N>, h': Heap<N>, c: Path<N>, t: Tree<N>, n: N)
    requires View(h, c, t, n)
    requires Agree(h, h', PathIds(c) + Ids(t) + {h.nil}) && h'.root == h.root
    ensures View(h', c, t, n)
  {
    HoldsFrame(h, h', t, n, Bottom(h, c));
    PathFrame(h, h', c, n);
  }

  /** The sibling of the part in focus, its colour and the colours of its children. */
  lemma SiblingRead<N>(h: Heap<N>, c: Path<N>, t: Tree<N>, n: N)
    requires View(h, c, t, n) && c != Top && c.sibling.Node?
    ensures c.id in h.cells
    ensures var w := if c.ViaLeft? then h.cells[c.id].right else h.cells[c.id].left;
      w == c.sibling.id && w in h.cells && h.cells[w].color == c.sibling.color &&
      h.cells[w].left in h.cells && h.cells[h.cells[w].left].color == ColorOf(c.sibling.left) &&
      h.cells[w].right in h.cells && h.cells[h.cells[w].right].color == ColorOf(c.sibling.right)
  {
    ToSibling(h, c, t, n);
    ColorRead(h, Across(c, t), c.sibling, if c.ViaLeft? then h.cells[c.id].right else h.cells[c.id].left);
  }

  /** Which side the part in focus hangs on, if its sibling is a node. */
  lemma SideRead<N>(h: Heap<N>, c: Path<N>, t: Tree<N>, n: N)
    requires View(h, c, t, n) && c != Top
    ensures c.id in h.cells
    ensures c.sibling.Node? ==> (c.ViaLeft? <==> h.cells[c.id].left == n)
  {
    ToParent(h, c, t, n);
    ToSibling(h, c, t, n);
    ColorRead(h, Across(c, t), c.sibling, if c.ViaLeft? then h.cells[c.id].right else h.cells[c.id].left);
    ColorRead(h, c, t, n);
  }

  /** The fields read before a round of the insertion loop: the parent, the side the node
      in focus hangs on, and the uncle with its colour. */
  lemma UncleRead<N>(h: Heap<N>, c: Path<N>, t: Tree<N>, n: N)
    requires View(h, c, t, n) && t.Node? && c != Top && c.up != Top
    ensures n in h.cells && h.cells[n].parent == c.id && c.id in h.cells
    ensures h.cells[c.id].parent == c.up.id && c.up.id in h.cells
    ensures c.up.ViaLeft? <==> h.cells[c.up.id].left == c.id
    ensures c.ViaLeft? <==> h.cells[c.id].left == n
    ensures c.ViaRight? <==> h.cells[c.id].right == n
    ensures var y := if c.up.ViaLeft? then h.cells[c.up.id].right else h.cells[c.up.id].left;
      y in h.cells && y == RootId(h, c.up.sibling) && h.cells[y].color == ColorOf(c.up.sibling)
  {
    FocusSide(h, c, t, n);
    ToParent(h, c, t, n);
    FocusSide(h, c.up, Up(c, t), c.id);
    ToSibling(h, c.up, Up(c, t), c.id);
    ColorRead(h, Across(c.up, Up(c, t)), c.up.sibling,
              if c.up.ViaLeft? then h.cells[c.up.id].right else h.cells[c.up.id].left);
  }

  /** Reading the colour field through any link of the tree. */
  lemma ColorRead<N>(h: Heap<N>, c: Path<N>, t: Tree<N>, n: N)
    requires View(h, c, t, n)
    ensures n in h.cells && h.cells[n].color == ColorOf(t) && n == RootId(h, t)
    ensures t.Leaf? <==> n == h.nil
    ensures t.Node? ==> h.cells[n].left in h.cells && h.cells[n].right in h.cells
    ensures t.Node? ==> h.cells[h.cells[n].left].color == ColorOf(t.left)
    ensures t.Node? ==> h.cells[h.cells[n].right].color == ColorOf(t.right)
  {
    if t.Node? {
      assert Holds(h, t.left, h.cells[n].left, n);
      assert Holds(h, t.right, h.cells[n].right, n);
    }
  }

  /** The nodes met when the leftmost node `s` of the right subtree is to replace `z`. */
  lemma SuccessorNodes<N>(h: Heap<N>, c: Path<N>, t: Tree<N>, z: N, inner: Path<N>, s: Tree<N>)
    requires View(h, c, t, z) && t.Node? && t.left.Node? && s.Node? && s.left == Leaf
    requires t.right == Plug(inner, s)
    ensures Linked(h, c, z) && h.cells[z].left == t.left.id && t.left.id in h.cells
    ensures s.id in h.cells && h.cells[s.id].right == RootId(h, s.right) && h.cells[s.id].val == s.val
    ensures h.cells[s.id].color == s.color && h.nil !in Ids(t.left)
    ensures h.cells[s.id].right in h.cells && Holds(h, t.left, t.left.id, z)
    ensures Holds(h, s.right, h.cells[s.id].right, s.id)
    ensures h.cells[s.id].parent == z <==> inner == Top
    ensures s.id != z && s.id != t.left.id && z != t.left.id && s.id != h.nil && z != h.nil && t.left.id != h.nil
    ensures s.id !in PathIds(c) && s.id !in Ids(t.left) && s.id !in Ids(s.right)
    ensures z !in PathIds(c) && z !in Ids(t.left) && z !in Ids(s.right) && z !in Ids(Plug(inner, s.right))
    ensures s.id !in Ids(Plug(inner, s.right))
    ensures Distinct(t.left) && Distinct(Plug(inner, s.right)) && Ids(t.left) !! Ids(Plug(inner, s.right))
    ensures PathIds(c) !! Ids(t.left) && PathIds(c) !! Ids(Plug(inner, s.right)) && DistinctPath(c)
  {
    ToParentColor(h, c, t, z);
    FocusSide(h, c, t, z);
    var d := ViaRight(c, t.id, t.val, t.color, t.left);
    ToRight(h, c, t, z);
    assert Holds(h, t.right, h.cells[z].right, z);
    assert Holds(h, t.left, h.cells[z].left, z);
    PlugLeaf(inner, s);
    Descend(h, d, inner, s);
    ToParentColor(h, Join(inner, d), s, s.id);
    assert Holds(h, s.right, h.cells[s.id].right, s.id);
    PlugIds(inner, s);
    PlugIds(inner, s.right);
    PlugDistinct(inner, s);
    PlugDistinct(inner, s.right);
    IdsInCells(h, t.right, h.cells[z].right, z);
    IdsInCells(h, t.left, h.cells[z].left, z);
  }

  /** The same when `s` lies deeper than the right child: it can be taken out first. */
  lemma DeepSuccessor<N>(h: Heap<N>, c: Path<N>, t: Tree<N>, z: N, inner: Path<N>, s: Tree<N>)
    requires View(h, c, t, z) && t.Node? && t.left.Node? && s.Node? && s.left == Leaf
    requires t.right == Plug(inner, s) && inner != Top
    ensures View(h, Join(inner, ViaRight(c, t.id, t.val, t.color, t.left)), s, s.id)
    ensures s.id in h.cells && h.cells[s.id].right == RootId(h, s.right) && h.cells[s.id].right in h.cells
    ensures s.id != z && s.id != h.nil && s.id !in PathIds(c) && s.id !in Ids(t.left)
    ensures s.id !in Ids(Plug(inner, s.right)) && Plug(inner, s.right) != Leaf
  {
    SuccessorNodes(h, c, t, z, inner, s);
    ToRight(h, c, t, z);
    Descend(h, ViaRight(c, t.id, t.val, t.color, t.left), inner, s);
    PlugLeaf(inner, s.right);
  }

  /** The nodes around `z` when a detached node `y` is to take its place. */
  lemma ReplaceNodes<N>(h: Heap<N>, c: Path<N>, t: Tree<N>, z: N, y: N)
    requires View(h, c, t, z) && t.Node? && t.left.Node? && t.right.Node?
    requires y in h.cells && y != h.nil && y != z && y !in PathIds(c) && y !in Ids(t.left) && y !in Ids(t.right)
    ensures Linked(h, c, z) && h.cells[z].left == t.left.id && h.cells[z].right == t.right.id
    ensures var l, r := t.left.id, t.right.id;
      l in h.cells && r in h.cells && l != h.nil && r != h.nil && z != h.nil &&
      l != r && l != z && r != z && l != y && r != y &&
      (c != Top ==> c.id in h.cells && c.id != y && c.id != z && c.id != l && c.id != r)
    ensures Holds(h, t.left, t.left.id, z) && Holds(h, t.right, t.right.id, z)
    ensures Distinct(t.left) && Distinct(t.right) && z !in PathIds(c) && z !in Ids(t.left) && z !in Ids(t.right)
  {
    ToParentColor(h, c, t, z);
    FocusSide(h, c, t, z);
    assert Holds(h, t.right, h.cells[z].right, z);
    assert Holds(h, t.left, h.cells[z].left, z);
    assert t.left.id in Ids(t.left) && t.right.id in Ids(t.right);
  }

  /** The detached node `y` has taken over the right child `r`. */
  predicate RightTaken<N(==)>(h: Heap<N>, g: Heap<N>, y: N, r: N) {
    && y in h.cells && r in h.cells && y != r
    && g.cells.Keys == h.cells.Keys && g.root == h.root && g.nil == h.nil
    && g.cells[y] == h.cells[y].(right := r)
    && g.cells[r] == h.cells[r].(parent := y)
    && (forall n :: n in h.cells && n != y && n != r ==> g.cells[n] == h.cells[n])
  }

  /** Taking over the right child and then the place puts `y` there with both subtrees of `z`. */
  lemma SeatedView<N>(h: Heap<N>, g: Heap<N>, h': Heap<N>, c: Path<N>, t: Tree<N>, z: N, y: N)
    requires View(h, c, t, z) && t.Node? && t.left.Node? && t.right.Node?
    requires y in h.cells && y != h.nil && y != z && y !in PathIds(c) && y !in Ids(t.left) && y !in Ids(t.right)
    requires RightTaken(h, g, y, t.right.id) && Seated(g, h', c, z, y, t.left.id)
    ensures View(h', c, Node(y, h.cells[y].val, t.color, t.left, t.right), y)
  {
    ReplaceNodes(h, c, t, z, y);
    SeatedReplaced(h, g, h', c, z, y, t.left.id, t.right.id);
    ReplaceView(h, h', c, z, y, t.left, t.left.id, t.right, t.right.id, z);
  }

  /** What taking the right child leaves for `TakePlace` to find. */
  lemma TakenNodes<N>(h: Heap<N>, g: Heap<N>, c: Path<N>, t: Tree<N>, z: N, y: N)
    requires View(h, c, t, z) && t.Node? && t.left.Node? && t.right.Node?
    requires y in h.cells && y != h.nil && y != z && y !in PathIds(c) && y !in Ids(t.left) && y !in Ids(t.right)
    requires RightTaken(h, g, y, t.right.id)
    ensures Placeable(g, c, z, y) && g.cells[z].left == t.left.id
    ensures g.cells[g.nil] == h.cells[h.nil]
  {
    ReplaceNodes(h, c, t, z, y);
  }

  /** What is needed to link `y` in for `z`. */
  predicate Placeable<N(==)>(h: Heap<N>, c: Path<N>, z: N, y: N) {
    && Linked(h, c, z) && y in h.cells && z != h.nil && y != h.nil && z != y && h.nil in h.cells
    && h.cells[z].left in h.cells && h.cells[z].left != h.nil && h.cells[z].left != y && h.cells[z].left != z
    && (c != Top ==> c.id != y && c.id != z && c.id != h.cells[z].left)
  }

  /** What there is to find when the successor is the right child, and its own right child
      `x` has been pointed at it. */
  lemma BelowNodes<N>(h: Heap<N>, g: Heap<N>, c: Path<N>, t: Tree<N>, z: N, x: N)
    requires View(h, c, t, z) && t.Node? && t.left.Node? && t.right.Node? && t.right.left == Leaf
    requires x == RootId(h, t.right.right) && x in h.cells && g.cells.Keys == h.cells.Keys
    requires g.cells[x] == h.cells[x].(parent := t.right.id) && g.root == h.root && g.nil == h.nil
    requires forall n :: n in h.cells && n != x ==> g.cells[n] == h.cells[n]
    ensures Placeable(g, c, z, t.right.id) && g.cells[z].left == t.left.id
  {
    SuccessorNodes(h, c, t, z, Top, t.right);
    assert Plug(Top, t.right.right) == t.right.right;
    assert t.left.id in Ids(t.left) && (x == h.nil || x in Ids(t.right.right)) && (c == Top || c.id in PathIds(c));
  }

  /** Linking that successor in puts it in the place of `z`. */
  lemma BelowView<N>(h: Heap<N>, g: Heap<N>, h': Heap<N>, c: Path<N>, t: Tree<N>, z: N, x: N)
    requires View(h, c, t, z) && t.Node? && t.left.Node? && t.right.Node? && t.right.left == Leaf
    requires x == RootId(h, t.right.right) && x in h.cells && g.cells.Keys == h.cells.Keys
    requires g.cells[x] == h.cells[x].(parent := t.right.id) && g.root == h.root && g.nil == h.nil
    requires forall n :: n in h.cells && n != x ==> g.cells[n] == h.cells[n]
    requires Seated(g, h', c, z, t.right.id, t.left.id)
    ensures View(h', c, Node(t.right.id, t.right.val, t.color, t.left, t.right.right), t.right.id)
    ensures h'.cells[x].parent == t.right.id
  {
    var y := t.right.id;
    SuccessorNodes(h, c, t, z, Top, t.right);
    assert Plug(Top, t.right.right) == t.right.right;
    assert t.left.id in Ids(t.left) && (x == h.nil || x in Ids(t.right.right)) && (c == Top || c.id in PathIds(c));
    SeatedReplaced(h, g, h', c, z, y, t.left.id, x);
    ReplaceView(h, h', c, z, y, t.left, t.left.id, t.right.right, x, y);
  }

  /** The focus can then be moved to where the successor's own right child hangs. */
  lemma BelowSuccessor<N>(h: Heap<N>, c: Path<N>, t: Tree<N>, inner: Path<N>, s: Tree<N>)
    requires t.Node? && s.Node?
    requires View(h, c, Node(s.id, s.val, t.color, t.left, Plug(inner, s.right)), s.id)
    ensures View(h, SuccessorPath(c, t, inner, s), s.right, RootId(h, s.right)) && RootId(h, s.right) in h.cells
  {
    var rest := Plug(inner, s.right);
    ToRight(h, c, Node(s.id, s.val, t.color, t.left, rest), s.id);
    var d := ViaRight(c, s.id, s.val, t.color, t.left);
    ColorRead(h, d, rest, h.cells[s.id].right);
    Descend(h, d, inner, s.right);
    ColorRead(h, Join(inner, d), s.right, RootId(h, s.right));
  }

  // ----- where the focus is after a case of the insertion loop -----

  lemma FinishedLeftView<N>(h: Heap<N>, c: Path<N>, t: Tree<N>, z: N)
    requires c.ViaLeft? && c.up.ViaLeft? && t.Node? && z == t.id
    requires View(h, c.up.up, RotatedRight(Outer(c, t)), c.id)
    ensures View(h, FinishedLeft(c, t), t, z)
  {
    ToLeft(h, c.up.up, RotatedRight(Outer(c, t)), c.id);
  }

  lemma FinishedRightView<N>(h: Heap<N>, c: Path<N>, t: Tree<N>, z: N)
    requires c.ViaRight? && c.up.ViaRight? && t.Node? && z == t.id
    requires View(h, c.up.up, RotatedLeft(Outer(c, t)), c.id)
    ensures View(h, FinishedRight(c, t), t, z)
  {
    ToRight(h, c.up.up, RotatedLeft(Outer(c, t)), c.id);
  }

  // ----- where the focus is after a case of the deletion loop -----

  lemma RaisedLeftView<N>(h: Heap<N>, c: Path<N>, t: Tree<N>)
    requires c.ViaLeft? && c.sibling.Node?
    requires View(h, c.up, RotatedLeft(SiblingUpLeft(c, t)), c.sibling.id)
    ensures View(h, RaisedLeft(c, t), t, RootId(h, t))
    ensures t.Node? ==> RootId(h, t) in h.cells && h.cells[RootId(h, t)].parent == c.id
  {
    var q := RotatedLeft(SiblingUpLeft(c, t));
    ToLeft(h, c.up, q, q.id);
    ToLeft(h, RaisedLeft(c, t).up, q.left, c.id);
    ColorRead(h, RaisedLeft(c, t), t, h.cells[c.id].left);
  }

  lemma RaisedRightView<N>(h: Heap<N>, c: Path<N>, t: Tree<N>)
    requires c.ViaRight? && c.sibling.Node?
    requires View(h, c.up, RotatedRight(SiblingUpRight(c, t)), c.sibling.id)
    ensures View(h, RaisedRight(c, t), t, RootId(h, t))
    ensures t.Node? ==> RootId(h, t) in h.cells && h.cells[RootId(h, t)].parent == c.id
  {
    var q := RotatedRight(SiblingUpRight(c, t));
    ToRight(h, c.up, q, q.id);
    ToRight(h, RaisedRight(c, t).up, q.right, c.id);
    ColorRead(h, RaisedRight(c, t), t, h.cells[c.id].right);
  }
}
