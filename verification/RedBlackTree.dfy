/** The tree class of 6_section_7/4_redBlackTree.cpp over real node objects.

    Ghost parameters say where in the tree the node at hand is: a path to the root and
    the subtree below. Every method is proved against what it does to that tree. */
module RedBlackTree {
  import opened RedBlackShape
  import opened RedBlackHeap

  class RBNode {
    var val: int
    var color: Color
    var left: RBNode?
    var right: RBNode?
    var parent: RBNode?

    constructor (x: int)
      ensures val == x && color == RED && left == null && right == null && parent == null
    {
      val := x;
      color := RED;
      left := null;
      right := null;
      parent := null;
    }
  }

  type Shape = Tree<RBNode?>
  type Spine = Path<RBNode?>

  class RedBlackTree {
    var root: RBNode?
    var nil: RBNode?
    ghost var nodes: set<RBNode>
    ghost var tree: Shape

    ghost function Snapshot(): Heap<RBNode?>
      reads `root, `nil, `nodes, nodes
    {
      Heap(map n: RBNode? | n in nodes :: Cell(n.val, n.color, n.left, n.right, n.parent), root, nil)
    }

    ghost predicate At(c: Spine, t: Shape, n: RBNode?)
      reads `root, `nil, `nodes, nodes
    {
      View(Snapshot(), c, t, n)
    }

    ghost predicate Valid()
      reads this, nodes
    {
      && nil in nodes && nodes == Ids(tree) + {nil}
      && At(Top, tree, root)
      && RedBlack(tree) && Sorted(Keys(tree))
    }

    method Paint(n: RBNode?, k: Color, ghost c: Spine, ghost t: Shape)
      requires At(c, t, n) && t.Node?
      modifies n`color
      ensures At(c, Painted(t, k), n)
    {
      ghost var h := Snapshot();
      n.color := k;
      RecolorView(h, c, t, n, k);
      assert Snapshot() == SetColor(h, n, k);
    }

    /** Paints the parent of the node in focus and moves up to it. */
    method PaintParent(n: RBNode?, k: Color, ghost c: Spine, ghost t: Shape)
      requires At(c, t, n) && t.Node? && c != Top
      modifies nodes`color
      ensures n in nodes && n.parent == c.id && n == t.id && c.id in nodes
      ensures At(c.up, Painted(Up(c, t), k), c.id)
    {
      ToParent(Snapshot(), c, t, n);
      Paint(n.parent, k, c.up, Up(c, t));
    }

    /** Paints the sibling `y` of the part in focus and moves across to it. */
    method PaintSibling(n: RBNode?, y: RBNode?, k: Color, ghost c: Spine, ghost t: Shape)
      requires At(c, t, n) && c != Top && c.sibling.Node? && y == c.sibling.id
      modifies nodes`color
      ensures y in nodes && c.id in nodes
      ensures At(Across(c, t), Painted(c.sibling, k), y)
    {
      ToSibling(Snapshot(), c, t, n);
      Paint(y, k, Across(c, t), c.sibling);
    }

    /** Paints a child of the node in focus. */
    method PaintLeft(n: RBNode?, k: Color, ghost c: Spine, ghost t: Shape)
      requires At(c, t, n) && t.Node? && t.left.Node?
      modifies nodes`color
      ensures n in nodes && n == t.id && At(c, t.(left := Painted(t.left, k)), n)
    {
      ToLeft(Snapshot(), c, t, n);
      ghost var d: Spine := ViaLeft(c, t.id, t.val, t.color, t.right);
      Paint(n.left, k, d, t.left);
      ToParent(Snapshot(), d, Painted(t.left, k), n.left);
    }

    method PaintRight(n: RBNode?, k: Color, ghost c: Spine, ghost t: Shape)
      requires At(c, t, n) && t.Node? && t.right.Node?
      modifies nodes`color
      ensures n in nodes && n == t.id && At(c, t.(right := Painted(t.right, k)), n)
    {
      ToRight(Snapshot(), c, t, n);
      ghost var d: Spine := ViaRight(c, t.id, t.val, t.color, t.left);
      Paint(n.right, k, d, t.right);
      ToParent(Snapshot(), d, Painted(t.right, k), n.right);
    }

    method LeftRotate(x: RBNode?, ghost c: Spine)
      requires nil in nodes && LeftRotatable(Snapshot(), c, x)
      modifies `root, nodes`left, nodes`right, nodes`parent
      ensures LeftRotated(old(Snapshot()), Snapshot(), c, x, old(x.right), old(x.right.left))
    {
      var y := x.right;
      x.right := y.left;
      if y.left != nil {
        y.left.parent := x;
      }
      y.parent := x.parent;
      if x.parent == nil {
        root := y;
      } else if x == x.parent.left {
        x.parent.left := y;
      } else {
        x.parent.right := y;
      }
      y.left := x;
      x.parent := y;
    }

    /** The same, told as a rotation of the tree. */
    method LeftRotateAt(x: RBNode?, ghost c: Spine, ghost t: Shape)
      requires At(c, t, x) && t.Node? && t.right.Node?
      modifies `root, nodes`left, nodes`right, nodes`parent
      ensures At(c, RotatedLeft(t), t.right.id)
      ensures nil.parent == old(nil.parent)
    {
      ghost var h := Snapshot();
      LeftRotateNodes(h, c, t, x);
      LeftRotate(x, c);
      LeftRotateView(h, Snapshot(), c, t, x);
    }

    method RightRotate(x: RBNode?, ghost c: Spine)
      requires nil in nodes && RightRotatable(Snapshot(), c, x)
      modifies `root, nodes`left, nodes`right, nodes`parent
      ensures RightRotated(old(Snapshot()), Snapshot(), c, x, old(x.left), old(x.left.right))
    {
      var y := x.left;
      x.left := y.right;
      if y.right != nil {
        y.right.parent := x;
      }
      y.parent := x.parent;
      if x.parent == nil {
        root := y;
      } else if x == x.parent.right {
        x.parent.right := y;
      } else {
        x.parent.left := y;
      }
      y.right := x;
      x.parent := y;
    }

    /** The same, told as a rotation of the tree. */
    method RightRotateAt(x: RBNode?, ghost c: Spine, ghost t: Shape)
      requires At(c, t, x) && t.Node? && t.left.Node?
      modifies `root, nodes`left, nodes`right, nodes`parent
      ensures At(c, RotatedRight(t), t.left.id)
      ensures nil.parent == old(nil.parent)
    {
      ghost var h := Snapshot();
      RightRotateNodes(h, c, t, x);
      RightRotate(x, c);
      RightRotateView(h, Snapshot(), c, t, x);
    }

    // ----- insertion -----

    /** Case 1 of the insertion loop: the parent and the uncle `y` are red. */
    method PushDown(z: RBNode?, y: RBNode?, ghost c: Spine, ghost t: Shape) returns (z': RBNode?)
      requires At(c, t, z) && t.Node? && c != Top && c.up != Top
      requires c.up.sibling.Node? && c.up.sibling.id == y
      modifies nodes`color
      ensures z' == z.parent.parent && At(c.up.up, PushedDown(c, t), z')
    {
      ghost var p, u := Painted(Up(c, t), BLACK), Painted(c.up.sibling, BLACK);
      PaintParent(z, BLACK, c, t);
      PaintSibling(z.parent, y, BLACK, c.up, p);
      PaintParent(y, RED, Across(c.up, p), u);
      z' := z.parent.parent;
    }

    /** The colour changes of case 3. */
    method FinishingColors(z: RBNode?, ghost c: Spine, ghost t: Shape)
      requires At(c, t, z) && t.Node? && c != Top && c.up != Top
      modifies nodes`color
      ensures At(c.up.up, Outer(c, t), c.up.id) && z == t.id
      ensures z in nodes && z.parent == c.id && c.id in nodes && c.id.parent == c.up.id
    {
      PaintParent(z, BLACK, c, t);
      PaintParent(z.parent, RED, c.up, Painted(Up(c, t), BLACK));
    }

    /** Case 3: the node in focus and its parent are left children. */
    method FinishLeft(z: RBNode?, ghost c: Spine, ghost t: Shape) returns (ghost c': Spine)
      requires At(c, t, z) && RedAt(c, t) && c.ViaLeft? && c.color == RED && c.up.ViaLeft?
      requires ColorOf(c.up.sibling) == BLACK
      modifies `root, nodes`left, nodes`right, nodes`parent, nodes`color
      ensures At(c', t, z) && RedAt(c', t) && c' != Top && Depth(c') < Depth(c)
      ensures SameContents(Plug(c, t), Plug(c', t))
    {
      FinishingColors(z, c, t);
      RightRotateAt(z.parent.parent, c.up.up, Outer(c, t));
      OuterRight(c, t);
      c' := FinishedLeft(c, t);
      FinishedLeftView(Snapshot(), c, t, z);
    }

    /** Case 2: turns a red right child of a red left child outward. */
    method TurnOuterLeft(z: RBNode?, ghost c: Spine, ghost t: Shape)
      returns (z': RBNode?, ghost c': Spine, ghost t': Shape)
      requires At(c, t, z) && RedAt(c, t) && c.ViaRight? && c.color == RED && c.up.ViaLeft?
      modifies `root, nodes`left, nodes`right, nodes`parent
      ensures At(c', t', z') && RedAt(c', t') && c'.ViaLeft? && c'.color == RED && c'.up == c.up
      ensures SameContents(Plug(c, t), Plug(c', t')) && Depth(c') == Depth(c)
    {
      ToParent(Snapshot(), c, t, z);
      z' := z.parent;
      InnerToOuterLeft(c, t);
      LeftRotateAt(z', c.up, Up(c, t));
      ghost var q := RotatedLeft(Up(c, t));
      ToLeft(Snapshot(), c.up, q, z);
      c', t' := ViaLeft(c.up, q.id, q.val, q.color, q.right), q.left;
    }

    /** One round of the insertion loop when the parent is a left child. */
    method InsertRoundLeft(z: RBNode?, ghost c: Spine, ghost t: Shape)
      returns (z': RBNode?, ghost c': Spine, ghost t': Shape)
      requires At(c, t, z) && RedAt(c, t) && c != Top && c.color == RED && c.up.ViaLeft?
      modifies `root, nodes`left, nodes`right, nodes`parent, nodes`color
      ensures At(c', t', z') && RedAt(c', t') && Depth(c') < Depth(c)
      ensures SameContents(Plug(c, t), Plug(c', t'))
    {
      z', c', t' := z, c, t;
      UncleRead(Snapshot(), c, t, z);
      var y := z.parent.parent.right;
      if y.color == RED {
        PushedDownRedAt(c, t);
        z' := PushDown(z, y, c, t);
        c', t' := c.up.up, PushedDown(c, t);
      } else {
        if z == z.parent.right {
          z', c', t' := TurnOuterLeft(z, c, t);
        }
        c' := FinishLeft(z', c', t');
      }
    }

    /** Case 3: the node in focus and its parent are right children. */
    method FinishRight(z: RBNode?, ghost c: Spine, ghost t: Shape) returns (ghost c': Spine)
      requires At(c, t, z) && RedAt(c, t) && c.ViaRight? && c.color == RED && c.up.ViaRight?
      requires ColorOf(c.up.sibling) == BLACK
      modifies `root, nodes`right, nodes`left, nodes`parent, nodes`color
      ensures At(c', t, z) && RedAt(c', t) && c' != Top && Depth(c') < Depth(c)
      ensures SameContents(Plug(c, t), Plug(c', t))
    {
      FinishingColors(z, c, t);
      LeftRotateAt(z.parent.parent, c.up.up, Outer(c, t));
      OuterLeft(c, t);
      c' := FinishedRight(c, t);
      FinishedRightView(Snapshot(), c, t, z);
    }

    /** Case 2: turns a red left child of a red right child outward. */
    method TurnOuterRight(z: RBNode?, ghost c: Spine, ghost t: Shape)
      returns (z': RBNode?, ghost c': Spine, ghost t': Shape)
      requires At(c, t, z) && RedAt(c, t) && c.ViaLeft? && c.color == RED && c.up.ViaRight?
      modifies `root, nodes`right, nodes`left, nodes`parent
      ensures At(c', t', z') && RedAt(c', t') && c'.ViaRight? && c'.color == RED && c'.up == c.up
      ensures SameContents(Plug(c, t), Plug(c', t')) && Depth(c') == Depth(c)
    {
      ToParent(Snapshot(), c, t, z);
      z' := z.parent;
      InnerToOuterRight(c, t);
      RightRotateAt(z', c.up, Up(c, t));
      ghost var q := RotatedRight(Up(c, t));
      ToRight(Snapshot(), c.up, q, z);
      c', t' := ViaRight(c.up, q.id, q.val, q.color, q.left), q.right;
    }

    /** One round of the insertion loop when the parent is a right child. */
    method InsertRoundRight(z: RBNode?, ghost c: Spine, ghost t: Shape)
      returns (z': RBNode?, ghost c': Spine, ghost t': Shape)
      requires At(c, t, z) && RedAt(c, t) && c != Top && c.color == RED && c.up.ViaRight?
      modifies `root, nodes`right, nodes`left, nodes`parent, nodes`color
      ensures At(c', t', z') && RedAt(c', t') && Depth(c') < Depth(c)
      ensures SameContents(Plug(c, t), Plug(c', t'))
    {
      z', c', t' := z, c, t;
      UncleRead(Snapshot(), c, t, z);
      var y := z.parent.parent.left;
      if y.color == RED {
        PushedDownRedAt(c, t);
        z' := PushDown(z, y, c, t);
        c', t' := c.up.up, PushedDown(c, t);
      } else {
        if z == z.parent.left {
          z', c', t' := TurnOuterRight(z, c, t);
        }
        c' := FinishRight(z', c', t');
      }
    }

    /** The body of the insertion loop. */
    method InsertRound(z: RBNode?, ghost c: Spine, ghost t: Shape)
      returns (z': RBNode?, ghost c': Spine, ghost t': Shape)
      requires At(c, t, z) && RedAt(c, t) && ParentColor(c) == RED
      modifies `root, nodes`left, nodes`right, nodes`parent, nodes`color
      ensures At(c', t', z') && RedAt(c', t') && Depth(c') < Depth(c)
      ensures SameContents(Plug(c, t), Plug(c', t'))
    {
      UncleRead(Snapshot(), c, t, z);
      if z.parent == z.parent.parent.left {
        z', c', t' := InsertRoundLeft(z, c, t);
      } else {
        z', c', t' := InsertRoundRight(z, c, t);
      }
    }

    /** Repairs the colours after a red node came in at the lower end of `c`. */
    method InsertFixup(node: RBNode?, ghost c0: Spine, ghost t0: Shape)
      returns (ghost whole: Shape)
      requires At(c0, t0, node) && RedAt(c0, t0)
      modifies `root, nodes`left, nodes`right, nodes`parent, nodes`color
      ensures At(Top, whole, root) && RedBlack(whole) && SameContents(Plug(c0, t0), whole)
    {
      var z := node;
      ghost var c, t := c0, t0;
      ToParentColor(Snapshot(), c, t, z);
      while z.parent.color == RED
        invariant At(c, t, z) && RedAt(c, t) && z != null && z.parent in nodes && nil in nodes
        invariant z.parent.color == ParentColor(c)
        invariant SameContents(Plug(c0, t0), Plug(c, t))
        decreases Depth(c)
      {
        z, c, t := InsertRound(z, c, t);
        ToParentColor(Snapshot(), c, t, z);
      }
      whole := BlackenRoot(z, c, t);
    }

    /** The last statement of the insertion fixup. */
    method BlackenRoot(z: RBNode?, ghost c: Spine, ghost t: Shape) returns (ghost whole: Shape)
      requires At(c, t, z) && RedAt(c, t) && ParentColor(c) == BLACK
      modifies nodes`color
      ensures At(Top, whole, root) && RedBlack(whole) && SameContents(Plug(c, t), whole)
    {
      ToTop(Snapshot(), c, t, z);
      PlugBalanced(c, t);
      PlugNoRedRed(c, t);
      PlugLeaf(c, t);
      Paint(root, BLACK, Top, Plug(c, t));
      whole := Painted(Plug(c, t), BLACK);
    }

    // ----- deletion -----

    /** Case 1: brings up the red sibling `w` of the left child in focus. */
    method SiblingUpLeftAt(x: RBNode?, w: RBNode?, ghost c: Spine, ghost t: Shape) returns (ghost c': Spine)
      requires c.ViaLeft? && At(c, t, x) && x.parent == c.id && Short(c, t)
      requires c.sibling.Node? && c.sibling.color == RED && w == c.sibling.id
      modifies `root, nodes`left, nodes`right, nodes`parent, nodes`color
      ensures c'.ViaLeft? && c'.id == c.id && At(c', t, x) && x.parent == c'.id && Short(c', t)
      ensures c'.sibling.Node? && c'.sibling.color == BLACK && Depth(c') == Depth(c) + 1
      ensures c'.color == RED && SameContents(Plug(c, t), Plug(c', t))
    {
      RaisingColorsLeft(x, w, c, t);
      LeftRotateAt(x.parent, c.up, SiblingUpLeft(c, t));
      SiblingUpLeftShort(c, t);
      c' := RaisedLeft(c, t);
      RaisedLeftView(Snapshot(), c, t);
    }

    /** The colour changes of case 1. */
    method RaisingColorsLeft(x: RBNode?, w: RBNode?, ghost c: Spine, ghost t: Shape)
      requires c.ViaLeft? && At(c, t, x) && x.parent == c.id && c.sibling.Node? && w == c.sibling.id
      modifies nodes`color
      ensures At(c.up, SiblingUpLeft(c, t), c.id)
    {
      ToSibling(Snapshot(), c, t, x);
      Paint(w, BLACK, Across(c, t), c.sibling);
      ghost var c1 := WithSibling(c, Painted(c.sibling, BLACK));
      ToParent(Snapshot(), Across(c1, t), c1.sibling, w);
      Paint(x.parent, RED, c.up, Up(c1, t));
    }

    /** Case 3: turns the sibling `w`, whose inner child is red, over. */
    method SiblingTurnedLeftAt(x: RBNode?, w: RBNode?, ghost c: Spine, ghost t: Shape) returns (ghost c': Spine)
      requires c.ViaLeft? && At(c, t, x) && x.parent == c.id && Short(c, t)
      requires c.sibling.Node? && c.sibling.color == BLACK && w == c.sibling.id
      requires ColorOf(c.sibling.right) == BLACK && ColorOf(c.sibling.left) == RED
      modifies `root, nodes`left, nodes`right, nodes`parent, nodes`color
      ensures c'.ViaLeft? && c'.id == c.id && At(c', t, x) && x.parent == c'.id && Short(c', t)
      ensures c'.sibling.Node? && c'.sibling.color == BLACK && ColorOf(c'.sibling.right) == RED
      ensures Depth(c') == Depth(c) && SameContents(Plug(c, t), Plug(c', t))
    {
      ghost var s, b := c.sibling, Across(c, t);
      ToSibling(Snapshot(), c, t, x);
      PaintLeft(w, BLACK, b, s);
      Paint(w, RED, b, s.(left := Painted(s.left, BLACK)));
      RightRotateAt(w, b, SiblingTurnedLeft(s));
      SiblingTurnedLeftShort(c, t);
      c' := WithSibling(c, RotatedRight(SiblingTurnedLeft(s)));
      ToSibling(Snapshot(), b, c'.sibling, c'.sibling.id);
    }

    /** Case 4: the sibling `w` takes the parent's colour and comes up; nothing is short any more. */
    method SiblingPaysLeftAt(x: RBNode?, w: RBNode?, ghost c: Spine, ghost t: Shape) returns (ghost whole: Shape)
      requires c.ViaLeft? && At(c, t, x) && x.parent == c.id && Short(c, t) && ColorOf(t) == BLACK
      requires c.sibling.Node? && c.sibling.color == BLACK && w == c.sibling.id && ColorOf(c.sibling.right) == RED
      modifies `root, nodes`left, nodes`right, nodes`parent, nodes`color
      ensures At(Top, whole, root) && whole.Node? && RedBlack(whole) && SameContents(Plug(c, t), whole)
    {
      PayingColorsLeft(x, w, c, t);
      LeftRotateAt(x.parent, c.up, SiblingPaysLeft(c, t));
      SiblingPaysLeftDone(c, t);
      ghost var r := RotatedLeft(SiblingPaysLeft(c, t));
      ToTop(Snapshot(), c.up, r, r.id);
      whole := Plug(c.up, r);
    }

    /** The colour changes of case 4. */
    method PayingColorsLeft(x: RBNode?, w: RBNode?, ghost c: Spine, ghost t: Shape)
      requires c.ViaLeft? && At(c, t, x) && x.parent == c.id
      requires c.sibling.Node? && w == c.sibling.id && c.sibling.right.Node?
      modifies nodes`color
      ensures At(c.up, SiblingPaysLeft(c, t), c.id)
    {
      ghost var b, s := Across(c, t), Painted(c.sibling, c.color);
      ToSibling(Snapshot(), c, t, x);
      ToParent(Snapshot(), c, t, x);
      ColorRead(Snapshot(), c.up, Up(c, t), x.parent);
      PaintSibling(x, w, x.parent.color, c, t);
      PaintParent(w, BLACK, b, s);
      ghost var d: Spine := ViaRight(c.up, c.id, c.val, BLACK, t);
      ToRight(Snapshot(), c.up, Painted(Up(b, s), BLACK), c.id);
      PaintRight(w, BLACK, d, s);
      ToParent(Snapshot(), d, s.(right := Painted(s.right, BLACK)), w);
    }

    /** Case 1: brings up the red sibling `w` of the right child in focus. */
    method SiblingUpRightAt(x: RBNode?, w: RBNode?, ghost c: Spine, ghost t: Shape) returns (ghost c': Spine)
      requires c.ViaRight? && At(c, t, x) && x.parent == c.id && Short(c, t)
      requires c.sibling.Node? && c.sibling.color == RED && w == c.sibling.id
      modifies `root, nodes`right, nodes`left, nodes`parent, nodes`color
      ensures c'.ViaRight? && c'.id == c.id && At(c', t, x) && x.parent == c'.id && Short(c', t)
      ensures c'.sibling.Node? && c'.sibling.color == BLACK && Depth(c') == Depth(c) + 1
      ensures c'.color == RED && SameContents(Plug(c, t), Plug(c', t))
    {
      RaisingColorsRight(x, w, c, t);
      RightRotateAt(x.parent, c.up, SiblingUpRight(c, t));
      SiblingUpRightShort(c, t);
      c' := RaisedRight(c, t);
      RaisedRightView(Snapshot(), c, t);
    }

    /** The colour changes of case 1. */
    method RaisingColorsRight(x: RBNode?, w: RBNode?, ghost c: Spine, ghost t: Shape)
      requires c.ViaRight? && At(c, t, x) && x.parent == c.id && c.sibling.Node? && w == c.sibling.id
      modifies nodes`color
      ensures At(c.up, SiblingUpRight(c, t), c.id)
    {
      ToSibling(Snapshot(), c, t, x);
      Paint(w, BLACK, Across(c, t), c.sibling);
      ghost var c1 := WithSibling(c, Painted(c.sibling, BLACK));
      ToParent(Snapshot(), Across(c1, t), c1.sibling, w);
      Paint(x.parent, RED, c.up, Up(c1, t));
    }

    /** Case 3: turns the sibling `w`, whose inner child is red, over. */
    method SiblingTurnedRightAt(x: RBNode?, w: RBNode?, ghost c: Spine, ghost t: Shape) returns (ghost c': Spine)
      requires c.ViaRight? && At(c, t, x) && x.parent == c.id && Short(c, t)
      requires c.sibling.Node? && c.sibling.color == BLACK && w == c.sibling.id
      requires ColorOf(c.sibling.left) == BLACK && ColorOf(c.sibling.right) == RED
      modifies `root, nodes`right, nodes`left, nodes`parent, nodes`color
      ensures c'.ViaRight? && c'.id == c.id && At(c', t, x) && x.parent == c'.id && Short(c', t)
      ensures c'.sibling.Node? && c'.sibling.color == BLACK && ColorOf(c'.sibling.left) == RED
      ensures Depth(c') == Depth(c) && SameContents(Plug(c, t), Plug(c', t))
    {
      ghost var s, b := c.sibling, Across(c, t);
      ToSibling(Snapshot(), c, t, x);
      PaintRight(w, BLACK, b, s);
      Paint(w, RED, b, s.(right := Painted(s.right, BLACK)));
      LeftRotateAt(w, b, SiblingTurnedRight(s));
      SiblingTurnedRightShort(c, t);
      c' := WithSibling(c, RotatedLeft(SiblingTurnedRight(s)));
      ToSibling(Snapshot(), b, c'.sibling, c'.sibling.id);
    }

    /** Case 4: the sibling `w` takes the parent's colour and comes up; nothing is short any more. */
    method SiblingPaysRightAt(x: RBNode?, w: RBNode?, ghost c: Spine, ghost t: Shape) returns (ghost whole: Shape)
      requires c.ViaRight? && At(c, t, x) && x.parent == c.id && Short(c, t) && ColorOf(t) == BLACK
      requires c.sibling.Node? && c.sibling.color == BLACK && w == c.sibling.id && ColorOf(c.sibling.left) == RED
      modifies `root, nodes`right, nodes`left, nodes`parent, nodes`color
      ensures At(Top, whole, root) && whole.Node? && RedBlack(whole) && SameContents(Plug(c, t), whole)
    {
      PayingColorsRight(x, w, c, t);
      RightRotateAt(x.parent, c.up, SiblingPaysRight(c, t));
      SiblingPaysRightDone(c, t);
      ghost var r := RotatedRight(SiblingPaysRight(c, t));
      ToTop(Snapshot(), c.up, r, r.id);
      whole := Plug(c.up, r);
    }

    /** The colour changes of case 4. */
    method PayingColorsRight(x: RBNode?, w: RBNode?, ghost c: Spine, ghost t: Shape)
      requires c.ViaRight? && At(c, t, x) && x.parent == c.id
      requires c.sibling.Node? && w == c.sibling.id && c.sibling.left.Node?
      modifies nodes`color
      ensures At(c.up, SiblingPaysRight(c, t), c.id)
    {
      ghost var b, s := Across(c, t), Painted(c.sibling, c.color);
      ToSibling(Snapshot(), c, t, x);
      ToParent(Snapshot(), c, t, x);
      ColorRead(Snapshot(), c.up, Up(c, t), x.parent);
      PaintSibling(x, w, x.parent.color, c, t);
      PaintParent(w, BLACK, b, s);
      ghost var d: Spine := ViaLeft(c.up, c.id, c.val, BLACK, t);
      ToLeft(Snapshot(), c.up, Painted(Up(b, s), BLACK), c.id);
      PaintLeft(w, BLACK, d, s);
      ToParent(Snapshot(), d, s.(left := Painted(s.left, BLACK)), w);
    }

    /** The node in focus, even when it is `nil`, names its parent. */
    ghost predicate Hangs(c: Spine, t: Shape, x: RBNode?)
      reads `root, `nil, `nodes, nodes
    {
      At(c, t, x) && x != null && x in nodes && (c != Top ==> x.parent == c.id)
    }

    /** Case 2: the sibling `w`, black with black children, turns red. */
    method SiblingReddened(x: RBNode?, w: RBNode?, ghost c: Spine, ghost t: Shape) returns (x': RBNode?)
      requires c != Top && At(c, t, x) && x.parent == c.id && c.sibling.Node? && w == c.sibling.id
      modifies nodes`color
      ensures x' == x.parent && Hangs(c.up, Up(WithSibling(c, Painted(c.sibling, RED)), t), x')
    {
      ToSibling(Snapshot(), c, t, x);
      Paint(w, RED, Across(c, t), c.sibling);
      ghost var c1 := WithSibling(c, Painted(c.sibling, RED));
      ToParent(Snapshot(), Across(c1, t), c1.sibling, w);
      x' := x.parent;
      ToParentColor(Snapshot(), c.up, Up(c1, t), x');
    }

    /** Cases 2 to 4 for a left child in focus: its sibling `w0` is black. */
    method BlackSiblingLeft(x: RBNode?, w0: RBNode?, ghost c: Spine, ghost t: Shape)
      returns (x': RBNode?, ghost c': Spine, ghost t': Shape)
      requires c.ViaLeft? && At(c, t, x) && x.parent == c.id && Short(c, t) && ColorOf(t) == BLACK
      requires c.sibling.Node? && c.sibling.color == BLACK && w0 == c.sibling.id
      modifies `root, nodes`left, nodes`right, nodes`parent, nodes`color
      ensures Hangs(c', t', x') && Short(c', t') && SameContents(Plug(c, t), Plug(c', t'))
      ensures c' == Top || (c' == c.up && ColorOf(t') == c.color)
    {
      var w := w0;
      SiblingRead(Snapshot(), c, t, x);
      if w.left.color == BLACK && w.right.color == BLACK {
        SiblingReddenedShort(c, t);
        x' := SiblingReddened(x, w, c, t);
        c', t' := c.up, Up(WithSibling(c, Painted(c.sibling, RED)), t);
      } else {
        c' := c;
        if w.right.color == BLACK {
          c' := SiblingTurnedLeftAt(x, w, c, t);
          SiblingRead(Snapshot(), c', t, x);
          w := x.parent.right;
        }
        t' := SiblingPaysLeftAt(x, w, c', t);
        c' := Top;
        x' := root;
      }
    }

    /** One round of the deletion loop when the node in focus is a left child. */
    method DeleteRoundLeft(x: RBNode?, ghost c: Spine, ghost t: Shape)
      returns (x': RBNode?, ghost c': Spine, ghost t': Shape)
      requires c.ViaLeft? && At(c, t, x) && x.parent == c.id && Short(c, t) && ColorOf(t) == BLACK
      modifies `root, nodes`left, nodes`right, nodes`parent, nodes`color
      ensures Hangs(c', t', x') && Short(c', t') && SameContents(Plug(c, t), Plug(c', t'))
      ensures 2 * Depth(c') + Weight(ColorOf(t')) < 2 * Depth(c) + 1
    {
      c' := c;
      SiblingIsNode(c, t);
      SiblingRead(Snapshot(), c, t, x);
      var w := x.parent.right;
      if w.color == RED {
        c' := SiblingUpLeftAt(x, w, c, t);
        SiblingRead(Snapshot(), c', t, x);
        w := x.parent.right;
      }
      x', c', t' := BlackSiblingLeft(x, w, c', t);
    }

    /** Cases 2 to 4 for a right child in focus: its sibling `w0` is black. */
    method BlackSiblingRight(x: RBNode?, w0: RBNode?, ghost c: Spine, ghost t: Shape)
      returns (x': RBNode?, ghost c': Spine, ghost t': Shape)
      requires c.ViaRight? && At(c, t, x) && x.parent == c.id && Short(c, t) && ColorOf(t) == BLACK
      requires c.sibling.Node? && c.sibling.color == BLACK && w0 == c.sibling.id
      modifies `root, nodes`right, nodes`left, nodes`parent, nodes`color
      ensures Hangs(c', t', x') && Short(c', t') && SameContents(Plug(c, t), Plug(c', t'))
      ensures c' == Top || (c' == c.up && ColorOf(t') == c.color)
    {
      var w := w0;
      SiblingRead(Snapshot(), c, t, x);
      if w.right.color == BLACK && w.left.color == BLACK {
        SiblingReddenedShort(c, t);
        x' := SiblingReddened(x, w, c, t);
        c', t' := c.up, Up(WithSibling(c, Painted(c.sibling, RED)), t);
      } else {
        c' := c;
        if w.left.color == BLACK {
          c' := SiblingTurnedRightAt(x, w, c, t);
          SiblingRead(Snapshot(), c', t, x);
          w := x.parent.left;
        }
        t' := SiblingPaysRightAt(x, w, c', t);
        c' := Top;
        x' := root;
      }
    }

    /** One round of the deletion loop when the node in focus is a right child. */
    method DeleteRoundRight(x: RBNode?, ghost c: Spine, ghost t: Shape)
      returns (x': RBNode?, ghost c': Spine, ghost t': Shape)
      requires c.ViaRight? && At(c, t, x) && x.parent == c.id && Short(c, t) && ColorOf(t) == BLACK
      modifies `root, nodes`right, nodes`left, nodes`parent, nodes`color
      ensures Hangs(c', t', x') && Short(c', t') && SameContents(Plug(c, t), Plug(c', t'))
      ensures 2 * Depth(c') + Weight(ColorOf(t')) < 2 * Depth(c) + 1
    {
      c' := c;
      SiblingIsNode(c, t);
      SiblingRead(Snapshot(), c, t, x);
      var w := x.parent.left;
      if w.color == RED {
        c' := SiblingUpRightAt(x, w, c, t);
        SiblingRead(Snapshot(), c', t, x);
        w := x.parent.left;
      }
      x', c', t' := BlackSiblingRight(x, w, c', t);
    }

    /** The body of the deletion loop. */
    method DeleteRound(x: RBNode?, ghost c: Spine, ghost t: Shape)
      returns (x': RBNode?, ghost c': Spine, ghost t': Shape)
      requires Hangs(c, t, x) && c != Top && Short(c, t) && ColorOf(t) == BLACK
      modifies `root, nodes`left, nodes`right, nodes`parent, nodes`color
      ensures Hangs(c', t', x') && Short(c', t') && SameContents(Plug(c, t), Plug(c', t'))
      ensures 2 * Depth(c') + Weight(ColorOf(t')) < 2 * Depth(c) + 1
    {
      SideRead(Snapshot(), c, t, x);
      SiblingIsNode(c, t);
      if x == x.parent.left {
        x', c', t' := DeleteRoundLeft(x, c, t);
      } else {
        x', c', t' := DeleteRoundRight(x, c, t);
      }
    }

    /** Pays back the missing black node. */
    method DeleteFixup(node: RBNode?, ghost c0: Spine, ghost t0: Shape) returns (ghost whole: Shape)
      requires Hangs(c0, t0, node) && Short(c0, t0)
      modifies `root, nodes`left, nodes`right, nodes`parent, nodes`color
      ensures At(Top, whole, root) && RedBlack(whole) && SameContents(Plug(c0, t0), whole)
    {
      var x := node;
      ghost var c, t := c0, t0;
      ColorRead(Snapshot(), c, t, x);
      while x != root && x.color == BLACK
        invariant Hangs(c, t, x) && Short(c, t) && SameContents(Plug(c0, t0), Plug(c, t))
        invariant x.color == ColorOf(t) && x == RootId(Snapshot(), t)
        decreases 2 * Depth(c) + Weight(ColorOf(t))
      {
        x, c, t := DeleteRound(x, c, t);
        ColorRead(Snapshot(), c, t, x);
      }
      FocusSide(Snapshot(), c, t, x);
      whole := BlackenAt(x, c, t);
    }

    /** The last statement of the deletion fixup. */
    method BlackenAt(x: RBNode?, ghost c: Spine, ghost t: Shape) returns (ghost whole: Shape)
      requires At(c, t, x) && Short(c, t) && (c == Top || ColorOf(t) == RED)
      modifies x`color
      ensures At(Top, whole, root) && RedBlack(whole) && SameContents(Plug(c, t), whole)
    {
      ghost var h := Snapshot();
      BlackenView(h, c, t, x);
      x.color := BLACK;
      assert Snapshot() == SetColor(h, x, BLACK);
      ToTop(Snapshot(), c, Blackened(t), x);
      whole := Plug(c, Blackened(t));
      BlackenedDone(c, t);
    }

    // ----- the public operations -----

    constructor ()
      ensures Valid() && tree == Leaf && fresh(nodes)
    {
      var sentinel := new RBNode(-1);
      sentinel.color := BLACK;
      nil := sentinel;
      root := sentinel;
      nodes := {sentinel};
      tree := Leaf;
    }

    /** The number of comparisons is at most 2 * log2(n + 1) for n keys. */
    method Search(val: int) returns (found: bool, ghost steps: nat)
      requires Valid()
      ensures found <==> val in Keys(tree)
      ensures Pow2(steps) <= Squared(|Keys(tree)| + 1)
    {
      ghost var c, t;
      found, steps, c, t := SearchFrom(root, val);
      PathLength(c, t);
    }

    /** The loop of the search, with the rounds counted and the place where it ends. */
    method SearchFrom(start: RBNode?, val: int)
      returns (found: bool, ghost steps: nat, ghost c: Spine, ghost t: Shape)
      requires Valid() && start == root
      ensures found <==> val in Keys(tree)
      ensures Plug(c, t) == tree && steps == if t.Node? then Depth(c) + 1 else Depth(c)
    {
      var curr := start;
      ghost var h := Snapshot();
      steps, c, t := 0, Top, tree;
      ColorRead(h, c, t, curr);
      while curr != nil
        invariant View(h, c, t, curr) && Plug(c, t) == tree && curr == RootId(h, t)
        invariant steps == Depth(c)
        invariant val in Keys(tree) <==> val in Keys(t)
        decreases t
      {
        if curr.val == val {
          FocusSorted(c, t);
          return true, steps + 1, c, t;
        }
        c, t := SearchOn(h, c, t, curr, val);
        steps := steps + 1;
        if val < curr.val {
          curr := curr.left;
        } else {
          curr := curr.right;
        }
      }
      return false, steps, c, t;
    }

    /** The descent of an insertion: the node `y` under which `val` belongs. */
    method FindSlot(val: int) returns (y: RBNode?, ghost c: Spine)
      requires Valid()
      ensures At(c, Leaf, nil) && Plug(c, Leaf) == tree
      ensures y in nodes && y == Bottom(Snapshot(), c)
      ensures SlotFor(c, val)
    {
      y := nil;
      var x := root;
      ghost var h, t := Snapshot(), tree;
      c := Top;
      ColorRead(h, c, t, x);
      while x != nil
        invariant View(h, c, t, x) && Plug(c, t) == tree && x == RootId(h, t)
        invariant y == Bottom(h, c) && y in nodes && SlotFor(c, val)
        decreases t
      {
        y := x;
        c, t := SlotOn(h, c, t, x, val);
        if val < x.val {
          x := x.left;
        } else {
          x := x.right;
        }
      }
    }

    /** Adds one occurrence of `val`, behind every key that is not larger. */
    method Insert(val: int) returns (ghost at: nat)
      requires Valid()
      modifies this, nodes
      ensures Valid() && nil == old(nil) && fresh(nodes - old(nodes))
      ensures Inserted(old(Keys(tree)), val, at, Keys(tree))
    {
      var z := new RBNode(val);
      ghost var c;
      var y;
      y, c := FindSlot(val);
      at := AddNode(z, y, c);
    }

    /** Everything an insertion does once the place is found. */
    method AddNode(z: RBNode, y: RBNode?, ghost c: Spine) returns (ghost at: nat)
      requires Valid() && z !in nodes && z.color == RED
      requires At(c, Leaf, nil) && Plug(c, Leaf) == tree && SlotFor(c, z.val)
      requires y in nodes && y == Bottom(Snapshot(), c)
      modifies this, nodes, z
      ensures Valid() && nil == old(nil) && nodes == old(nodes) + {z}
      ensures Inserted(old(Keys(tree)), old(z.val), at, Keys(tree))
    {
      ghost var leaf: Shape := Node(z, z.val, RED, Leaf, Leaf);
      HangRedAt(c, z as RBNode?, z.val);
      SlotSide(c, z.val);
      at := HangKeys(c, tree, leaf);
      tree := HangAndFix(z, y, c);
    }

    method HangAndFix(z: RBNode, y: RBNode?, ghost c: Spine) returns (ghost whole: Shape)
      requires At(c, Leaf, nil) && z !in nodes && z.color == RED
      requires y in nodes && y == Bottom(Snapshot(), c) && nil in nodes
      requires c.ViaLeft? ==> z.val < c.val
      requires c.ViaRight? ==> c.val <= z.val
      requires RedAt(c, Node(z as RBNode?, z.val, RED, Leaf, Leaf))
      modifies `root, `nodes, z, nodes
      ensures nodes == old(nodes) + {z}
      ensures At(Top, whole, root) && RedBlack(whole)
      ensures SameContents(Plug(c, Node(z, old(z.val), RED, Leaf, Leaf)), whole)
    {
      HangNode(z, y, c);
      whole := InsertFixup(z, c, Node(z, z.val, RED, Leaf, Leaf));
    }

    /** Links the fresh node `z` under `y`. */
    method HangNode(z: RBNode, y: RBNode?, ghost c: Spine)
      requires At(c, Leaf, nil) && z !in nodes && z.color == RED
      requires y in nodes && y == Bottom(Snapshot(), c) && nil in nodes
      requires c.ViaLeft? ==> z.val < c.val
      requires c.ViaRight? ==> c.val <= z.val
      modifies `root, `nodes, z, y
      ensures nodes == old(nodes) + {z}
      ensures At(c, Node(z, z.val, RED, Leaf, Leaf), z) && z.val == old(z.val)
    {
      ghost var h := Snapshot();
      BottomFields(h, c, nil);
      LinkNode(z, y, c);
      HangView(h, Snapshot(), c, z, z.val);
    }

    /** The field writes of an insertion. */
    method LinkNode(z: RBNode, y: RBNode?, ghost c: Spine)
      requires z !in nodes && z.color == RED && y in nodes && y == Bottom(Snapshot(), c) && nil in nodes
      requires c != Top ==> c.id in nodes && c.id != nil && Snapshot().cells[c.id].val == c.val
      requires c.ViaLeft? ==> z.val < c.val
      requires c.ViaRight? ==> c.val <= z.val
      modifies `root, `nodes, z, y
      ensures nodes == old(nodes) + {z} && z.val == old(z.val)
      ensures Hung(old(Snapshot()), Snapshot(), c, z, z.val)
    {
      z.parent := y;
      if y == nil {
        root := z;
      } else if z.val < y.val {
        y.left := z;
      } else {
        y.right := z;
      }
      z.left := nil;
      z.right := nil;
      nodes := nodes + {z};
    }

    /** Makes `v` the child of `u`'s parent in the place of `u`. */
    method Transplant(u: RBNode?, v: RBNode?, ghost c: Spine)
      requires nil in nodes && u != nil && u in nodes && v in nodes
      requires Linked(Snapshot(), c, u) && (c != Top ==> c.id != v)
      modifies `root, nodes`left, nodes`right, nodes`parent
      ensures Relinked(old(Snapshot()), Snapshot(), c, v)
    {
      if u.parent == nil {
        root := v;
      } else if u == u.parent.left {
        u.parent.left := v;
      } else {
        u.parent.right := v;
      }
      v.parent := u.parent;
    }

    /** The leftmost node of the subtree, with the path down to it. */
    method Minimum(node: RBNode?, ghost c: Spine, ghost t: Shape)
      returns (m: RBNode?, ghost inner: Spine, ghost s: Shape)
      requires At(c, t, node) && t.Node?
      ensures At(Join(inner, c), s, m) && s.Node? && s.left == Leaf && s.id == m
      ensures Plug(inner, s) == t && Before(inner) == []
      ensures m in nodes && m.left == nil && [m.val] <= Keys(t)
    {
      m := node;
      inner, s := Top, t;
      ToLeft(Snapshot(), c, t, m);
      ColorRead(Snapshot(), c, t, m);
      while m.left != nil
        invariant m in nodes && At(Join(inner, c), s, m) && s.Node? && s.id == m
        invariant Plug(inner, s) == t && Before(inner) == []
        invariant m.left == nil <==> s.left == Leaf
        decreases s
      {
        ToLeft(Snapshot(), Join(inner, c), s, m);
        ColorRead(Snapshot(), ViaLeft(Join(inner, c), s.id, s.val, s.color, s.right), s.left, m.left);
        m := m.left;
        inner, s := ViaLeft(inner, s.id, s.val, s.color, s.right), s.left;
        ToLeft(Snapshot(), Join(inner, c), s, m);
        ColorRead(Snapshot(), ViaLeft(Join(inner, c), s.id, s.val, s.color, s.right), s.left, m.left);
      }
      LeftmostKeys(inner, s);
    }

    /** The search of a removal: the topmost node holding `val`, or `nil`. */
    method FindNode(val: int) returns (z: RBNode?, ghost c: Spine, ghost t: Shape)
      requires Valid()
      ensures At(c, t, z) && Plug(c, t) == tree && z in nodes
      ensures z == nil <==> t == Leaf
      ensures t.Node? ==> t.val == val && t.id == z
      ensures t == Leaf <==> val !in Keys(tree)
    {
      z := root;
      ghost var h := Snapshot();
      c, t := Top, tree;
      ColorRead(h, c, t, z);
      while z != nil
        invariant View(h, c, t, z) && Plug(c, t) == tree && z == RootId(h, t)
        invariant val in Keys(tree) <==> val in Keys(t)
        decreases t
      {
        if z.val == val {
          break;
        }
        c, t := SearchOn(h, c, t, z, val);
        if val < z.val {
          z := z.left;
        } else {
          z := z.right;
        }
      }
      ColorRead(h, c, t, z);
    }

    /** The first two cases of a removal: `z` has at most the one child `x`. */
    method SpliceOut(z: RBNode?, x: RBNode?, ghost c: Spine, ghost t: Shape, ghost sub: Shape)
      requires At(c, t, z) && t.Node?
      requires (sub == t.right && t.left == Leaf) || (sub == t.left && t.right == Leaf)
      requires x == RootId(Snapshot(), sub) && x in nodes
      modifies `root, nodes`left, nodes`right, nodes`parent
      ensures Hangs(c, sub, x)
    {
      ghost var h := Snapshot();
      ToParentColor(h, c, t, z);
      FocusSide(h, c, t, z);
      PathIdsInCells(h, c, z);
      Transplant(z, x, c);
      SpliceView(h, Snapshot(), c, t, z, sub);
    }

    /** Links the detached node `y` in for `z`; the right subtree has been taken care of. */
    method TakePlace(z: RBNode?, y: RBNode?, ghost c: Spine)
      requires nil in nodes && z in nodes && y in nodes && Placeable(Snapshot(), c, z, y)
      modifies `root, nodes`left, nodes`right, nodes`parent, nodes`color
      ensures Seated(old(Snapshot()), Snapshot(), c, z, y, old(z.left))
      ensures nil.parent == old(nil.parent)
    {
      Transplant(z, y, c);
      y.left := z.left;
      y.left.parent := y;
      y.color := z.color;
      assert Snapshot().cells[nil] == old(Snapshot()).cells[nil];
    }

    /** The third case of a removal, for a node with two children. */
    method ReplaceBySuccessor(z: RBNode?, ghost c: Spine, ghost t: Shape)
      returns (x: RBNode?, k: Color, ghost inner: Spine, ghost s: Shape)
      requires At(c, t, z) && t.Node? && t.left.Node? && t.right.Node?
      modifies `root, nodes`left, nodes`right, nodes`parent, nodes`color
      ensures s.Node? && s.left == Leaf && t.right == Plug(inner, s) && Before(inner) == []
      ensures k == s.color && Hangs(SuccessorPath(c, t, inner, s), s.right, x)
    {
      ghost var d: Spine := ViaRight(c, t.id, t.val, t.color, t.left);
      ToRight(Snapshot(), c, t, z);
      ColorRead(Snapshot(), d, t.right, z.right);
      var y;
      y, inner, s := Minimum(z.right, d, t.right);
      SuccessorNodes(Snapshot(), c, t, z, inner, s);
      k := y.color;
      x := y.right;
      if y.parent == z {
        SuccessorBelow(z, y, x, c, t);
      } else {
        SuccessorDeep(z, y, x, c, t, inner, s);
      }
      BelowSuccessor(Snapshot(), c, t, inner, s);
    }

    /** The successor is the right child itself. */
    method SuccessorBelow(z: RBNode?, y: RBNode?, x: RBNode?, ghost c: Spine, ghost t: Shape)
      requires At(c, t, z) && t.Node? && t.left.Node? && t.right.Node? && t.right.left == Leaf
      requires y == t.right.id && x == RootId(Snapshot(), t.right.right) && y in nodes && x in nodes
      modifies `root, nodes`left, nodes`right, nodes`parent, nodes`color
      ensures At(c, Node(t.right.id, t.right.val, t.color, t.left, t.right.right), y) && x.parent == y
    {
      ghost var h := Snapshot();
      x.parent := y;
      ghost var g := Snapshot();
      BelowNodes(h, g, c, t, z, x);
      TakePlace(z, y, c);
      BelowView(h, g, Snapshot(), c, t, z, x);
    }

    /** The successor lies deeper: it is taken out of the right subtree first. */
    method SuccessorDeep(z: RBNode?, y: RBNode?, x: RBNode?, ghost c: Spine, ghost t: Shape,
                         ghost inner: Spine, ghost s: Shape)
      requires At(c, t, z) && t.Node? && t.left.Node? && s.Node? && s.left == Leaf && t.right == Plug(inner, s)
      requires inner != Top && y == s.id && x == RootId(Snapshot(), s.right)
      modifies `root, nodes`left, nodes`right, nodes`parent, nodes`color
      ensures At(c, Node(s.id, s.val, t.color, t.left, Plug(inner, s.right)), y)
      ensures x in nodes && (x == nil ==> x.parent == inner.id)
    {
      ghost var rest := Plug(inner, s.right);
      DeepSuccessor(Snapshot(), c, t, z, inner, s);
      TakeOut(y, x, ViaRight(c, t.id, t.val, t.color, t.left), inner, s);
      PutBack(z, y, c, t, rest);
    }

    /** Takes the leftmost node `y` out of the subtree below `d`. */
    method TakeOut(y: RBNode?, x: RBNode?, ghost d: Spine, ghost inner: Spine, ghost s: Shape)
      requires At(Join(inner, d), s, y) && s.Node? && s.left == Leaf && inner != Top
      requires x == RootId(Snapshot(), s.right) && x in nodes
      modifies `root, nodes`left, nodes`right, nodes`parent
      ensures At(d, Plug(inner, s.right), RootId(Snapshot(), Plug(inner, s.right)))
      ensures x == nil ==> x.parent == inner.id
    {
      SpliceOut(y, x, Join(inner, d), s, s.right);
      Ascend(Snapshot(), d, inner, s.right);
    }

    /** The detached node `y` takes over both children of `z`, and its place. */
    method PutBack(z: RBNode?, y: RBNode?, ghost c: Spine, ghost t: Shape, ghost rest: Shape)
      requires t.Node? && t.left.Node? && rest.Node?
      requires At(ViaRight(c, t.id, t.val, t.color, t.left), rest, rest.id) && t.id == z
      requires y in nodes && y != nil && y != z && y !in PathIds(c) && y !in Ids(t.left) && y !in Ids(rest)
      modifies `root, nodes`left, nodes`right, nodes`parent, nodes`color
      ensures At(c, Node(y, y.val, t.color, t.left, rest), y)
      ensures nil.parent == old(nil.parent)
    {
      ghost var h := Snapshot();
      ghost var t': Shape := Node(t.id, t.val, t.color, t.left, rest);
      ToParent(h, ViaRight(c, t.id, t.val, t.color, t.left), rest, rest.id);
      ReplaceNodes(h, c, t', z, y);
      TakeRight(z, y);
      ghost var g := Snapshot();
      TakenNodes(h, g, c, t', z, y);
      TakePlace(z, y, c);
      SeatedView(h, g, Snapshot(), c, t', z, y);
    }

    /** The detached node `y` takes over the right child of `z`. */
    method TakeRight(z: RBNode?, y: RBNode?)
      requires nil in nodes && z in nodes && y in nodes && z != null && y != null
      requires z.right in nodes && z.right != null && z.right != y && z != y
      modifies nodes`right, nodes`parent
      ensures RightTaken(old(Snapshot()), Snapshot(), y, old(z.right))
    {
      y.right := z.right;
      y.right.parent := y;
    }

    /** Takes `z` out of the tree; `k` is the colour its place, or its successor's, loses. */
    method Detach(z: RBNode?, ghost c: Spine, ghost t: Shape)
      returns (x: RBNode?, k: Color, ghost c': Spine, ghost t': Shape, ghost at: nat)
      requires At(c, t, z) && t.Node? && RedBlack(Plug(c, t))
      modifies `root, nodes`left, nodes`right, nodes`parent, nodes`color
      ensures Hangs(c', t', x)
      ensures k == BLACK ==> Short(c', t')
      ensures k == RED ==> RedBlack(Plug(c', t'))
      ensures Removed(Keys(Plug(c, t)), t.val, at, Keys(Plug(c', t')))
      ensures Ids(Plug(c, t)) == Ids(Plug(c', t')) + {t.id} && t.id !in Ids(Plug(c', t'))
    {
      PlugDistinct(c, t);
      ColorRead(Snapshot(), c, t, z);
      ToLeft(Snapshot(), c, t, z);
      ToRight(Snapshot(), c, t, z);
      ColorRead(Snapshot(), ViaLeft(c, t.id, t.val, t.color, t.right), t.left, z.left);
      ColorRead(Snapshot(), ViaRight(c, t.id, t.val, t.color, t.left), t.right, z.right);
      k := z.color;
      c' := c;
      if z.left == nil {
        x := z.right;
        t' := t.right;
        at := SpliceShape(c, t, t');
        SpliceOut(z, x, c, t, t');
      } else if z.right == nil {
        x := z.left;
        t' := t.left;
        at := SpliceShape(c, t, t');
        SpliceOut(z, x, c, t, t');
      } else {
        ghost var inner, s;
        x, k, inner, s := ReplaceBySuccessor(z, c, t);
        c', t' := SuccessorPath(c, t, inner, s), s.right;
        at := SuccessorKeys(c, t, inner, s);
        SuccessorColors(c, t, inner, s);
        SuccessorIds(c, t, inner, s);
      }
    }

    /** Removes the topmost occurrence of `val`, if there is one. */
    method Remove(val: int) returns (ghost at: nat)
      requires Valid()
      modifies this, nodes
      ensures Valid() && nil == old(nil) && nodes <= old(nodes)
      ensures val in old(Keys(tree)) ==> Removed(old(Keys(tree)), val, at, Keys(tree))
      ensures val !in old(Keys(tree)) ==> tree == old(tree) && Snapshot() == old(Snapshot())
    {
      ghost var c, t;
      var z;
      z, c, t := FindNode(val);
      if z == nil {
        return 0;
      }
      at := RemoveFound(z, c, t);
    }

    /** The removal once the node is found. */
    method RemoveFound(z: RBNode?, ghost c: Spine, ghost t: Shape) returns (ghost at: nat)
      requires Valid() && At(c, t, z) && t.Node? && Plug(c, t) == tree
      modifies `root, `nodes, `tree, nodes`left, nodes`right, nodes`parent, nodes`color
      ensures Valid() && nil == old(nil) && nodes <= old(nodes)
      ensures Removed(old(Keys(tree)), t.val, at, Keys(tree))
    {
      ghost var whole;
      whole, at := RemoveNode(z, c, t);
      SortedRemove(Keys(tree), t.val, at, Keys(whole));
      tree := whole;
    }

    /** The same, without the ghost tree. */
    method RemoveNode(z: RBNode?, ghost c: Spine, ghost t: Shape) returns (ghost whole: Shape, ghost at: nat)
      requires At(c, t, z) && t.Node? && RedBlack(Plug(c, t))
      modifies `root, `nodes, nodes`left, nodes`right, nodes`parent, nodes`color
      ensures nodes == old(nodes) - {z}
      ensures At(Top, whole, root) && RedBlack(whole)
      ensures Removed(Keys(Plug(c, t)), t.val, at, Keys(whole))
      ensures Ids(Plug(c, t)) == Ids(whole) + {z} && z !in Ids(whole)
    {
      var x, k;
      ghost var c', t';
      x, k, c', t', at := Detach(z, c, t);
      whole := Drop(z, x, k, c', t');
    }

    /** Forgets the detached node and repairs the colours if a black one is missing. */
    method Drop(z: RBNode?, x: RBNode?, k: Color, ghost c: Spine, ghost t: Shape) returns (ghost whole: Shape)
      requires Hangs(c, t, x) && z != nil && z !in Ids(Plug(c, t))
      requires k == BLACK ==> Short(c, t)
      requires k == RED ==> RedBlack(Plug(c, t))
      modifies `root, `nodes, nodes`left, nodes`right, nodes`parent, nodes`color
      ensures nodes == old(nodes) - {z}
      ensures At(Top, whole, root) && RedBlack(whole) && SameContents(Plug(c, t), whole)
    {
      ghost var h := Snapshot();
      PlugIds(c, t);
      nodes := nodes - {z};
      ViewFrame(h, Snapshot(), c, t, x);
      ToTop(Snapshot(), c, t, x);
      whole := Plug(c, t);
      if k == BLACK {
        whole := DeleteFixup(x, c, t);
      }
    }
  }
}
