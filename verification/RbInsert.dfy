/**
 rb_insert_color (external/blktrace/rbtree.c:71-134): the repair after a red leaf
 has been linked, with a red node under a red parent as the only defect.
*/
module RbInsert {
  import opened RbShape
  import opened RbHeap

  // The only defect the repair loop may see: `t` is red, and so may be its parent.
  ghost predicate RedDefect(c: Ctx, t: Tree, h: nat) {
    IsRed(t) && Balanced(t, h) && CtxBalanced(c, h)
  }

  // The in-order sequence of the whole tree, read from the point of view.
  ghost function Around(c: Ctx, t: Tree): seq<RbNode> {
    Before(c) + Inorder(t) + After(c)
  }

  ghost function Measure(c: Ctx): nat {
    if RedFrame(c) then 1 + Depth(c) else 0
  }

  // Moving the point of view does not change the sequence.
  lemma AroundUp(c: Ctx, t: Tree)
    requires !c.Top?
    ensures Around(c.up, Enclosing(c, t)) == Around(c, t)
  {
  }

  // Two trees that differ only in colours, two levels deep.
  lemma SameInorder(t: Tree, u: Tree)
    requires t.Fork? && u.Fork? && t.node == u.node
    requires t.left == u.left || (t.left.Fork? && u.left.Fork? && t.left.(color := Red) == u.left.(color := Red))
    requires t.right == u.right || (t.right.Fork? && u.right.Fork? && t.right.(color := Red) == u.right.(color := Red))
    ensures Inorder(t) == Inorder(u)
  {
    assert Inorder(t.left) == Inorder(u.left);
    assert Inorder(t.right) == Inorder(u.right);
  }

  // ---- A red uncle: the red moves up two levels ----

  ghost function Blacken(t: Tree): Tree
    requires t.Fork?
  {
    t.(color := Black)
  }

  method RecolorLeft(root: RbRoot, parent: RbNode, gparent: RbNode, uncle: RbNode,
                     ghost s: set<RbNode>, ghost c: Ctx, ghost p: Tree)
    requires View(root, s, c, p) && p.Fork? && p.node == parent
    requires c.InLeft? && c.node == gparent && c.right.Fork? && c.right.node == uncle
    modifies root, s
    ensures View(root, s, c.up, Fork(Blacken(p), gparent, Red, Blacken(c.right)))
  {
    Up(root, s, c, p);
    DownRight(root, s, c.up, Enclosing(c, p));
    ghost var d := InRight(p, gparent, c.color, c.up);
    Paint(root, uncle, Black, s, d, c.right);
    Up(root, s, d, Blacken(c.right));
    DownLeft(root, s, c.up, Enclosing(d, Blacken(c.right)));
    d := InLeft(gparent, c.color, Blacken(c.right), c.up);
    Paint(root, parent, Black, s, d, p);
    Up(root, s, d, Blacken(p));
    Paint(root, gparent, Red, s, c.up, Enclosing(d, Blacken(p)));
  }

  method RecolorRight(root: RbRoot, parent: RbNode, gparent: RbNode, uncle: RbNode,
                      ghost s: set<RbNode>, ghost c: Ctx, ghost p: Tree)
    requires View(root, s, c, p) && p.Fork? && p.node == parent
    requires c.InRight? && c.node == gparent && c.left.Fork? && c.left.node == uncle
    modifies root, s
    ensures View(root, s, c.up, Fork(Blacken(c.left), gparent, Red, Blacken(p)))
  {
    Up(root, s, c, p);
    DownLeft(root, s, c.up, Enclosing(c, p));
    ghost var d := InLeft(gparent, c.color, p, c.up);
    Paint(root, uncle, Black, s, d, c.left);
    Up(root, s, d, Blacken(c.left));
    DownRight(root, s, c.up, Enclosing(d, Blacken(c.left)));
    d := InRight(Blacken(c.left), gparent, c.color, c.up);
    Paint(root, parent, Black, s, d, p);
    Up(root, s, d, Blacken(p));
    Paint(root, gparent, Red, s, c.up, Enclosing(d, Blacken(p)));
  }

  lemma RecolorLaw(c: Ctx, t: Tree, h: nat, t': Tree)
    requires RedDefect(c, t, h) && RedFrame(c)
    requires !c.up.Top?
    requires c.up.InLeft? ==> IsRed(c.up.right) && t' == Fork(Blacken(Enclosing(c, t)), c.up.node, Red, Blacken(c.up.right))
    requires c.up.InRight? ==> IsRed(c.up.left) && t' == Fork(Blacken(c.up.left), c.up.node, Red, Blacken(Enclosing(c, t)))
    ensures RedDefect(c.up.up, t', h + 1)
    ensures Around(c.up.up, t') == Around(c, t)
    ensures Measure(c.up.up) < Measure(c)
  {
    var p := Enclosing(c, t);
    assert CtxBalanced(c.up, h) && c.up.color.Black?;
    assert Balanced(Blacken(p), h + 1);
    AroundUp(c, t);
    AroundUp(c.up, p);
    SameInorder(Enclosing(c.up, p), t');
    assert Depth(c) == 2 + Depth(c.up.up);
    if c.up.InLeft? {
      assert Balanced(Blacken(c.up.right), h + 1);
    } else {
      assert Balanced(Blacken(c.up.left), h + 1);
    }
  }

  // ---- A black uncle: one or two rotations end the defect ----

  // The last rotation when the defect hangs on the left side of `gparent`.
  method RaiseLeft(root: RbRoot, parent: RbNode, gparent: RbNode,
                   ghost s: set<RbNode>, ghost c: Ctx, ghost t: Tree)
    requires View(root, s, c, t) && c.InLeft? && c.up.InLeft? && c.node == parent && c.up.node == gparent
    modifies root, s
    ensures View(root, s, InLeft(parent, Black, Fork(c.right, gparent, Red, c.up.right), c.up.up), t)
  {
    ghost var p := Enclosing(c, t);
    Up(root, s, c, t);
    Paint(root, parent, Black, s, c.up, p);
    p := Blacken(p);
    Up(root, s, c.up, p);
    ghost var g := Enclosing(c.up, p);
    Paint(root, gparent, Red, s, c.up.up, g);
    g := g.(color := Red);
    RotateRight(root, gparent, s, c.up.up, g);
    DownLeft(root, s, c.up.up, RotR(g));
  }

  lemma RaiseLeftLaw(c: Ctx, t: Tree, h: nat, c': Ctx)
    requires RedDefect(c, t, h) && RedFrame(c) && c.InLeft? && c.up.InLeft? && !IsRed(c.up.right)
    requires c' == InLeft(c.node, Black, Fork(c.right, c.up.node, Red, c.up.right), c.up.up)
    ensures RedDefect(c', t, h) && !RedFrame(c')
    ensures Around(c', t) == Around(c, t)
  {
    assert CtxBalanced(c.up, h) && c.up.color.Black?;
    var g := Enclosing(c.up, Enclosing(c, t));
    AroundUp(c, t);
    AroundUp(c.up, Enclosing(c, t));
    AroundUp(c', t);
    RotateRightInorder(g);
    SameInorder(RotR(g), Enclosing(c', t));
  }

  method RaiseRight(root: RbRoot, parent: RbNode, gparent: RbNode,
                    ghost s: set<RbNode>, ghost c: Ctx, ghost t: Tree)
    requires View(root, s, c, t) && c.InRight? && c.up.InRight? && c.node == parent && c.up.node == gparent
    modifies root, s
    ensures View(root, s, InRight(Fork(c.up.left, gparent, Red, c.left), parent, Black, c.up.up), t)
  {
    ghost var p := Enclosing(c, t);
    Up(root, s, c, t);
    Paint(root, parent, Black, s, c.up, p);
    p := Blacken(p);
    Up(root, s, c.up, p);
    ghost var g := Enclosing(c.up, p);
    Paint(root, gparent, Red, s, c.up.up, g);
    g := g.(color := Red);
    RotateLeft(root, gparent, s, c.up.up, g);
    DownRight(root, s, c.up.up, RotL(g));
  }

  lemma RaiseRightLaw(c: Ctx, t: Tree, h: nat, c': Ctx)
    requires RedDefect(c, t, h) && RedFrame(c) && c.InRight? && c.up.InRight? && !IsRed(c.up.left)
    requires c' == InRight(Fork(c.up.left, c.up.node, Red, c.left), c.node, Black, c.up.up)
    ensures RedDefect(c', t, h) && !RedFrame(c')
    ensures Around(c', t) == Around(c, t)
  {
    assert CtxBalanced(c.up, h) && c.up.color.Black?;
    var g := Enclosing(c.up, Enclosing(c, t));
    AroundUp(c, t);
    AroundUp(c.up, Enclosing(c, t));
    AroundUp(c', t);
    RotateLeftInorder(g);
    SameInorder(RotL(g), Enclosing(c', t));
  }

  // An inner grandchild is first turned into an outer one; the defect then sits at `parent`.
  lemma InnerToOuterLaw(c: Ctx, t: Tree, h: nat, c': Ctx, t': Tree)
    requires RedDefect(c, t, h) && RedFrame(c)
    requires c.InRight? ==> c' == InLeft(t.node, Red, t.right, c.up) && t' == Fork(c.left, c.node, Red, t.left)
    requires c.InLeft? ==> c' == InRight(t.left, t.node, Red, c.up) && t' == Fork(t.right, c.node, Red, c.right)
    ensures RedDefect(c', t', h) && RedFrame(c')
    ensures Around(c', t') == Around(c, t)
  {
    AroundUp(c, t);
    AroundUp(c', t');
    var p, p' := Enclosing(c, t), Enclosing(c', t');
    if c.InRight? {
      RotateLeftInorder(p);
      assert p' == RotL(p);
    } else {
      RotateRightInorder(p);
      assert p' == RotR(p);
    }
  }

  // ---- The loop ----

  // One round when the parent is a left child (rbtree.c:79-104).
  method RoundLeft(root: RbRoot, node: RbNode, parent: RbNode, gparent: RbNode,
                   ghost s: set<RbNode>, ghost c: Ctx, ghost t: Tree, ghost h: nat)
    returns (node': RbNode, ghost c': Ctx, ghost t': Tree, ghost h': nat)
    requires View(root, s, c, t) && RedDefect(c, t, h) && t.node == node && RedFrame(c)
    requires c.node == parent && c.up.InLeft? && c.up.node == gparent
    modifies root, s
    ensures View(root, s, c', t') && RedDefect(c', t', h') && t'.node == node'
    ensures Around(c', t') == Around(c, t) && Measure(c') < Measure(c)
  {
    c', t', h', node' := c, t, h, node;
    Look(root, s, c, t);
    Sides(c, t);
    Up(root, s, c, t);
    Look(root, s, c.up, Enclosing(c, t));
    var uncle := gparent.right;
    if uncle != null {
      DownRight(root, s, c.up.up, Enclosing(c.up, Enclosing(c, t))) by { Up(root, s, c.up, Enclosing(c, t)); }
      Look(root, s, InRight(Enclosing(c, t), gparent, c.up.color, c.up.up), c.up.right);
    }
    if uncle != null && uncle.color.Red? {
      RecolorLeft(root, parent, gparent, uncle, s, c.up, Enclosing(c, t));
      t' := Fork(Blacken(Enclosing(c, t)), gparent, Red, Blacken(c.up.right));
      RecolorLaw(c, t, h, t');
      node', c', h' := gparent, c.up.up, h + 1;
      return;
    }
    var parent' := parent;
    if parent.right == node {
      RotateLeft(root, parent, s, c.up, Enclosing(c, t));
      DownLeft(root, s, c.up, RotL(Enclosing(c, t)));
      c', t' := InLeft(node, Red, t.right, c.up), Fork(c.left, c.node, Red, t.left);
      InnerToOuterLaw(c, t, h, c', t');
      parent', node' := node, parent;
    }
    RaiseLeft(root, parent', gparent, s, c', t');
    ghost var d := InLeft(parent', Black, Fork(c'.right, gparent, Red, c'.up.right), c'.up.up);
    RaiseLeftLaw(c', t', h, d);
    c' := d;
  }

  // One round when the parent is a right child (rbtree.c:105-130).
  method RoundRight(root: RbRoot, node: RbNode, parent: RbNode, gparent: RbNode,
                    ghost s: set<RbNode>, ghost c: Ctx, ghost t: Tree, ghost h: nat)
    returns (node': RbNode, ghost c': Ctx, ghost t': Tree, ghost h': nat)
    requires View(root, s, c, t) && RedDefect(c, t, h) && t.node == node && RedFrame(c)
    requires c.node == parent && c.up.InRight? && c.up.node == gparent
    modifies root, s
    ensures View(root, s, c', t') && RedDefect(c', t', h') && t'.node == node'
    ensures Around(c', t') == Around(c, t) && Measure(c') < Measure(c)
  {
    c', t', h', node' := c, t, h, node;
    Look(root, s, c, t);
    Sides(c, t);
    Up(root, s, c, t);
    Look(root, s, c.up, Enclosing(c, t));
    var uncle := gparent.left;
    if uncle != null {
      DownLeft(root, s, c.up.up, Enclosing(c.up, Enclosing(c, t))) by { Up(root, s, c.up, Enclosing(c, t)); }
      Look(root, s, InLeft(gparent, c.up.color, Enclosing(c, t), c.up.up), c.up.left);
    }
    if uncle != null && uncle.color.Red? {
      RecolorRight(root, parent, gparent, uncle, s, c.up, Enclosing(c, t));
      t' := Fork(Blacken(c.up.left), gparent, Red, Blacken(Enclosing(c, t)));
      RecolorLaw(c, t, h, t');
      node', c', h' := gparent, c.up.up, h + 1;
      return;
    }
    var parent' := parent;
    if parent.left == node {
      RotateRight(root, parent, s, c.up, Enclosing(c, t));
      DownRight(root, s, c.up, RotR(Enclosing(c, t)));
      c', t' := InRight(t.left, node, Red, c.up), Fork(t.right, c.node, Red, c.right);
      InnerToOuterLaw(c, t, h, c', t');
      parent', node' := node, parent;
    }
    RaiseRight(root, parent', gparent, s, c', t');
    ghost var d := InRight(Fork(c'.up.left, gparent, Red, c'.left), parent', Black, c'.up.up);
    RaiseRightLaw(c', t', h, d);
    c' := d;
  }

  // When no red frame lies above the red node, blackening the root ends the repair.
  lemma RootBlackLaw(c: Ctx, t: Tree, h: nat, w: Tree)
    requires RedDefect(c, t, h) && !RedFrame(c) && w == Plug(c, t) && w.Fork?
    ensures RedBlack(Blacken(w)) && Inorder(Blacken(w)) == Around(c, t)
  {
    InorderPlug(c, t);
    if c.Top? {
      assert Balanced(Blacken(t), h + 1);
    } else {
      PlugBalanced(c, t, h);
      assert Blacken(w) == w;
    }
  }

  lemma PlugFork(c: Ctx, t: Tree)
    requires t.Fork?
    ensures Plug(c, t).Fork?
  {
    if !c.Top? {
      PlugFork(c.up, Enclosing(c, t));
    }
  }

  lemma ComposeTop(c: Ctx)
    ensures Compose(c, Top) == c
  {
  }

  // rb_insert_color: called on a red leaf just linked into a red-black tree.
  method InsertColor(root: RbRoot, node0: RbNode, ghost s: set<RbNode>, ghost c0: Ctx) returns (ghost w: Tree)
    requires View(root, s, c0, Fork(Leaf, node0, Red, Leaf)) && CtxBalanced(c0, 0)
    modifies root, s
    ensures View(root, s, Top, w) && RedBlack(w)
    ensures Inorder(w) == Before(c0) + [node0] + After(c0)
  {
    ghost var c, t, h := c0, Fork(Leaf, node0, Red, Leaf), 0;
    assert Inorder(t) == [node0];
    var node := node0;
    Look(root, s, c, t);
    while node.parent != null && node.parent.color.Red?
      invariant View(root, s, c, t) && RedDefect(c, t, h) && t.node == node
      invariant node.parent == Parent(c) && (!c.Top? ==> c.node.color == c.color)
      invariant Around(c, t) == Before(c0) + [node0] + After(c0)
      decreases Measure(c)
    {
      var parent := node.parent;
      Up(root, s, c, t);
      Look(root, s, c.up, Enclosing(c, t));
      Sides(c.up, Enclosing(c, t)) by { assert Apart(c.up, Enclosing(c, t)); }
      var gparent := parent.parent;
      if parent == gparent.left {
        node, c, t, h := RoundLeft(root, node, parent, gparent, s, c, t, h);
      } else {
        node, c, t, h := RoundRight(root, node, parent, gparent, s, c, t, h);
      }
      Look(root, s, c, t);
    }
    PlugFork(c, t);
    ComposeTop(c);
    w := Plug(c, t);
    ZipUp(root, s, c, Top, t);
    Look(root, s, Top, w);
    RootBlackLaw(c, t, h, w);
    Paint(root, root.node, Black, s, Top, w);
    w := Blacken(w);
  }
}
