/**
 __rb_erase_color (external/blktrace/rbtree.c:136-220): the repair after a black
 node has been taken out, with one black node missing on one side as the only
 defect.
*/
module RbErase {
  import opened RbShape
  import opened RbHeap
  import opened RbInsert

  // The only defect the repair loop may see: `t` is one black node short.  Its root may
  // be red and then have a red child, which blackening that root repairs.
  ghost predicate Short(c: Ctx, t: Tree, h: nat) {
    && CtxBalanced(c, h + 1)
    && if IsRed(t) then Balanced(t.(color := Black), h + 1) else Balanced(t, h)
  }

  // ==== The short subtree is a left child (rbtree.c:143-179) ====

  // A red sibling: after one rotation the sibling is black and the parent red.
  method SiblingRedLeft(root: RbRoot, parent: RbNode, other: RbNode,
                        ghost s: set<RbNode>, ghost c: Ctx, ghost t: Tree)
    requires View(root, s, c, t) && c.InLeft? && c.node == parent && c.right.Fork? && c.right.node == other
    modifies root, s
    ensures View(root, s, SiblingRedCtxLeft(c), t)
  {
    ghost var o := c.right.(color := Black);
    Up(root, s, c, t);
    DownRight(root, s, c.up, Enclosing(c, t));
    ghost var d := InRight(t, parent, c.color, c.up);
    Paint(root, other, Black, s, d, c.right);
    Up(root, s, d, o);
    Paint(root, parent, Red, s, c.up, Fork(t, parent, c.color, o));
    ghost var p := Fork(t, parent, Red, o);
    RotateLeft(root, parent, s, c.up, p);
    DownLeft(root, s, c.up, RotL(p));
    DownLeft(root, s, InLeft(other, Black, o.right, c.up), RotL(p).left);
  }

  ghost function SiblingRedCtxLeft(c: Ctx): Ctx
    requires c.InLeft? && c.right.Fork?
  {
    InLeft(c.node, Red, c.right.left, InLeft(c.right.node, Black, c.right.right, c.up))
  }

  lemma SiblingRedLeftLaw(c: Ctx, t: Tree, h: nat)
    requires Short(c, t, h) && !IsRed(t) && c.InLeft? && IsRed(c.right)
    ensures Short(SiblingRedCtxLeft(c), t, h)
    ensures Around(SiblingRedCtxLeft(c), t) == Around(c, t)
    ensures Depth(SiblingRedCtxLeft(c)) == Depth(c) + 1
  {
    var c' := SiblingRedCtxLeft(c);
    var p, p' := Enclosing(c, t), Enclosing(c', t);
    AroundUp(c, t);
    AroundUp(c', t);
    AroundUp(c'.up, p');
    RotateLeftInorder(p);
    SameInorder(RotL(p), Enclosing(c'.up, p'));
  }

  // A black sibling with black children turns red and the shortage moves up.
  method SiblingBlackLeft(root: RbRoot, other: RbNode, ghost s: set<RbNode>, ghost c: Ctx, ghost t: Tree)
    requires View(root, s, c, t) && c.InLeft? && c.right.Fork? && c.right.node == other
    modifies root, s
    ensures View(root, s, c.up, Fork(t, c.node, c.color, c.right.(color := Red)))
  {
    Up(root, s, c, t);
    DownRight(root, s, c.up, Enclosing(c, t));
    ghost var d := InRight(t, c.node, c.color, c.up);
    Paint(root, other, Red, s, d, c.right);
    Up(root, s, d, c.right.(color := Red));
  }

  lemma SiblingBlackLeftLaw(c: Ctx, t: Tree, h: nat)
    requires Short(c, t, h) && !IsRed(t) && c.InLeft? && c.right.Fork? && c.right.color.Black?
    requires !IsRed(c.right.left) && !IsRed(c.right.right)
    ensures Short(c.up, Fork(t, c.node, c.color, c.right.(color := Red)), if c.color.Red? then h else h + 1)
    ensures Around(c.up, Fork(t, c.node, c.color, c.right.(color := Red))) == Around(c, t)
  {
    var o := c.right.(color := Red);
    assert Balanced(o, h);
    AroundUp(c, t);
    SameInorder(Enclosing(c, t), Fork(t, c.node, c.color, o));
  }

  // A red inner nephew is rotated to the outside.
  method TurnLeft(root: RbRoot, other: RbNode, ghost s: set<RbNode>, ghost c: Ctx, ghost t: Tree)
    requires View(root, s, c, t) && c.InLeft? && c.right.Fork? && c.right.node == other && c.right.left.Fork?
    modifies root, s
    ensures View(root, s, c.(right := TurnedLeft(c.right)), t)
  {
    ghost var o, x := c.right, c.right.left;
    ghost var d := InRight(t, c.node, c.color, c.up);
    Up(root, s, c, t);
    DownRight(root, s, c.up, Enclosing(c, t));
    Look(root, s, d, o);
    var o_left := other.left;
    DownLeft(root, s, d, o);
    if o_left != null {
      Paint(root, o_left, Black, s, InLeft(o.node, o.color, o.right, d), x);
    }
    x := x.(color := Black);
    Up(root, s, InLeft(o.node, o.color, o.right, d), x);
    Paint(root, other, Red, s, d, o.(left := x));
    o := o.(left := x, color := Red);
    RotateRight(root, other, s, d, o);
    Up(root, s, d, RotR(o));
    DownLeft(root, s, c.up, Fork(t, c.node, c.color, RotR(o)));
  }

  ghost function TurnedLeft(o: Tree): Tree
    requires o.Fork? && o.left.Fork?
  {
    Fork(o.left.left, o.left.node, Black, Fork(o.left.right, o.node, Red, o.right))
  }

  lemma TurnLeftLaw(c: Ctx, t: Tree, h: nat)
    requires Short(c, t, h) && !IsRed(t) && c.InLeft? && c.right.Fork? && c.right.color.Black?
    requires IsRed(c.right.left) && !IsRed(c.right.right)
    ensures Short(c.(right := TurnedLeft(c.right)), t, h)
    ensures Around(c.(right := TurnedLeft(c.right)), t) == Around(c, t)
  {
    var o, o' := c.right, TurnedLeft(c.right);
    assert Balanced(o, h + 1) && Balanced(o.left, h) && Balanced(o.right, h);
    assert Balanced(o'.right, h) && Balanced(o', h + 1);
    RotateRightInorder(o);
    SameInorder(RotR(o), o');
  }

  // The sibling has a red outer child: one rotation makes up for the missing black.
  method FinishLeft(root: RbRoot, parent: RbNode, other: RbNode, ghost s: set<RbNode>, ghost c: Ctx, ghost t: Tree)
    requires View(root, s, c, t) && c.InLeft? && c.node == parent && c.right.Fork? && c.right.node == other
    requires c.right.right.Fork?
    modifies root, s
    ensures View(root, s, c.up, FinishedLeft(c, t))
  {
    ghost var o, x := c.right, c.right.right;
    ghost var d := InRight(t, parent, c.color, c.up);
    Look(root, s, c, t);
    var kp := parent.color;
    Up(root, s, c, t);
    DownRight(root, s, c.up, Enclosing(c, t));
    Paint(root, other, kp, s, d, o);
    o := o.(color := kp);
    Up(root, s, d, o);
    Paint(root, parent, Black, s, c.up, Fork(t, parent, c.color, o));
    d := InRight(t, parent, Black, c.up);
    DownRight(root, s, c.up, Fork(t, parent, Black, o));
    Look(root, s, d, o);
    var o_right := other.right;
    DownRight(root, s, d, o);
    if o_right != null {
      Paint(root, o_right, Black, s, InRight(o.left, other, kp, d), x);
    }
    x := x.(color := Black);
    Up(root, s, InRight(o.left, other, kp, d), x);
    o := o.(right := x);
    Up(root, s, d, o);
    RotateLeft(root, parent, s, c.up, Fork(t, parent, Black, o));
  }

  ghost function FinishedLeft(c: Ctx, t: Tree): Tree
    requires c.InLeft? && c.right.Fork? && c.right.right.Fork?
  {
    Fork(Fork(t, c.node, Black, c.right.left), c.right.node, c.color, c.right.right.(color := Black))
  }

  lemma FinishLeftLaw(c: Ctx, t: Tree, h: nat)
    requires Short(c, t, h) && !IsRed(t) && c.InLeft? && c.right.Fork? && c.right.color.Black?
    requires IsRed(c.right.right)
    ensures RedBlack(Plug(c.up, FinishedLeft(c, t)))
    ensures Around(c.up, FinishedLeft(c, t)) == Around(c, t)
  {
    var f, p := FinishedLeft(c, t), Enclosing(c, t);
    assert Balanced(c.right, h + 1) && Balanced(c.right.right, h);
    assert Balanced(f.left, h + 1) && Balanced(f.right, h + 1);
    AroundUp(c, t);
    RotateLeftInorder(p);
    SameInorder(RotL(p), f);
    PlugBalanced(c.up, f, Rise(c.color, h + 1));
  }

  // ==== The short subtree is a right child (rbtree.c:180-216) ====

  // A red sibling: after one rotation the sibling is black and the parent red.
  method SiblingRedRight(root: RbRoot, parent: RbNode, other: RbNode,
                        ghost s: set<RbNode>, ghost c: Ctx, ghost t: Tree)
    requires View(root, s, c, t) && c.InRight? && c.node == parent && c.left.Fork? && c.left.node == other
    modifies root, s
    ensures View(root, s, SiblingRedCtxRight(c), t)
  {
    ghost var o := c.left.(color := Black);
    Up(root, s, c, t);
    DownLeft(root, s, c.up, Enclosing(c, t));
    ghost var d := InLeft(parent, c.color, t, c.up);
    Paint(root, other, Black, s, d, c.left);
    Up(root, s, d, o);
    Paint(root, parent, Red, s, c.up, Fork(o, parent, c.color, t));
    ghost var p := Fork(o, parent, Red, t);
    RotateRight(root, parent, s, c.up, p);
    DownRight(root, s, c.up, RotR(p));
    DownRight(root, s, InRight(o.left, other, Black, c.up), RotR(p).right);
  }

  ghost function SiblingRedCtxRight(c: Ctx): Ctx
    requires c.InRight? && c.left.Fork?
  {
    InRight(c.left.right, c.node, Red, InRight(c.left.left, c.left.node, Black, c.up))
  }

  lemma SiblingRedRightLaw(c: Ctx, t: Tree, h: nat)
    requires Short(c, t, h) && !IsRed(t) && c.InRight? && IsRed(c.left)
    ensures Short(SiblingRedCtxRight(c), t, h)
    ensures Around(SiblingRedCtxRight(c), t) == Around(c, t)
    ensures Depth(SiblingRedCtxRight(c)) == Depth(c) + 1
  {
    var c' := SiblingRedCtxRight(c);
    var p, p' := Enclosing(c, t), Enclosing(c', t);
    AroundUp(c, t);
    AroundUp(c', t);
    AroundUp(c'.up, p');
    RotateRightInorder(p);
    SameInorder(RotR(p), Enclosing(c'.up, p'));
  }

  // A black sibling with black children turns red and the shortage moves up.
  method SiblingBlackRight(root: RbRoot, other: RbNode, ghost s: set<RbNode>, ghost c: Ctx, ghost t: Tree)
    requires View(root, s, c, t) && c.InRight? && c.left.Fork? && c.left.node == other
    modifies root, s
    ensures View(root, s, c.up, Fork(c.left.(color := Red), c.node, c.color, t))
  {
    Up(root, s, c, t);
    DownLeft(root, s, c.up, Enclosing(c, t));
    ghost var d := InLeft(c.node, c.color, t, c.up);
    Paint(root, other, Red, s, d, c.left);
    Up(root, s, d, c.left.(color := Red));
  }

  lemma SiblingBlackRightLaw(c: Ctx, t: Tree, h: nat)
    requires Short(c, t, h) && !IsRed(t) && c.InRight? && c.left.Fork? && c.left.color.Black?
    requires !IsRed(c.left.right) && !IsRed(c.left.left)
    ensures Short(c.up, Fork(c.left.(color := Red), c.node, c.color, t), if c.color.Red? then h else h + 1)
    ensures Around(c.up, Fork(c.left.(color := Red), c.node, c.color, t)) == Around(c, t)
  {
    var o := c.left.(color := Red);
    assert Balanced(o, h);
    AroundUp(c, t);
    SameInorder(Enclosing(c, t), Fork(o, c.node, c.color, t));
  }

  // A red inner nephew is rotated to the outside.
  method TurnRight(root: RbRoot, other: RbNode, ghost s: set<RbNode>, ghost c: Ctx, ghost t: Tree)
    requires View(root, s, c, t) && c.InRight? && c.left.Fork? && c.left.node == other && c.left.right.Fork?
    modifies root, s
    ensures View(root, s, c.(left := TurnedRight(c.left)), t)
  {
    ghost var o, x := c.left, c.left.right;
    ghost var d := InLeft(c.node, c.color, t, c.up);
    Up(root, s, c, t);
    DownLeft(root, s, c.up, Enclosing(c, t));
    Look(root, s, d, o);
    var o_right := other.right;
    DownRight(root, s, d, o);
    if o_right != null {
      Paint(root, o_right, Black, s, InRight(o.left, o.node, o.color, d), x);
    }
    x := x.(color := Black);
    Up(root, s, InRight(o.left, o.node, o.color, d), x);
    Paint(root, other, Red, s, d, o.(right := x));
    o := o.(right := x, color := Red);
    RotateLeft(root, other, s, d, o);
    Up(root, s, d, RotL(o));
    DownRight(root, s, c.up, Fork(RotL(o), c.node, c.color, t));
  }

  ghost function TurnedRight(o: Tree): Tree
    requires o.Fork? && o.right.Fork?
  {
    Fork(Fork(o.left, o.node, Red, o.right.left), o.right.node, Black, o.right.right)
  }

  lemma TurnRightLaw(c: Ctx, t: Tree, h: nat)
    requires Short(c, t, h) && !IsRed(t) && c.InRight? && c.left.Fork? && c.left.color.Black?
    requires IsRed(c.left.right) && !IsRed(c.left.left)
    ensures Short(c.(left := TurnedRight(c.left)), t, h)
    ensures Around(c.(left := TurnedRight(c.left)), t) == Around(c, t)
  {
    var o, o' := c.left, TurnedRight(c.left);
    assert Balanced(o, h + 1) && Balanced(o.right, h) && Balanced(o.left, h);
    assert Balanced(o'.left, h) && Balanced(o', h + 1);
    RotateLeftInorder(o);
    SameInorder(RotL(o), o');
  }

  // The sibling has a red outer child: one rotation makes up for the missing black.
  method FinishRight(root: RbRoot, parent: RbNode, other: RbNode, ghost s: set<RbNode>, ghost c: Ctx, ghost t: Tree)
    requires View(root, s, c, t) && c.InRight? && c.node == parent && c.left.Fork? && c.left.node == other
    requires c.left.left.Fork?
    modifies root, s
    ensures View(root, s, c.up, FinishedRight(c, t))
  {
    ghost var o, x := c.left, c.left.left;
    ghost var d := InLeft(parent, c.color, t, c.up);
    Look(root, s, c, t);
    var kp := parent.color;
    Up(root, s, c, t);
    DownLeft(root, s, c.up, Enclosing(c, t));
    Paint(root, other, kp, s, d, o);
    o := o.(color := kp);
    Up(root, s, d, o);
    Paint(root, parent, Black, s, c.up, Fork(o, parent, c.color, t));
    d := InLeft(parent, Black, t, c.up);
    DownLeft(root, s, c.up, Fork(o, parent, Black, t));
    Look(root, s, d, o);
    var o_left := other.left;
    DownLeft(root, s, d, o);
    if o_left != null {
      Paint(root, o_left, Black, s, InLeft(other, kp, o.right, d), x);
    }
    x := x.(color := Black);
    Up(root, s, InLeft(other, kp, o.right, d), x);
    o := o.(left := x);
    Up(root, s, d, o);
    RotateRight(root, parent, s, c.up, Fork(o, parent, Black, t));
  }

  ghost function FinishedRight(c: Ctx, t: Tree): Tree
    requires c.InRight? && c.left.Fork? && c.left.left.Fork?
  {
    Fork(c.left.left.(color := Black), c.left.node, c.color, Fork(c.left.right, c.node, Black, t))
  }

  lemma FinishRightLaw(c: Ctx, t: Tree, h: nat)
    requires Short(c, t, h) && !IsRed(t) && c.InRight? && c.left.Fork? && c.left.color.Black?
    requires IsRed(c.left.left)
    ensures RedBlack(Plug(c.up, FinishedRight(c, t)))
    ensures Around(c.up, FinishedRight(c, t)) == Around(c, t)
  {
    var f, p := FinishedRight(c, t), Enclosing(c, t);
    assert Balanced(c.left, h + 1) && Balanced(c.left.left, h);
    assert Balanced(f.right, h + 1) && Balanced(f.left, h + 1);
    AroundUp(c, t);
    RotateRightInorder(p);
    SameInorder(RotR(p), f);
    PlugBalanced(c.up, f, Rise(c.color, h + 1));
  }


  // ==== One round, short subtree on the left ====

  // The fields of the sibling and the colours of its children.
  lemma LookSiblingRight(root: RbRoot, s: set<RbNode>, c: Ctx, t: Tree)
    requires View(root, s, c, t) && c.InLeft? && c.right.Fork?
    ensures var o := c.right;
      && o.node in s && c.node.right == o.node && o.node.color == o.color
      && o.node.left == Root(o.left) && o.node.right == Root(o.right)
      && (o.left.Fork? ==> o.left.node in s && o.left.node.color == o.left.color)
      && (o.right.Fork? ==> o.right.node in s && o.right.node.color == o.right.color)
  {
    var o, d := c.right, InRight(t, c.node, c.color, c.up);
    Up(root, s, c, t);
    DownRight(root, s, c.up, Enclosing(c, t));
    Look(root, s, d, o);
    DownLeft(root, s, d, o);
    Look(root, s, InLeft(o.node, o.color, o.right, d), o.left);
    DownRight(root, s, d, o);
    Look(root, s, InRight(o.left, o.node, o.color, d), o.right);
  }

  // Afterwards the sibling is black.
  method BlackSiblingLeft(root: RbRoot, parent: RbNode, ghost s: set<RbNode>, ghost c0: Ctx, ghost t: Tree, ghost h: nat)
    returns (other: RbNode, ghost c: Ctx)
    requires View(root, s, c0, t) && Short(c0, t, h) && !IsRed(t) && c0.InLeft? && c0.node == parent
    modifies root, s
    ensures View(root, s, c, t) && Short(c, t, h) && Around(c, t) == Around(c0, t)
    ensures c.InLeft? && c.node == parent && c.right.Fork? && c.right.color.Black? && c.right.node == other
    ensures c == c0 || c.color.Red?
  {
    c := c0;
    LookSiblingRight(root, s, c, t);
    other := parent.right;
    if other.color.Red? {
      SiblingRedLeft(root, parent, other, s, c, t);
      SiblingRedLeftLaw(c, t, h);
      c := SiblingRedCtxLeft(c);
      LookSiblingRight(root, s, c, t);
      other := parent.right;
    }
  }

  // The sibling is black and has a red child: the repair ends here.
  method LendLeft(root: RbRoot, parent: RbNode, other0: RbNode, ghost s: set<RbNode>,
                  ghost c0: Ctx, ghost t0: Tree, ghost h: nat) returns (ghost c: Ctx, ghost t: Tree)
    requires View(root, s, c0, t0) && Short(c0, t0, h) && !IsRed(t0) && c0.InLeft? && c0.node == parent
    requires c0.right.Fork? && c0.right.color.Black? && c0.right.node == other0
    requires IsRed(c0.right.left) || IsRed(c0.right.right)
    modifies root, s
    ensures View(root, s, c, t) && RedBlack(Plug(c, t)) && Around(c, t) == Around(c0, t0)
  {
    c, t := c0, t0;
    var other := other0;
    LookSiblingRight(root, s, c, t);
    if other.right == null || other.right.color.Black? {
      TurnLeft(root, other, s, c, t);
      TurnLeftLaw(c, t, h);
      c := c.(right := TurnedLeft(c.right));
      LookSiblingRight(root, s, c, t);
      other := parent.right;
    }
    FinishLeft(root, parent, other, s, c, t);
    FinishLeftLaw(c, t, h);
    t := FinishedLeft(c, t);
    c := c.up;
  }

  method EraseRoundLeft(root: RbRoot, parent: RbNode, ghost s: set<RbNode>,
                        ghost c0: Ctx, ghost t0: Tree, ghost h0: nat)
    returns (done: bool, node: RbNode?, parent': RbNode?, ghost c: Ctx, ghost t: Tree, ghost h: nat)
    requires View(root, s, c0, t0) && Short(c0, t0, h0) && !IsRed(t0) && c0.InLeft? && c0.node == parent
    modifies root, s
    ensures View(root, s, c, t) && Around(c, t) == Around(c0, t0)
    ensures !done ==> Short(c, t, h) && node == Root(t) && parent' == Parent(c)
    ensures !done ==> IsRed(t) || Depth(c) < Depth(c0)
    ensures done ==> RedBlack(Plug(c, t))
  {
    done, node, parent', t, h := false, null, null, t0, h0;
    var other;
    other, c := BlackSiblingLeft(root, parent, s, c0, t, h);
    LookSiblingRight(root, s, c, t);
    if (other.left == null || other.left.color.Black?) && (other.right == null || other.right.color.Black?) {
      SiblingBlackLeft(root, other, s, c, t);
      SiblingBlackLeftLaw(c, t, h);
      t := Fork(t, c.node, c.color, c.right.(color := Red));
      h := if c.color.Red? then h else h + 1;
      c := c.up;
      Look(root, s, c, t);
      node, parent' := parent, parent.parent;
    } else {
      c, t := LendLeft(root, parent, other, s, c, t, h);
      done := true;
    }
  }

  // ==== One round, short subtree on the right ====

  // The fields of the sibling and the colours of its children.
  lemma LookSiblingLeft(root: RbRoot, s: set<RbNode>, c: Ctx, t: Tree)
    requires View(root, s, c, t) && c.InRight? && c.left.Fork?
    ensures var o := c.left;
      && o.node in s && c.node.left == o.node && o.node.color == o.color
      && o.node.right == Root(o.right) && o.node.left == Root(o.left)
      && (o.right.Fork? ==> o.right.node in s && o.right.node.color == o.right.color)
      && (o.left.Fork? ==> o.left.node in s && o.left.node.color == o.left.color)
  {
    var o, d := c.left, InLeft(c.node, c.color, t, c.up);
    Up(root, s, c, t);
    DownLeft(root, s, c.up, Enclosing(c, t));
    Look(root, s, d, o);
    DownRight(root, s, d, o);
    Look(root, s, InRight(o.left, o.node, o.color, d), o.right);
    DownLeft(root, s, d, o);
    Look(root, s, InLeft(o.node, o.color, o.right, d), o.left);
  }

  // Afterwards the sibling is black.
  method BlackSiblingRight(root: RbRoot, parent: RbNode, ghost s: set<RbNode>, ghost c0: Ctx, ghost t: Tree, ghost h: nat)
    returns (other: RbNode, ghost c: Ctx)
    requires View(root, s, c0, t) && Short(c0, t, h) && !IsRed(t) && c0.InRight? && c0.node == parent
    modifies root, s
    ensures View(root, s, c, t) && Short(c, t, h) && Around(c, t) == Around(c0, t)
    ensures c.InRight? && c.node == parent && c.left.Fork? && c.left.color.Black? && c.left.node == other
    ensures c == c0 || c.color.Red?
  {
    c := c0;
    LookSiblingLeft(root, s, c, t);
    other := parent.left;
    if other.color.Red? {
      SiblingRedRight(root, parent, other, s, c, t);
      SiblingRedRightLaw(c, t, h);
      c := SiblingRedCtxRight(c);
      LookSiblingLeft(root, s, c, t);
      other := parent.left;
    }
  }

  // The sibling is black and has a red child: the repair ends here.
  method LendRight(root: RbRoot, parent: RbNode, other0: RbNode, ghost s: set<RbNode>,
                  ghost c0: Ctx, ghost t0: Tree, ghost h: nat) returns (ghost c: Ctx, ghost t: Tree)
    requires View(root, s, c0, t0) && Short(c0, t0, h) && !IsRed(t0) && c0.InRight? && c0.node == parent
    requires c0.left.Fork? && c0.left.color.Black? && c0.left.node == other0
    requires IsRed(c0.left.right) || IsRed(c0.left.left)
    modifies root, s
    ensures View(root, s, c, t) && RedBlack(Plug(c, t)) && Around(c, t) == Around(c0, t0)
  {
    c, t := c0, t0;
    var other := other0;
    LookSiblingLeft(root, s, c, t);
    if other.left == null || other.left.color.Black? {
      TurnRight(root, other, s, c, t);
      TurnRightLaw(c, t, h);
      c := c.(left := TurnedRight(c.left));
      LookSiblingLeft(root, s, c, t);
      other := parent.left;
    }
    FinishRight(root, parent, other, s, c, t);
    FinishRightLaw(c, t, h);
    t := FinishedRight(c, t);
    c := c.up;
  }

  method EraseRoundRight(root: RbRoot, parent: RbNode, ghost s: set<RbNode>,
                        ghost c0: Ctx, ghost t0: Tree, ghost h0: nat)
    returns (done: bool, node: RbNode?, parent': RbNode?, ghost c: Ctx, ghost t: Tree, ghost h: nat)
    requires View(root, s, c0, t0) && Short(c0, t0, h0) && !IsRed(t0) && c0.InRight? && c0.node == parent
    modifies root, s
    ensures View(root, s, c, t) && Around(c, t) == Around(c0, t0)
    ensures !done ==> Short(c, t, h) && node == Root(t) && parent' == Parent(c)
    ensures !done ==> IsRed(t) || Depth(c) < Depth(c0)
    ensures done ==> RedBlack(Plug(c, t))
  {
    done, node, parent', t, h := false, null, null, t0, h0;
    var other;
    other, c := BlackSiblingRight(root, parent, s, c0, t, h);
    LookSiblingLeft(root, s, c, t);
    if (other.right == null || other.right.color.Black?) && (other.left == null || other.left.color.Black?) {
      SiblingBlackRight(root, other, s, c, t);
      SiblingBlackRightLaw(c, t, h);
      t := Fork(c.left.(color := Red), c.node, c.color, t);
      h := if c.color.Red? then h else h + 1;
      c := c.up;
      Look(root, s, c, t);
      node, parent' := parent, parent.parent;
    } else {
      c, t := LendRight(root, parent, other, s, c, t, h);
      done := true;
    }
  }

  // ---- The loop ----

  // What the loop leaves: blackening the node in view completes the tree.
  ghost predicate Settled(c: Ctx, t: Tree) {
    || (c.Top? && RedBlack(t))
    || (IsRed(t) && exists h: nat :: Short(c, t, h))
  }

  lemma SettledLaw(c: Ctx, t: Tree)
    requires Settled(c, t)
    ensures t.Fork? ==> RedBlack(Plug(c, t.(color := Black))) && Around(c, t.(color := Black)) == Around(c, t)
    ensures t.Leaf? ==> RedBlack(Plug(c, t))
  {
    if t.Fork? {
      SameInorder(t, t.(color := Black));
    }
    if c.Top? && RedBlack(t) {
      assert t.Fork? ==> t.(color := Black) == t;
    } else {
      var h: nat :| Short(c, t, h);
      PlugBalanced(c, t.(color := Black), h + 1);
    }
  }

  method FinalPaint(root: RbRoot, node: RbNode?, ghost s: set<RbNode>, ghost c: Ctx, ghost t0: Tree)
    returns (ghost w: Tree)
    requires View(root, s, c, t0) && node == Root(t0) && Settled(c, t0)
    modifies root, s
    ensures View(root, s, Top, w) && RedBlack(w) && Inorder(w) == Around(c, t0)
  {
    ghost var t := t0;
    SettledLaw(c, t);
    if node != null {
      Paint(root, node, Black, s, c, t);
      t := t.(color := Black);
    }
    ViewTop(root, s, c, t);
    w := Plug(c, t);
  }

  lemma {:induction false} RootInCtx(m: Mem, c: Ctx, hole: RbNode?)
    requires CtxLinked(m, c, hole) && !c.Top?
    ensures m.root != null && m.root in CtxNodes(c)
  {
    if !c.up.Top? {
      RootInCtx(m, c.up, c.node);
    }
  }

  // The test `node != root->rb_node` is the test for the outermost point of view.
  lemma AtRoot(root: RbRoot, s: set<RbNode>, c: Ctx, t: Tree)
    requires View(root, s, c, t)
    ensures c.Top? <==> root.node == Root(t)
  {
    if !c.Top? {
      RootInCtx(Snap(root, s), c, Root(t));
      if t.Fork? { assert t.node in Nodes(t); }
    }
  }

  // The child links tell on which side the short subtree hangs, even when it is empty.
  lemma ShortSide(c: Ctx, t: Tree, h: nat)
    requires Short(c, t, h) && Apart(c, t)
    ensures c.InLeft? ==> Root(c.right) != Root(t)
    ensures c.InRight? ==> Root(c.left) != Root(t)
  {
    if t.Fork? { Sides(c, t); }
  }

  // What the loop tests and reads at the point of view.
  ghost predicate InSight(root: RbRoot, c: Ctx, t: Tree)
    reads root, if t.Fork? then {t.node} else {}
  {
    && (c.Top? <==> root.node == Root(t))
    && (t.Fork? ==> t.node.color == t.color)
  }

  lemma Sighted(root: RbRoot, s: set<RbNode>, c: Ctx, t: Tree)
    requires View(root, s, c, t)
    ensures InSight(root, c, t)
  {
    Look(root, s, c, t);
    AtRoot(root, s, c, t);
  }

  lemma ViewTop(root: RbRoot, s: set<RbNode>, c: Ctx, t: Tree)
    requires View(root, s, c, t)
    ensures View(root, s, Top, Plug(c, t)) && root.node == Root(Plug(c, t))
    ensures Around(Top, Plug(c, t)) == Around(c, t) == Inorder(Plug(c, t))
  {
    ComposeTop(c);
    ZipUp(root, s, c, Top, t);
    InorderPlug(c, t);
    Look(root, s, Top, Plug(c, t));
  }

  method EraseRound(root: RbRoot, node0: RbNode?, parent0: RbNode, ghost s: set<RbNode>,
                    ghost c0: Ctx, ghost t0: Tree, ghost h0: nat)
    returns (done: bool, node: RbNode?, parent: RbNode?, ghost c: Ctx, ghost t: Tree, ghost h: nat)
    requires View(root, s, c0, t0) && Short(c0, t0, h0) && !IsRed(t0)
    requires !c0.Top? && c0.node == parent0 && node0 == Root(t0)
    modifies root, s
    ensures View(root, s, c, t) && Around(c, t) == Around(c0, t0) && node == Root(t)
    ensures !done ==> Short(c, t, h) && parent == Parent(c) && InSight(root, c, t)
    ensures !done ==> IsRed(t) || Depth(c) < Depth(c0)
    ensures done ==> c.Top? && RedBlack(t)
  {
    ShortSide(c0, t0, h0);
    Look(root, s, c0, t0);
    assert parent0.left == node0 <==> c0.InLeft?;
    if parent0.left == node0 {
      done, node, parent, c, t, h := EraseRoundLeft(root, parent0, s, c0, t0, h0);
    } else {
      done, node, parent, c, t, h := EraseRoundRight(root, parent0, s, c0, t0, h0);
    }
    if done {
      ViewTop(root, s, c, t);
      c, t := Top, Plug(c, t);
      node := root.node;
    } else {
      Sighted(root, s, c, t);
    }
  }

  // __rb_erase_color on a subtree that is one black node short.
  method EraseColor(root: RbRoot, node0: RbNode?, parent0: RbNode?, ghost s: set<RbNode>,
                    ghost c0: Ctx, ghost t0: Tree, ghost h0: nat) returns (ghost w: Tree)
    requires View(root, s, c0, t0) && Short(c0, t0, h0) && node0 == Root(t0) && parent0 == Parent(c0)
    modifies root, s
    ensures View(root, s, Top, w) && RedBlack(w) && Inorder(w) == Around(c0, t0)
  {
    var node, parent := node0, parent0;
    ghost var c, t, h := c0, t0, h0;
    var done := false;
    Sighted(root, s, c, t);
    while (node == null || node.color.Black?) && node != root.node
      invariant View(root, s, c, t) && Around(c, t) == Around(c0, t0) && node == Root(t)
      invariant Short(c, t, h) && parent == Parent(c) && InSight(root, c, t)
      decreases if IsRed(t) then 0 else 1 + Depth(c)
    {
      done, node, parent, c, t, h := EraseRound(root, node, parent, s, c, t, h);
      if done {
        break;
      }
    }
    w := FinalPaint(root, node, s, c, t);
  }
}
