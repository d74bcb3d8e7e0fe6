/**
 Linked nodes with parent pointers, and the two rotations of
 external/blktrace/rbtree.c.

 `Snap` copies the fields of a set of nodes out of the heap.  `Linked` and
 `CtxLinked` say that such a copy spells out a tree or a context, and
 `View(root, s, c, t)` says that the nodes `s` now form the tree `Plug(c, t)`,
 seen from its subtree `t`.  Everything a repair loop does is a rotation, a
 repainting or a move of the point of view, each with its own small contract.
*/
module RbHeap {
  import opened RbShape

  class RbRoot {
    var node: RbNode?

    constructor ()
      ensures node == null
    {
      node := null;
    }
  }

  // The fields of one node, and of some nodes and the root at one moment.
  datatype Cell = Cell(left: RbNode?, right: RbNode?, parent: RbNode?, color: Color)
  datatype Mem = Mem(cell: map<RbNode, Cell>, root: RbNode?)

  ghost function Snap(root: RbRoot, s: set<RbNode>): Mem
    reads root, s
  {
    Mem(map n | n in s :: Cell(n.left, n.right, n.parent, n.color), root.node)
  }

  ghost function Root(t: Tree): RbNode? {
    if t.Leaf? then null else t.node
  }

  ghost function Parent(c: Ctx): RbNode? {
    if c.Top? then null else c.node
  }

  // The cells of `t` are linked as `t` says, below parent `p`.
  ghost predicate Linked(m: map<RbNode, Cell>, t: Tree, p: RbNode?) {
    match t
    case Leaf => true
    case Fork(l, n, k, r) =>
      && n in m && m[n] == Cell(Root(l), Root(r), p, k)
      && Linked(m, l, n) && Linked(m, r, n)
  }

  // The cells of `c` are linked as `c` says, with `hole` in the hole.
  ghost predicate CtxLinked(m: Mem, c: Ctx, hole: RbNode?) {
    match c
    case Top => m.root == hole
    case InLeft(n, k, r, up) =>
      && n in m.cell && m.cell[n] == Cell(hole, Root(r), Parent(up), k)
      && Linked(m.cell, r, n) && CtxLinked(m, up, n)
    case InRight(l, n, k, up) =>
      && n in m.cell && m.cell[n] == Cell(Root(l), hole, Parent(up), k)
      && Linked(m.cell, l, n) && CtxLinked(m, up, n)
  }

  ghost predicate Apart(c: Ctx, t: Tree) {
    Sep(t) && CtxSep(c) && Nodes(t) !! CtxNodes(c)
  }

  ghost predicate Zipped(m: Mem, c: Ctx, t: Tree) {
    Linked(m.cell, t, Parent(c)) && CtxLinked(m, c, Root(t)) && Apart(c, t)
  }

  ghost predicate View(root: RbRoot, s: set<RbNode>, c: Ctx, t: Tree)
    reads root, s
  {
    Zipped(Snap(root, s), c, t)
  }

  // The tree hanging off `root` is exactly `t`, and it is a red-black tree.
  ghost predicate Valid(root: RbRoot, t: Tree)
    reads root, Nodes(t)
  {
    View(root, Nodes(t), Top, t) && RedBlack(t)
  }

  // What the code reads: the fields at the point of view and just above it.
  lemma Look(root: RbRoot, s: set<RbNode>, c: Ctx, t: Tree)
    requires View(root, s, c, t)
    ensures t.Fork? ==>
      && t.node in s && t.node.left == Root(t.left) && t.node.right == Root(t.right)
      && t.node.parent == Parent(c) && t.node.color == t.color && t.node in Nodes(t)
    ensures !c.Top? ==>
      && c.node in s && c.node.parent == Parent(c.up) && c.node.color == c.color && c.node != Root(t)
    ensures c.Top? ==> root.node == Root(t)
    ensures c.InLeft? ==> c.node.left == Root(t) && c.node.right == Root(c.right)
    ensures c.InRight? ==> c.node.right == Root(t) && c.node.left == Root(c.left)
  {
  }

  // Siblings differ, so comparing child links tells the two sides apart.
  lemma Sides(c: Ctx, t: Tree)
    requires Apart(c, t) && t.Fork?
    ensures c.InLeft? ==> Root(c.right) != t.node
    ensures c.InRight? ==> Root(c.left) != t.node
  {
    assert t.node in Nodes(t);
    if c.InLeft? && c.right.Fork? { assert c.right.node in Nodes(c.right); }
    if c.InRight? && c.left.Fork? { assert c.left.node in Nodes(c.left); }
  }

  // ---- Moving the point of view ----

  ghost function Enclosing(c: Ctx, t: Tree): Tree
    requires !c.Top?
  {
    if c.InLeft? then Fork(t, c.node, c.color, c.right) else Fork(c.left, c.node, c.color, t)
  }

  lemma Up(root: RbRoot, s: set<RbNode>, c: Ctx, t: Tree)
    requires View(root, s, c, t) && !c.Top?
    ensures View(root, s, c.up, Enclosing(c, t))
  {
  }

  lemma DownLeft(root: RbRoot, s: set<RbNode>, c: Ctx, t: Tree)
    requires View(root, s, c, t) && t.Fork?
    ensures View(root, s, InLeft(t.node, t.color, t.right, c), t.left)
  {
  }

  lemma DownRight(root: RbRoot, s: set<RbNode>, c: Ctx, t: Tree)
    requires View(root, s, c, t) && t.Fork?
    ensures View(root, s, InRight(t.left, t.node, t.color, c), t.right)
  {
  }

  lemma {:induction false} ZipUp(root: RbRoot, s: set<RbNode>, inner: Ctx, outer: Ctx, t: Tree)
    requires View(root, s, Compose(inner, outer), t)
    ensures View(root, s, outer, Plug(inner, t))
    decreases inner
  {
    if !inner.Top? {
      Up(root, s, Compose(inner, outer), t);
      ZipUp(root, s, inner.up, outer, Enclosing(inner, t));
    }
  }

  lemma {:induction false} ZipDown(root: RbRoot, s: set<RbNode>, inner: Ctx, outer: Ctx, t: Tree)
    requires View(root, s, outer, Plug(inner, t))
    ensures View(root, s, Compose(inner, outer), t)
    decreases inner
  {
    if !inner.Top? {
      ZipDown(root, s, inner.up, outer, Enclosing(inner, t));
      if inner.InLeft? {
        DownLeft(root, s, Compose(inner.up, outer), Enclosing(inner, t));
      } else {
        DownRight(root, s, Compose(inner.up, outer), Enclosing(inner, t));
      }
    }
  }

  // ---- Frames ----

  ghost predicate Same(m: map<RbNode, Cell>, m': map<RbNode, Cell>, s: set<RbNode>) {
    forall n :: n in s && n in m ==> n in m' && m[n] == m'[n]
  }

  lemma {:induction false} Frame(m: map<RbNode, Cell>, m': map<RbNode, Cell>, t: Tree, p: RbNode?)
    requires Linked(m, t, p) && Same(m, m', Nodes(t))
    ensures Linked(m', t, p)
  {
    if t.Fork? {
      Frame(m, m', t.left, t.node);
      Frame(m, m', t.right, t.node);
    }
  }

  // Giving the root of a subtree another parent.
  lemma Reparent(m: map<RbNode, Cell>, m': map<RbNode, Cell>, t: Tree, p: RbNode?, p': RbNode?)
    requires Linked(m, t, p) && Sep(t)
    requires t.Fork? ==>
      && Same(m, m', Nodes(t) - {t.node})
      && t.node in m' && m'[t.node] == m[t.node].(parent := p')
    ensures Linked(m', t, p')
  {
    if t.Fork? {
      Frame(m, m', t.left, t.node);
      Frame(m, m', t.right, t.node);
    }
  }

  lemma {:induction false} CtxFrame(m: Mem, m': Mem, c: Ctx, hole: RbNode?)
    requires CtxLinked(m, c, hole) && Same(m.cell, m'.cell, CtxNodes(c)) && m.root == m'.root
    ensures CtxLinked(m', c, hole)
  {
    match c
    case Top =>
    case InLeft(n, _, r, up) => Frame(m.cell, m'.cell, r, n); CtxFrame(m, m', up, n);
    case InRight(l, n, _, up) => Frame(m.cell, m'.cell, l, n); CtxFrame(m, m', up, n);
  }

  // `m'` is `m` with `v` stored where `node` hung: below `p`, or at the root.
  ghost predicate Relinked(m: Mem, m': Mem, p: RbNode?, node: RbNode?, v: RbNode?) {
    if p == null then m'.root == v
    else
      && m'.root == m.root && p in m.cell && p in m'.cell
      && m'.cell[p] == if m.cell[p].left == node then m.cell[p].(left := v) else m.cell[p].(right := v)
  }

  lemma CtxRelink(m: Mem, m': Mem, c: Ctx, node: RbNode?, v: RbNode?)
    requires CtxLinked(m, c, node) && CtxSep(c)
    requires c.InRight? ==> Root(c.left) != node
    requires Relinked(m, m', Parent(c), node, v)
    requires Same(m.cell, m'.cell, if c.Top? then {} else CtxNodes(c) - {c.node})
    ensures CtxLinked(m', c, v)
  {
    match c
    case Top =>
    case InLeft(n, _, r, up) => Frame(m.cell, m'.cell, r, n); CtxFrame(m, m', up, n);
    case InRight(l, n, _, up) => Frame(m.cell, m'.cell, l, n); CtxFrame(m, m', up, n);
  }

  // Linked nodes are among the nodes looked at.
  lemma {:induction false} LinkedKeys(m: map<RbNode, Cell>, t: Tree, p: RbNode?)
    requires Linked(m, t, p)
    ensures Nodes(t) <= m.Keys
  {
    if t.Fork? {
      LinkedKeys(m, t.left, t.node);
      LinkedKeys(m, t.right, t.node);
    }
  }

  lemma {:induction false} CtxKeys(m: Mem, c: Ctx, hole: RbNode?)
    requires CtxLinked(m, c, hole)
    ensures CtxNodes(c) <= m.cell.Keys
  {
    match c
    case Top =>
    case InLeft(n, _, r, up) => LinkedKeys(m.cell, r, n); CtxKeys(m, up, n);
    case InRight(l, n, _, up) => LinkedKeys(m.cell, l, n); CtxKeys(m, up, n);
  }

  // ---- Painting ----

  lemma PaintZip(m: Mem, m': Mem, c: Ctx, t: Tree, k: Color)
    requires Zipped(m, c, t) && t.Fork?
    requires m' == m.(cell := m.cell[t.node := m.cell[t.node].(color := k)])
    ensures Zipped(m', c, t.(color := k))
  {
    Frame(m.cell, m'.cell, t.left, t.node);
    Frame(m.cell, m'.cell, t.right, t.node);
    CtxFrame(m, m', c, t.node);
  }

  // rb_set_red, rb_set_black and rb_set_color on the node in view.
  method Paint(root: RbRoot, node: RbNode, k: Color, ghost s: set<RbNode>, ghost c: Ctx, ghost t: Tree)
    requires View(root, s, c, t) && t.Fork? && t.node == node
    modifies root, s
    ensures View(root, s, c, t.(color := k))
  {
    Look(root, s, c, t);
    ghost var m := Snap(root, s);
    node.color := k;
    assert Snap(root, s).cell == m.cell[node := m.cell[node].(color := k)];
    PaintZip(m, Snap(root, s), c, t, k);
  }

  // ---- Rotating left ----

  ghost function RotL(t: Tree): Tree
    requires t.Fork? && t.right.Fork?
  {
    var r := t.right;
    Fork(Fork(t.left, t.node, t.color, r.left), r.node, r.color, r.right)
  }

  ghost predicate CanRotateLeft(m: Mem, node: RbNode) {
    node in m.cell &&
    var right, p := m.cell[node].right, m.cell[node].parent;
    right != null && right in m.cell && right != node &&
    var b := m.cell[right].left;
    && (b != null ==> b in m.cell && b != node && b != right)
    && (p != null ==> p in m.cell && p != node && p != right && p != b)
  }

  ghost predicate RotatedLeft(m: Mem, m': Mem, node: RbNode)
    requires CanRotateLeft(m, node)
  {
    var right, p := m.cell[node].right, m.cell[node].parent;
    var b := m.cell[right].left;
    && m'.cell.Keys == m.cell.Keys
    && m'.cell[node] == m.cell[node].(right := b, parent := right)
    && m'.cell[right] == m.cell[right].(left := node, parent := p)
    && (b != null ==> m'.cell[b] == m.cell[b].(parent := node))
    && Relinked(m, m', p, node, right)
    && forall n :: n in m.cell && n != node && n != right && n != b && n != p ==> m'.cell[n] == m.cell[n]
  }

  // __rb_rotate_left, store by store.
  method RotateLeftCells(root: RbRoot, node: RbNode, ghost s: set<RbNode>)
    requires CanRotateLeft(Snap(root, s), node)
    modifies root, s
    ensures RotatedLeft(old(Snap(root, s)), Snap(root, s), node)
  {
    var right := node.right;
    var parent := node.parent;
    node.right := right.left;
    if right.left != null {
      right.left.parent := node;
    }
    right.left := node;
    right.parent := parent;
    if parent != null {
      if node == parent.left {
        parent.left := right;
      } else {
        parent.right := right;
      }
    } else {
      root.node := right;
    }
    node.parent := right;
  }

  // The nodes a left rotation touches.
  lemma OpenRight(m: map<RbNode, Cell>, t: Tree, p: RbNode?)
    requires Linked(m, t, p) && Sep(t) && t.Fork? && t.right.Fork?
    ensures var y, b := t.right, t.right.left;
      && Linked(m, y, t.node) && Linked(m, b, y.node) && Linked(m, y.right, y.node)
      && Sep(y) && Sep(b) && Nodes(y) <= Nodes(t) && Nodes(b) <= Nodes(y) && Nodes(y.right) <= Nodes(y)
      && y.node in Nodes(y) && (b.Fork? ==> b.node in Nodes(b) && b.node in m)
  {
  }

  lemma CanRotateLeftZip(m: Mem, c: Ctx, t: Tree)
    requires Zipped(m, c, t) && t.Fork? && t.right.Fork?
    ensures CanRotateLeft(m, t.node)
  {
    OpenRight(m.cell, t, Parent(c));
  }

  lemma RotateLeftApart(c: Ctx, t: Tree)
    requires Apart(c, t) && t.Fork? && t.right.Fork?
    ensures Apart(c, RotL(t)) && Nodes(RotL(t)) == Nodes(t)
  {
    var y, x' := t.right, RotL(t).left;
    assert Sep(y) && Nodes(y) == Nodes(y.left) + {y.node} + Nodes(y.right);
    assert Sep(x') && Nodes(x') == Nodes(t.left) + {t.node} + Nodes(y.left);
  }

  lemma RotateLeftInorder(t: Tree)
    requires t.Fork? && t.right.Fork?
    ensures Inorder(RotL(t)) == Inorder(t)
  {
    var y, x' := t.right, RotL(t).left;
    assert Inorder(y) == Inorder(y.left) + [y.node] + Inorder(y.right);
    assert Inorder(x') == Inorder(t.left) + [t.node] + Inorder(y.left);
  }

  lemma RotateLeftLinked(m: Mem, m': Mem, c: Ctx, t: Tree)
    requires Zipped(m, c, t) && t.Fork? && t.right.Fork?
    requires CanRotateLeft(m, t.node) && RotatedLeft(m, m', t.node)
    ensures Linked(m'.cell, RotL(t), Parent(c))
  {
    var y, b := t.right, t.right.left;
    OpenRight(m.cell, t, Parent(c));
    Frame(m.cell, m'.cell, t.left, t.node);
    Reparent(m.cell, m'.cell, b, y.node, t.node);
    Frame(m.cell, m'.cell, y.right, y.node);
  }

  lemma RotateLeftZip(m: Mem, m': Mem, c: Ctx, t: Tree)
    requires Zipped(m, c, t) && t.Fork? && t.right.Fork?
    requires CanRotateLeft(m, t.node) && RotatedLeft(m, m', t.node)
    ensures Zipped(m', c, RotL(t))
  {
    OpenRight(m.cell, t, Parent(c));
    RotateLeftLinked(m, m', c, t);
    Sides(c, t);
    CtxRelink(m, m', c, t.node, t.right.node);
    RotateLeftApart(c, t);
  }

  method RotateLeft(root: RbRoot, node: RbNode, ghost s: set<RbNode>, ghost c: Ctx, ghost t: Tree)
    requires View(root, s, c, t) && t.Fork? && t.node == node && t.right.Fork?
    modifies root, s
    ensures View(root, s, c, RotL(t))
  {
    ghost var m := Snap(root, s);
    CanRotateLeftZip(m, c, t);
    RotateLeftCells(root, node, s);
    RotateLeftZip(m, Snap(root, s), c, t);
  }

  // ---- Rotating right ----

  ghost function RotR(t: Tree): Tree
    requires t.Fork? && t.left.Fork?
  {
    var l := t.left;
    Fork(l.left, l.node, l.color, Fork(l.right, t.node, t.color, t.right))
  }

  ghost predicate CanRotateRight(m: Mem, node: RbNode) {
    node in m.cell &&
    var left, p := m.cell[node].left, m.cell[node].parent;
    left != null && left in m.cell && left != node &&
    var b := m.cell[left].right;
    && (b != null ==> b in m.cell && b != node && b != left)
    && (p != null ==> p in m.cell && p != node && p != left && p != b)
    && (p != null ==> (m.cell[p].left == node <==> m.cell[p].right != node))
  }

  ghost predicate RotatedRight(m: Mem, m': Mem, node: RbNode)
    requires CanRotateRight(m, node)
  {
    var left, p := m.cell[node].left, m.cell[node].parent;
    var b := m.cell[left].right;
    && m'.cell.Keys == m.cell.Keys
    && m'.cell[node] == m.cell[node].(left := b, parent := left)
    && m'.cell[left] == m.cell[left].(right := node, parent := p)
    && (b != null ==> m'.cell[b] == m.cell[b].(parent := node))
    && Relinked(m, m', p, node, left)
    && forall n :: n in m.cell && n != node && n != left && n != b && n != p ==> m'.cell[n] == m.cell[n]
  }

  // __rb_rotate_right, store by store.
  method RotateRightCells(root: RbRoot, node: RbNode, ghost s: set<RbNode>)
    requires CanRotateRight(Snap(root, s), node)
    modifies root, s
    ensures RotatedRight(old(Snap(root, s)), Snap(root, s), node)
  {
    var left := node.left;
    var parent := node.parent;
    node.left := left.right;
    if left.right != null {
      left.right.parent := node;
    }
    left.right := node;
    left.parent := parent;
    if parent != null {
      if node == parent.right {
        parent.right := left;
      } else {
        parent.left := left;
      }
    } else {
      root.node := left;
    }
    node.parent := left;
  }

  // The nodes a right rotation touches.
  lemma OpenLeft(m: map<RbNode, Cell>, t: Tree, p: RbNode?)
    requires Linked(m, t, p) && Sep(t) && t.Fork? && t.left.Fork?
    ensures var y, b := t.left, t.left.right;
      && Linked(m, y, t.node) && Linked(m, b, y.node) && Linked(m, y.left, y.node)
      && Sep(y) && Sep(b) && Nodes(y) <= Nodes(t) && Nodes(b) <= Nodes(y) && Nodes(y.left) <= Nodes(y)
      && y.node in Nodes(y) && (b.Fork? ==> b.node in Nodes(b) && b.node in m)
  {
  }

  lemma CanRotateRightZip(m: Mem, c: Ctx, t: Tree)
    requires Zipped(m, c, t) && t.Fork? && t.left.Fork?
    ensures CanRotateRight(m, t.node)
  {
    Sides(c, t);
    OpenLeft(m.cell, t, Parent(c));
  }

  lemma RotateRightApart(c: Ctx, t: Tree)
    requires Apart(c, t) && t.Fork? && t.left.Fork?
    ensures Apart(c, RotR(t)) && Nodes(RotR(t)) == Nodes(t)
  {
    var y, x' := t.left, RotR(t).right;
    assert Sep(y) && Nodes(y) == Nodes(y.right) + {y.node} + Nodes(y.left);
    assert Sep(x') && Nodes(x') == Nodes(t.right) + {t.node} + Nodes(y.right);
  }

  lemma RotateRightInorder(t: Tree)
    requires t.Fork? && t.left.Fork?
    ensures Inorder(RotR(t)) == Inorder(t)
  {
    var y, x' := t.left, RotR(t).right;
    assert Inorder(y) == Inorder(y.left) + [y.node] + Inorder(y.right);
    assert Inorder(x') == Inorder(y.right) + [t.node] + Inorder(t.right);
  }

  lemma RotateRightLinked(m: Mem, m': Mem, c: Ctx, t: Tree)
    requires Zipped(m, c, t) && t.Fork? && t.left.Fork?
    requires CanRotateRight(m, t.node) && RotatedRight(m, m', t.node)
    ensures Linked(m'.cell, RotR(t), Parent(c))
  {
    var y, b := t.left, t.left.right;
    OpenLeft(m.cell, t, Parent(c));
    Frame(m.cell, m'.cell, t.right, t.node);
    Reparent(m.cell, m'.cell, b, y.node, t.node);
    Frame(m.cell, m'.cell, y.left, y.node);
  }

  lemma RotateRightZip(m: Mem, m': Mem, c: Ctx, t: Tree)
    requires Zipped(m, c, t) && t.Fork? && t.left.Fork?
    requires CanRotateRight(m, t.node) && RotatedRight(m, m', t.node)
    ensures Zipped(m', c, RotR(t))
  {
    OpenLeft(m.cell, t, Parent(c));
    RotateRightLinked(m, m', c, t);
    Sides(c, t);
    CtxRelink(m, m', c, t.node, t.left.node);
    RotateRightApart(c, t);
  }

  method RotateRight(root: RbRoot, node: RbNode, ghost s: set<RbNode>, ghost c: Ctx, ghost t: Tree)
    requires View(root, s, c, t) && t.Fork? && t.node == node && t.left.Fork?
    modifies root, s
    ensures View(root, s, c, RotR(t))
  {
    ghost var m := Snap(root, s);
    CanRotateRightZip(m, c, t);
    RotateRightCells(root, node, s);
    RotateRightZip(m, Snap(root, s), c, t);
  }
}
