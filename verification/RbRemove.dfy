/**
 rb_erase (external/blktrace/rbtree.c:222-287): splicing a node out, putting
 its successor in its place, and the repair of RbErase.dfy.
*/
module RbRemove {
  import opened RbShape
  import opened RbHeap
  import opened RbInsert
  import opened RbErase

  // ---- Splicing out a node with at most one child ----

  ghost function OnlyChild(t: Tree): Tree
    requires t.Fork?
  {
    if t.left.Leaf? then t.right else t.left
  }

  // `node` is bypassed: its child hangs where it hung.
  ghost predicate Spliced(m: Mem, m': Mem, node: RbNode, child: RbNode?)
    requires node in m.cell
  {
    var p := m.cell[node].parent;
    && m'.cell.Keys == m.cell.Keys - {node}
    && (child != null ==> child in m.cell && child in m'.cell && m'.cell[child] == m.cell[child].(parent := p))
    && Relinked(m, m', p, node, child)
    && forall n :: n in m'.cell && n != child && n != p ==> n in m.cell && m'.cell[n] == m.cell[n]
  }

  lemma SpliceZip(m: Mem, m': Mem, c: Ctx, t: Tree)
    requires Zipped(m, c, t) && t.Fork? && (t.left.Leaf? || t.right.Leaf?)
    requires Spliced(m, m', t.node, Root(OnlyChild(t)))
    ensures Zipped(m', c, OnlyChild(t))
  {
    var x := OnlyChild(t);
    if x.Fork? { assert x.node in Nodes(x); }
    Sides(c, t);
    Reparent(m.cell, m'.cell, x, t.node, Parent(c));
    CtxRelink(m, m', c, t.node, Root(x));
  }

  lemma SpliceRoots(root: RbRoot, s: set<RbNode>, c: Ctx, t: Tree)
    requires View(root, s, c, t) && t.Fork?
    ensures Root(t.left) != null ==> Root(t.left) in s && Root(t.left) != t.node && Root(t.left) != Parent(c)
    ensures Root(t.right) != null ==> Root(t.right) in s && Root(t.right) != t.node && Root(t.right) != Parent(c)
  {
    DownLeft(root, s, c, t);
    DownRight(root, s, c, t);
    Look(root, s, InLeft(t.node, t.color, t.right, c), t.left);
    Look(root, s, InRight(t.left, t.node, t.color, c), t.right);
  }

  // rbtree.c:227-230 and 269-282.
  method SpliceOut(root: RbRoot, node: RbNode, ghost s: set<RbNode>, ghost c: Ctx, ghost t: Tree)
    returns (child: RbNode?, parent: RbNode?, color: Color)
    requires View(root, s, c, t) && t.Fork? && t.node == node && (t.left.Leaf? || t.right.Leaf?)
    modifies root, s
    ensures View(root, s - {node}, c, OnlyChild(t))
    ensures child == Root(OnlyChild(t)) && parent == Parent(c) && color == t.color
  {
    Look(root, s, c, t);
    SpliceRoots(root, s, c, t);
    ghost var m := Snap(root, s);
    if node.left == null {
      child := node.right;
    } else {
      child := node.left;
    }
    parent := node.parent;
    color := node.color;
    if child != null {
      child.parent := parent;
    }
    if parent != null {
      if parent.left == node {
        parent.left := child;
      } else {
        parent.right := child;
      }
    } else {
      root.node := child;
    }
    assert Spliced(m, Snap(root, s - {node}), node, child);
    SpliceZip(m, Snap(root, s - {node}), c, t);
  }

  // ---- Putting one node in the place of another ----

  ghost predicate Replaced(m: Mem, m': Mem, out: RbNode, in_: RbNode)
    requires out in m.cell
  {
    var o := m.cell[out];
    && m'.cell.Keys == m.cell.Keys - {out} + {in_}
    && m'.cell[in_] == o
    && (o.left != null ==> o.left in m.cell && o.left in m'.cell && m'.cell[o.left] == m.cell[o.left].(parent := in_))
    && (o.right != null ==> o.right in m.cell && o.right in m'.cell && m'.cell[o.right] == m.cell[o.right].(parent := in_))
    && Relinked(m, m', o.parent, out, in_)
    && forall n :: n in m.cell && n != out && n != o.left && n != o.right && n != o.parent ==>
         n in m'.cell && m'.cell[n] == m.cell[n]
  }

  lemma ReplaceZip(m: Mem, m': Mem, c: Ctx, t: Tree, n: RbNode)
    requires Zipped(m, c, t) && t.Fork? && n !in m.cell
    requires Replaced(m, m', t.node, n)
    requires n !in Nodes(t) && n !in CtxNodes(c)
    ensures Zipped(m', c, t.(node := n))
  {
    if t.left.Fork? { assert t.left.node in Nodes(t.left); }
    if t.right.Fork? { assert t.right.node in Nodes(t.right); }
    Sides(c, t);
    Reparent(m.cell, m'.cell, t.left, t.node, n);
    Reparent(m.cell, m'.cell, t.right, t.node, n);
    CtxRelink(m, m', c, t.node, n);
  }

  // ---- The successor ----

  // A path that only goes left.
  ghost predicate Leftward(c: Ctx) {
    c.Top? || (c.InLeft? && Leftward(c.up))
  }

  lemma {:induction false} LeftwardBefore(c: Ctx)
    requires Leftward(c)
    ensures Before(c) == []
  {
    if c.InLeft? { LeftwardBefore(c.up); }
  }

  // rbtree.c:235-237: down the left links of the right subtree.
  method Leftmost(root: RbRoot, start: RbNode, ghost s: set<RbNode>, ghost d: Ctx, ghost r: Tree)
    returns (node: RbNode, ghost mid: Ctx, ghost u: Tree)
    requires View(root, s, d, r) && r.Fork? && r.node == start
    ensures Leftward(mid) && Plug(mid, u) == r && u.Fork? && u.left.Leaf? && u.node == node
    ensures View(root, s, Compose(mid, d), u)
  {
    node, mid, u := start, Top, r;
    Look(root, s, d, r);
    while node.left != null
      invariant View(root, s, Compose(mid, d), u) && u.Fork? && u.node == node && node.left == Root(u.left)
      invariant Leftward(mid) && Plug(mid, u) == r
      decreases u
    {
      node := node.left;
      DownLeft(root, s, Compose(mid, d), u);
      mid, u := InLeft(u.node, u.color, u.right, mid), u.left;
      Look(root, s, Compose(mid, d), u);
    }
  }

  // rbtree.c:238-248: the successor, which has no left child, leaves its place.
  method Detach(root: RbRoot, old_: RbNode, node: RbNode, ghost s: set<RbNode>, ghost mid: Ctx, ghost d: Ctx, ghost u: Tree)
    returns (child: RbNode?, parent: RbNode, color: Color)
    requires View(root, s, Compose(mid, d), u) && u.Fork? && u.node == node && u.left.Leaf?
    requires Leftward(mid) && d.InRight? && d.node == old_ && (mid.InLeft? ==> mid.node != old_)
    modifies root, s
    ensures View(root, s - {node}, Compose(mid, d), u.right)
    ensures child == Root(u.right) && color == u.color
    ensures parent == if mid.Top? then node else mid.node
  {
    ghost var c := Compose(mid, d);
    Look(root, s, c, u);
    Sides(c, u);
    SpliceRoots(root, s, c, u);
    ghost var m := Snap(root, s);
    child := node.right;
    parent := node.parent;
    color := node.color;
    if child != null {
      child.parent := parent;
    }
    if parent == old_ {
      parent.right := child;
      parent := node;
    } else {
      parent.left := child;
    }
    assert Spliced(m, Snap(root, s - {node}), node, child);
    SpliceZip(m, Snap(root, s - {node}), c, u);
  }

  ghost predicate CanReplace(m: Mem, out: RbNode, n: RbNode) {
    && out in m.cell && n !in m.cell
    && var l, r, p := m.cell[out].left, m.cell[out].right, m.cell[out].parent;
       && l != null && l in m.cell && l != out
       && (r != null ==> r in m.cell && r != out && r != l)
       && (p != null ==> p in m.cell && p != out && p != l && p != r)
  }

  // rbtree.c:250-265: the detached successor takes the place of `old`.
  method TakePlaceCells(root: RbRoot, old_: RbNode, node: RbNode, ghost s: set<RbNode>)
    requires CanReplace(Snap(root, s), old_, node)
    modifies root, s, node
    ensures Replaced(old(Snap(root, s)), Snap(root, s - {old_} + {node}), old_, node)
  {
    node.parent, node.color := old_.parent, old_.color;
    node.right := old_.right;
    node.left := old_.left;
    if old_.parent != null {
      if old_.parent.left == old_ {
        old_.parent.left := node;
      } else {
        old_.parent.right := node;
      }
    } else {
      root.node := node;
    }
    old_.left.parent := node;
    if old_.right != null {
      old_.right.parent := node;
    }
  }

  method TakePlace(root: RbRoot, old_: RbNode, node: RbNode, ghost s: set<RbNode>, ghost c: Ctx, ghost t: Tree)
    requires View(root, s, c, t) && t.Fork? && t.node == old_ && t.left.Fork?
    requires node !in s && node !in Nodes(t) && node !in CtxNodes(c)
    modifies root, s, node
    ensures View(root, s - {old_} + {node}, c, t.(node := node))
  {
    Look(root, s, c, t);
    SpliceRoots(root, s, c, t);
    ghost var m := Snap(root, s);
    assert Root(t.right) != Root(t.left) by {
      assert t.left.node in Nodes(t.left);
      if t.right.Fork? { assert t.right.node in Nodes(t.right); }
    }
    TakePlaceCells(root, old_, node, s);
    ReplaceZip(m, Snap(root, s - {old_} + {node}), c, t, node);
  }

  // ---- What remains to be repaired ----

  // After the removal of a node of colour `k`: nothing, or one black node is missing.
  ghost predicate Pending(k: Color, c: Ctx, x: Tree, h: nat) {
    if k.Black? then Short(c, x, h) else RedBlack(Plug(c, x))
  }

  lemma SpliceLaw(c: Ctx, t: Tree, h: nat) returns (h': nat)
    requires Balanced(t, h) && CtxBalanced(c, h) && t.Fork? && (t.left.Leaf? || t.right.Leaf?)
    ensures Pending(t.color, c, OnlyChild(t), h')
  {
    var x := OnlyChild(t);
    if t.color.Black? {
      h' := h - 1;
      assert IsRed(x) ==> Balanced(x.(color := Black), h);
    } else {
      h' := h;
      assert h == 0;
      assert x.Leaf?;
      PlugBalanced(c, x, 0);
    }
  }

  // Balance does not depend on which node sits in a frame.
  lemma {:induction false} RenameFrame(mid: Ctx, d: Ctx, n: RbNode, h: nat)
    requires !d.Top? && CtxBalanced(Compose(mid, d), h)
    ensures CtxBalanced(Compose(mid, d.(node := n)), h)
    ensures RedFrame(Compose(mid, d)) <==> RedFrame(Compose(mid, d.(node := n)))
    ensures !Compose(mid, d.(node := n)).Top?
  {
    if !mid.Top? {
      RenameFrame(mid.up, d, n, Rise(mid.color, h));
    }
  }

  lemma SuccessorLaw(mid: Ctx, d: Ctx, u: Tree, n: RbNode) returns (h: nat)
    requires RedBlack(Plug(Compose(mid, d), u)) && !d.Top? && u.Fork? && u.left.Leaf?
    ensures Pending(u.color, Compose(mid, d.(node := n)), u.right, h)
  {
    h := HoleBalanced(Compose(mid, d), u);
    RenameFrame(mid, d, n, h);
    h := SpliceLaw(Compose(mid, d.(node := n)), u, h);
  }

  // The successor heads the right subtree's sequence.
  lemma SuccessorInorder(mid: Ctx, u: Tree)
    requires Leftward(mid) && u.Fork? && u.left.Leaf?
    ensures Inorder(Plug(mid, u)) == [u.node] + Inorder(Plug(mid, u.right))
  {
    hide Plug, Before, After, Inorder, Leftward;
    InorderPlug(mid, u);
    InorderPlug(mid, u.right);
    LeftwardBefore(mid);
    NoLeft(u);
  }

  lemma NoLeft(u: Tree)
    requires u.Fork? && u.left.Leaf?
    ensures Inorder(u) == [u.node] + Inorder(u.right)
  {
  }

  lemma AroundPlug(mid: Ctx, d: Ctx, x: Tree)
    ensures Around(Compose(mid, d), x) == Around(d, Plug(mid, x))
  {
    if !mid.Top? {
      AroundUp(Compose(mid, d), x);
      AroundPlug(mid.up, d, Enclosing(mid, x));
    }
  }

  // The sequence on either side of the node in view.
  ghost function Preceding(c: Ctx, t: Tree): seq<RbNode>
    requires t.Fork?
  {
    Before(c) + Inorder(t.left)
  }

  ghost function Following(c: Ctx, t: Tree): seq<RbNode>
    requires t.Fork?
  {
    Inorder(t.right) + After(c)
  }

  lemma LeftOver(c: Ctx, t: Tree, mid: Ctx, u: Tree)
    requires t.Fork? && Leftward(mid) && u.Fork? && u.left.Leaf? && t.right == Plug(mid, u)
    ensures Around(Compose(mid, InRight(t.left, u.node, t.color, c)), u.right)
         == Preceding(c, t) + Following(c, t)
  {
    var d := InRight(t.left, u.node, t.color, c);
    AroundPlug(mid, d, u.right);
    SuccessorInorder(mid, u);
  }

  // The node has two children: its successor takes its place (rbtree.c:231-266).
  method EraseInner(root: RbRoot, old_: RbNode, ghost s: set<RbNode>, ghost c: Ctx, ghost t: Tree)
    returns (child: RbNode?, parent: RbNode, color: Color, ghost c': Ctx, ghost x: Tree, ghost h: nat)
    requires View(root, s, c, t) && RedBlack(Plug(c, t)) && t.Fork? && t.node == old_ && t.left.Fork? && t.right.Fork?
    modifies root, s
    ensures View(root, s - {old_}, c', x) && child == Root(x) && parent == Parent(c') && Pending(color, c', x, h)
    ensures Around(c', x) == Preceding(c, t) + Following(c, t)
  {
    ghost var d := InRight(t.left, old_, t.color, c);
    Look(root, s, c, t);
    DownRight(root, s, c, t);
    var node;
    ghost var mid, u;
    node, mid, u := Leftmost(root, old_.right, s, d, t.right);
    PlugCompose(mid, d, u);
    h := SuccessorLaw(mid, d, u, node);
    child, parent, color := Relocate(root, old_, node, s, c, t, mid, u);
    c' := Compose(mid, InRight(t.left, node, t.color, c));
    x := u.right;
    LeftOver(c, t, mid, u);
  }

  method Relocate(root: RbRoot, old_: RbNode, node: RbNode, ghost s: set<RbNode>, ghost c: Ctx, ghost t: Tree,
                  ghost mid: Ctx, ghost u: Tree)
    returns (child: RbNode?, parent: RbNode, color: Color)
    requires t.Fork? && t.node == old_ && t.left.Fork? && Leftward(mid)
    requires u.Fork? && u.node == node && u.left.Leaf?
    requires View(root, s, Compose(mid, InRight(t.left, old_, t.color, c)), u)
    modifies root, s
    ensures View(root, s - {old_}, Compose(mid, InRight(t.left, node, t.color, c)), u.right)
    ensures child == Root(u.right) && color == u.color
    ensures parent == Parent(Compose(mid, InRight(t.left, node, t.color, c)))
  {
    hide View, Zipped, Nodes, CtxNodes, Plug, Leftward;
    ghost var d := InRight(t.left, old_, t.color, c);
    ViewApart(root, s, Compose(mid, d), u);
    FrameApart(mid, d, u);
    Look(root, s, Compose(mid, d), u);
    child, parent, color := Detach(root, old_, node, s, mid, d, u);
    ZipUp(root, s - {node}, mid, d, u.right);
    ghost var t1 := Fork(t.left, old_, t.color, Plug(mid, u.right));
    Up(root, s - {node}, d, Plug(mid, u.right));
    ViewKeys(root, s - {node}, c, t1);
    TakePlace(root, old_, node, s - {node}, c, t1);
    assert s - {node} - {old_} + {node} == s - {old_};
    DownRight(root, s - {old_}, c, t1.(node := node));
    ZipDown(root, s - {old_}, mid, InRight(t.left, node, t.color, c), u.right);
    ParentMoves(mid, InRight(t.left, node, t.color, c));
  }

  lemma ViewApart(root: RbRoot, s: set<RbNode>, c: Ctx, t: Tree)
    requires View(root, s, c, t)
    ensures Apart(c, t)
  {
  }

  lemma ViewKeys(root: RbRoot, s: set<RbNode>, c: Ctx, t: Tree)
    requires View(root, s, c, t)
    ensures Nodes(t) <= s && CtxNodes(c) <= s
  {
    hide Linked, CtxLinked, Nodes, CtxNodes, Apart;
    LinkedKeys(Snap(root, s).cell, t, Parent(c));
    CtxKeys(Snap(root, s), c, Root(t));
  }

  lemma ParentMoves(mid: Ctx, d: Ctx)
    ensures Parent(Compose(mid, d)) == if mid.Top? then Parent(d) else mid.node
  {
  }

  // The frames below `d` and the tree in the hole do not reuse its node.
  lemma {:induction false} FrameApart(mid: Ctx, d: Ctx, u: Tree)
    requires !d.Top? && Apart(Compose(mid, d), u) && u.Fork?
    ensures !mid.Top? ==> mid.node != d.node
    ensures u.node != d.node && d.node in CtxNodes(Compose(mid, d))
  {
    assert u.node in Nodes(u);
    if !mid.Top? {
      FrameApart(mid.up, d, Enclosing(mid, u));
    }
  }

  // ---- rb_erase ----

  ghost function Remove(s: seq<RbNode>, n: RbNode): seq<RbNode> {
    if s == [] then [] else if s[0] == n then s[1..] else [s[0]] + Remove(s[1..], n)
  }

  lemma {:induction false} RemoveAt(a: seq<RbNode>, n: RbNode, b: seq<RbNode>)
    requires n !in a
    ensures Remove(a + [n] + b, n) == a + b
  {
    if a != [] {
      assert (a + [n] + b)[1..] == a[1..] + [n] + b;
      RemoveAt(a[1..], n, b);
    }
  }

  ghost predicate Distinct(s: seq<RbNode>) {
    forall i, j :: 0 <= i < j < |s| ==> s[i] != s[j]
  }

  lemma RemoveSplit(s: seq<RbNode>, a: seq<RbNode>, n: RbNode, b: seq<RbNode>)
    requires Distinct(s) && s == a + [n] + b
    ensures Remove(s, n) == a + b
  {
    assert s[|a|] == n;
    assert forall i :: 0 <= i < |a| ==> a[i] == s[i];
    RemoveAt(a, n, b);
  }

  lemma InorderAt(c: Ctx, t: Tree)
    requires t.Fork?
    ensures Inorder(Plug(c, t)) == Preceding(c, t) + [t.node] + Following(c, t)
  {
    InorderPlug(c, t);
  }

  lemma RemoveFromTree(w: Tree, c: Ctx, t: Tree)
    requires Sep(w) && w == Plug(c, t) && t.Fork?
    ensures Remove(Inorder(w), t.node) == Preceding(c, t) + Following(c, t)
  {
    InorderAt(c, t);
    InorderDistinct(w);
    RemoveSplit(Inorder(w), Preceding(c, t), t.node, Following(c, t));
  }

  lemma NotBeside(s: seq<RbNode>, a: seq<RbNode>, n: RbNode, b: seq<RbNode>)
    requires Distinct(s) && s == a + [n] + b
    ensures n !in a + b
  {
    assert s[|a|] == n;
    assert forall i :: 0 <= i < |a| ==> a[i] == s[i];
    assert forall i :: 0 <= i < |b| ==> b[i] == s[|a| + 1 + i];
  }

  lemma NodesAfterRemove(w: Tree, w': Tree, c: Ctx, t: Tree)
    requires Sep(w) && w == Plug(c, t) && t.Fork? && Inorder(w') == Preceding(c, t) + Following(c, t)
    ensures Nodes(w') == Nodes(w) - {t.node}
  {
    var a, b := Preceding(c, t), Following(c, t);
    InorderAt(c, t);
    InorderDistinct(w);
    NotBeside(Inorder(w), a, t.node, b);
    OneMoreNode(w', w, a, b, t.node);
    InorderNodes(w', t.node);
  }

  // The node has at most one child.
  method EraseOuter(root: RbRoot, node: RbNode, ghost s: set<RbNode>, ghost c: Ctx, ghost t: Tree)
    returns (child: RbNode?, parent: RbNode?, color: Color, ghost x: Tree, ghost h: nat)
    requires View(root, s, c, t) && RedBlack(Plug(c, t)) && t.Fork? && t.node == node && (t.left.Leaf? || t.right.Leaf?)
    modifies root, s
    ensures View(root, s - {node}, c, x) && child == Root(x) && parent == Parent(c) && Pending(color, c, x, h)
    ensures Around(c, x) == Preceding(c, t) + Following(c, t)
  {
    h := HoleBalanced(c, t);
    h := SpliceLaw(c, t, h);
    child, parent, color := SpliceOut(root, node, s, c, t);
    x := OnlyChild(t);
  }

  // The removal of a black node is repaired, that of a red one needs no repair.
  method Mend(root: RbRoot, child: RbNode?, parent: RbNode?, color: Color, ghost s: set<RbNode>,
              ghost c: Ctx, ghost x: Tree, ghost h: nat) returns (ghost w: Tree)
    requires View(root, s, c, x) && child == Root(x) && parent == Parent(c) && Pending(color, c, x, h)
    modifies root, s
    ensures View(root, s, Top, w) && RedBlack(w) && Inorder(w) == Around(c, x)
  {
    if color.Black? {
      w := EraseColor(root, child, parent, s, c, x, h);
    } else {
      ViewTop(root, s, c, x);
      w := Plug(c, x);
    }
  }

  // rb_erase: the node leaves, everything else stays in order, and the tree is red-black.
  method Erase(root: RbRoot, node: RbNode, ghost w: Tree) returns (ghost w': Tree)
    requires Valid(root, w) && node in Nodes(w)
    modifies root, Nodes(w)
    ensures Valid(root, w') && Nodes(w') == Nodes(w) - {node}
    ensures Inorder(w') == Remove(Inorder(w), node)
  {
    ghost var s := Nodes(w);
    ghost var c, t := Unplug(Top, w, node);
    ComposeTop(c);
    ZipDown(root, s, c, Top, t);
    Look(root, s, c, t);
    RemoveFromTree(w, c, t);
    var child, parent, color;
    ghost var c', x, h;
    if node.left == null || node.right == null {
      c' := c;
      child, parent, color, x, h := EraseOuter(root, node, s, c, t);
    } else {
      child, parent, color, c', x, h := EraseInner(root, node, s, c, t);
    }
    w' := Mend(root, child, parent, color, s - {node}, c', x, h);
    NodesAfterRemove(w, w', c, t);
  }

  // ---- rb_first and rb_next ----

  method First(root: RbRoot, ghost w: Tree) returns (n: RbNode?)
    requires View(root, Nodes(w), Top, w)
    ensures n == if Inorder(w) == [] then null else Inorder(w)[0]
  {
    Look(root, Nodes(w), Top, w);
    n := root.node;
    if n == null {
      return;
    }
    ghost var mid, u;
    n, mid, u := Leftmost(root, n, Nodes(w), Top, w);
    SuccessorInorder(mid, u);
  }

  // rb_next, given where the node stands in the sequence.
  method Next(root: RbRoot, node0: RbNode, ghost w: Tree, ghost a: seq<RbNode>, ghost b: seq<RbNode>) returns (n: RbNode?)
    requires View(root, Nodes(w), Top, w) && Inorder(w) == a + [node0] + b
    ensures n == if b == [] then null else b[0]
  {
    ghost var s := Nodes(w);
    InorderNodes(w, node0);
    ghost var c, t := Unplug(Top, w, node0);
    Position(w, c, t, a, b);
    ComposeTop(c);
    ZipDown(root, s, c, Top, t);
    Look(root, s, c, t);
    if node0.right != null {
      DownRight(root, s, c, t);
      ghost var mid, u;
      n, mid, u := Leftmost(root, node0.right, s, InRight(t.left, node0, t.color, c), t.right);
      SuccessorInorder(mid, u);
      return;
    }
    var node := node0;
    var parent := node.parent;
    while parent != null && node == parent.right
      invariant View(root, s, c, t) && t.Fork? && t.node == node && parent == Parent(c) && After(c) == b
      decreases c
    {
      Look(root, s, c, t);
      Sides(c, t);
      Up(root, s, c, t);
      t := Enclosing(c, t);
      c := c.up;
      Look(root, s, c, t);
      node := parent;
      parent := node.parent;
    }
    Look(root, s, c, t);
    n := parent;
  }

  lemma SplitUnique(a: seq<RbNode>, n: RbNode, b: seq<RbNode>, a': seq<RbNode>, b': seq<RbNode>)
    requires a + [n] + b == a' + [n] + b' && Distinct(a + [n] + b)
    ensures b == b'
  {
    var s := a + [n] + b;
    assert s[|a|] == n == s[|a'|];
    assert b == s[|a| + 1..];
    assert b' == s[|a'| + 1..];
  }

  lemma Position(w: Tree, c: Ctx, t: Tree, a: seq<RbNode>, b: seq<RbNode>)
    requires Sep(w) && w == Plug(c, t) && t.Fork? && Inorder(w) == a + [t.node] + b
    ensures b == Following(c, t)
  {
    InorderAt(c, t);
    InorderDistinct(w);
    SplitUnique(a, t.node, b, Preceding(c, t), Following(c, t));
  }
}
