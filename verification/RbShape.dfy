/**
 The values behind external/blktrace/rbtree.c: coloured binary trees whose
 labels are node references, one-hole contexts (the path from a node up to the
 root), and the red-black laws stated on both.

 Nothing here reads the heap.  RbHeap.dfy says when the linked nodes represent
 such a value; the lemmas below say what each repair step does to it.
*/
module RbShape {

  datatype Color = Red | Black

  // The fields of blk_io_trace that order a trace.
  datatype Key = Key(time: nat, device: nat, sequence: nat)

  // struct rb_node, with rb_parent_color split into its two parts, together with the
  // key of the struct trace that embeds it (container_of).
  class RbNode {
    var parent: RbNode?
    var color: Color
    var left: RbNode?
    var right: RbNode?
    const key: Key

    constructor (key: Key)
      ensures this.key == key
    {
      this.key := key;
      parent, left, right := null, null, null;
      color := Red;
    }
  }

  datatype Tree = Leaf | Fork(left: Tree, node: RbNode, color: Color, right: Tree)

  // The path from a hole to the root.  In `InLeft` the hole is the left child of `node`.
  datatype Ctx =
    | Top
    | InLeft(node: RbNode, color: Color, right: Tree, up: Ctx)
    | InRight(left: Tree, node: RbNode, color: Color, up: Ctx)

  ghost function Inorder(t: Tree): seq<RbNode> {
    match t
    case Leaf => []
    case Fork(l, n, _, r) => Inorder(l) + [n] + Inorder(r)
  }

  ghost function Nodes(t: Tree): set<RbNode> {
    match t
    case Leaf => {}
    case Fork(l, n, _, r) => Nodes(l) + {n} + Nodes(r)
  }

  // No node occurs twice.
  ghost predicate Sep(t: Tree) {
    match t
    case Leaf => true
    case Fork(l, n, _, r) =>
      && Sep(l) && Sep(r)
      && n !in Nodes(l) && n !in Nodes(r) && Nodes(l) !! Nodes(r)
  }

  ghost function Plug(c: Ctx, t: Tree): Tree {
    match c
    case Top => t
    case InLeft(n, k, r, up) => Plug(up, Fork(t, n, k, r))
    case InRight(l, n, k, up) => Plug(up, Fork(l, n, k, t))
  }

  // `inner` hangs below the hole of `outer`.
  ghost function Compose(inner: Ctx, outer: Ctx): Ctx {
    match inner
    case Top => outer
    case InLeft(n, k, r, up) => InLeft(n, k, r, Compose(up, outer))
    case InRight(l, n, k, up) => InRight(l, n, k, Compose(up, outer))
  }

  ghost function CtxNodes(c: Ctx): set<RbNode> {
    match c
    case Top => {}
    case InLeft(n, _, r, up) => {n} + Nodes(r) + CtxNodes(up)
    case InRight(l, n, _, up) => Nodes(l) + {n} + CtxNodes(up)
  }

  ghost predicate CtxSep(c: Ctx) {
    match c
    case Top => true
    case InLeft(n, _, r, up) =>
      && Sep(r) && CtxSep(up)
      && n !in Nodes(r) && n !in CtxNodes(up) && Nodes(r) !! CtxNodes(up)
    case InRight(l, n, _, up) =>
      && Sep(l) && CtxSep(up)
      && n !in Nodes(l) && n !in CtxNodes(up) && Nodes(l) !! CtxNodes(up)
  }

  ghost function Before(c: Ctx): seq<RbNode> {
    match c
    case Top => []
    case InLeft(_, _, _, up) => Before(up)
    case InRight(l, n, _, up) => Before(up) + Inorder(l) + [n]
  }

  ghost function After(c: Ctx): seq<RbNode> {
    match c
    case Top => []
    case InLeft(n, _, r, up) => [n] + Inorder(r) + After(up)
    case InRight(_, _, _, up) => After(up)
  }

  ghost function Depth(c: Ctx): nat {
    match c
    case Top => 0
    case InLeft(_, _, _, up) => 1 + Depth(up)
    case InRight(_, _, _, up) => 1 + Depth(up)
  }

  // ---- The red-black laws ----

  ghost predicate IsRed(t: Tree) {
    t.Fork? && t.color.Red?
  }

  // No red node has a red child and every path to a leaf meets `h` black nodes.
  ghost predicate Balanced(t: Tree, h: nat) {
    match t
    case Leaf => h == 0
    case Fork(l, _, Red, r) => Balanced(l, h) && Balanced(r, h) && !IsRed(l) && !IsRed(r)
    case Fork(l, _, Black, r) => h > 0 && Balanced(l, h - 1) && Balanced(r, h - 1)
  }

  ghost predicate RedBlack(t: Tree) {
    !IsRed(t) && exists h: nat :: Balanced(t, h)
  }

  // The longest way down.
  ghost function Height(t: Tree): nat {
    match t
    case Leaf => 0
    case Fork(l, _, _, r) => 1 + if Height(l) < Height(r) then Height(r) else Height(l)
  }

  ghost function Power(k: nat): nat {
    if k == 0 then 1 else 2 * Power(k - 1)
  }

  lemma {:induction false} PowerMono(k: nat, l: nat)
    requires k <= l
    ensures Power(k) <= Power(l)
  {
    if k < l { PowerMono(k, l - 1); }
  }

  lemma {:induction false} BlackHeight(t: Tree, h: nat)
    requires Balanced(t, h)
    ensures Power(h) <= |Inorder(t)| + 1 && Height(t) <= 2 * h + if IsRed(t) then 1 else 0
  {
    if t.Fork? {
      var below := if t.color.Red? then h else h - 1;
      BlackHeight(t.left, below);
      BlackHeight(t.right, below);
    }
  }

  // No way down is longer than the height.
  lemma {:induction false} WayDown(c: Ctx, u: Tree)
    ensures Depth(c) + Height(u) <= Height(Plug(c, u))
  {
    match c
    case Top =>
    case InLeft(n, k, r, up) => WayDown(up, Fork(u, n, k, r));
    case InRight(l, n, k, up) => WayDown(up, Fork(l, n, k, u));
  }

  // What the laws are for: every way down has at most twice as many nodes as the logarithm of all, so
  // that among a million nodes none has more than forty.
  lemma LogarithmicHeight(t: Tree, c: Ctx, u: Tree)
    requires RedBlack(t) && Plug(c, u) == t
    ensures Power((Depth(c) + 1) / 2) <= |Inorder(t)| + 1
    ensures |Inorder(t)| <= 1_000_000 ==> Depth(c) <= 40
  {
    hide Power;
    var h: nat :| Balanced(t, h);
    BlackHeight(t, h);
    WayDown(c, u);
    PowerMono((Depth(c) + 1) / 2, h);
    if Depth(c) > 40 {
      PowerMono(20, (Depth(c) + 1) / 2);
      Million();
    }
  }

  lemma Million()
    ensures Power(20) == 0x10_0000
  {
    assert Power(5) == 32 && Power(10) == 1024 && Power(15) == 0x8000;
  }

  ghost predicate RedFrame(c: Ctx) {
    !c.Top? && c.color.Red?
  }

  ghost function Rise(k: Color, h: nat): nat {
    if k.Black? then h + 1 else h
  }

  // The hole takes a tree of black height `h`; a red frame lies under a black one, so
  // the outermost frame is black.
  ghost predicate CtxBalanced(c: Ctx, h: nat) {
    match c
    case Top => true
    case InLeft(_, k, r, up) =>
      && Balanced(r, h) && CtxBalanced(up, Rise(k, h))
      && (k.Red? ==> !IsRed(r) && !up.Top? && !RedFrame(up))
    case InRight(l, _, k, up) =>
      && Balanced(l, h) && CtxBalanced(up, Rise(k, h))
      && (k.Red? ==> !IsRed(l) && !up.Top? && !RedFrame(up))
  }

  // ---- Plugging ----

  lemma {:induction false} InorderPlug(c: Ctx, t: Tree)
    ensures Inorder(Plug(c, t)) == Before(c) + Inorder(t) + After(c)
  {
    match c
    case Top =>
    case InLeft(n, k, r, up) =>
      InorderPlug(up, Fork(t, n, k, r));
    case InRight(l, n, k, up) =>
      InorderPlug(up, Fork(l, n, k, t));
  }

  // A context and a subtree that fit make a red-black tree.
  lemma {:induction false} PlugBalanced(c: Ctx, t: Tree, h: nat)
    requires Balanced(t, h) && CtxBalanced(c, h)
    requires IsRed(t) ==> !RedFrame(c) && !c.Top?
    ensures RedBlack(Plug(c, t))
  {
    match c
    case Top =>
    case InLeft(n, k, r, up) => PlugBalanced(up, Fork(t, n, k, r), Rise(k, h));
    case InRight(l, n, k, up) => PlugBalanced(up, Fork(l, n, k, t), Rise(k, h));
  }

  lemma {:induction false} PlugCompose(inner: Ctx, outer: Ctx, t: Tree)
    ensures Plug(Compose(inner, outer), t) == Plug(outer, Plug(inner, t))
  {
    match inner
    case Top =>
    case InLeft(n, k, r, up) => PlugCompose(up, outer, Fork(t, n, k, r));
    case InRight(l, n, k, up) => PlugCompose(up, outer, Fork(l, n, k, t));
  }

  // Every node of a tree is reached through some context.
  lemma {:induction false} Unplug(c: Ctx, t: Tree, n: RbNode) returns (c': Ctx, t': Tree)
    requires n in Nodes(t)
    ensures t'.Fork? && t'.node == n && Plug(c', t') == Plug(c, t)
    decreases t
  {
    if n == t.node {
      c', t' := c, t;
    } else if n in Nodes(t.left) {
      c', t' := Unplug(InLeft(t.node, t.color, t.right, c), t.left, n);
    } else {
      c', t' := Unplug(InRight(t.left, t.node, t.color, c), t.right, n);
    }
  }

  // The black height at the hole of a balanced tree.
  lemma {:induction false} HoleBalanced(c: Ctx, t: Tree) returns (h: nat)
    requires RedBlack(Plug(c, t))
    ensures Balanced(t, h) && CtxBalanced(c, h)
    ensures IsRed(t) ==> !c.Top? && !RedFrame(c)
    decreases c
  {
    match c
    case Top => h :| Balanced(t, h);
    case InLeft(n, k, r, up) =>
      h := HoleBalanced(up, Fork(t, n, k, r));
      if k.Black? { h := h - 1; }
    case InRight(l, n, k, up) =>
      h := HoleBalanced(up, Fork(l, n, k, t));
      if k.Black? { h := h - 1; }
  }

  lemma InorderNodes(t: Tree, n: RbNode)
    ensures n in Inorder(t) <==> n in Nodes(t)
  {
  }

  // In a tree without repetitions the in-order sequence has none either.
  lemma {:induction false} InorderDistinct(t: Tree)
    requires Sep(t)
    ensures forall i, j :: 0 <= i < j < |Inorder(t)| ==> Inorder(t)[i] != Inorder(t)[j]
  {
    match t
    case Leaf =>
    case Fork(l, n, _, r) =>
      InorderDistinct(l);
      InorderDistinct(r);
      var s, a, b := Inorder(t), Inorder(l), Inorder(r);
      forall i | 0 <= i < |a| ensures s[i] == a[i] && s[i] in Nodes(l) {
        InorderNodes(l, a[i]);
      }
      forall j | |a| < j < |s| ensures s[j] == b[j - |a| - 1] && s[j] in Nodes(r) {
        InorderNodes(r, b[j - |a| - 1]);
      }
  }

  lemma {:induction false} NodesOfInorder(t: Tree)
    ensures Nodes(t) == set n | n in Inorder(t)
  {
    if t.Fork? {
      NodesOfInorder(t.left);
      NodesOfInorder(t.right);
    }
  }

  lemma OneMoreNode(w: Tree, w': Tree, a: seq<RbNode>, b: seq<RbNode>, n: RbNode)
    requires Inorder(w) == a + b && Inorder(w') == a + [n] + b
    ensures Nodes(w') == Nodes(w) + {n}
  {
    NodesOfInorder(w);
    NodesOfInorder(w');
  }
}
