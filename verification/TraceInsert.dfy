/**
 trace_rb_insert (external/blktrace/blkparse.c:797-825): the search for the
 slot by (time, device, sequence), rb_link_node and rb_insert_color.  The
 in-order sequence of the tree is the stable sort of the traces by that key.
*/
module TraceInsert {
  import opened RbShape
  import opened RbHeap
  import RbInsert

  // The order of the traces.
  ghost predicate Less(a: Key, b: Key) {
    if a.time != b.time then a.time < b.time
    else if a.device != b.device then a.device < b.device
    else a.sequence < b.sequence
  }

  ghost predicate Sorted(s: seq<RbNode>) {
    forall i, j :: 0 <= i < j < |s| ==> !Less(s[j].key, s[i].key)
  }

  // By time, at equal times by device, and at equal devices by sequence.
  ghost predicate ByTime(s: seq<RbNode>) {
    forall i, j :: 0 <= i < j < |s| ==>
      && s[i].key.time <= s[j].key.time
      && (s[i].key.time == s[j].key.time ==> s[i].key.device <= s[j].key.device)
      && (s[i].key.time == s[j].key.time && s[i].key.device == s[j].key.device ==> s[i].key.sequence <= s[j].key.sequence)
  }

  lemma SortedMeans(s: seq<RbNode>)
    ensures Sorted(s) <==> ByTime(s)
  {
  }

  // Behind every trace that is not greater.
  ghost function Place(s: seq<RbNode>, n: RbNode): seq<RbNode> {
    if s == [] || Less(n.key, s[0].key) then [n] + s else [s[0]] + Place(s[1..], n)
  }

  ghost predicate NoneAbove(s: seq<RbNode>, k: Key) {
    forall i :: 0 <= i < |s| ==> !Less(k, s[i].key)
  }

  ghost predicate AllAbove(s: seq<RbNode>, k: Key) {
    forall i :: 0 <= i < |s| ==> Less(k, s[i].key)
  }

  lemma {:induction false} PlaceAt(a: seq<RbNode>, b: seq<RbNode>, n: RbNode)
    requires NoneAbove(a, n.key) && AllAbove(b, n.key)
    ensures Place(a + b, n) == a + [n] + b
  {
    if a != [] {
      assert (a + b)[1..] == a[1..] + b;
      PlaceAt(a[1..], b, n);
    } else {
      assert a + b == b;
    }
  }

  // ---- rb_link_node ----

  // Filling an empty slot.
  lemma FillSlot(m: Mem, m': Mem, c: Ctx, n: RbNode)
    requires CtxLinked(m, c, null) && CtxSep(c)
    requires c.Top? ==> m'.root == n
    requires !c.Top? ==> m'.root == m.root && c.node in m'.cell
    requires c.InLeft? ==> m'.cell[c.node] == m.cell[c.node].(left := n)
    requires c.InRight? ==> m'.cell[c.node] == m.cell[c.node].(right := n)
    requires Same(m.cell, m'.cell, if c.Top? then {} else CtxNodes(c) - {c.node})
    ensures CtxLinked(m', c, n)
  {
    match c
    case Top =>
    case InLeft(x, _, r, up) => Frame(m.cell, m'.cell, r, x); CtxFrame(m, m', up, x);
    case InRight(l, x, _, up) => Frame(m.cell, m'.cell, l, x); CtxFrame(m, m', up, x);
  }

  // rb_link_node; the C code's `rb_link` is the root pointer when `parent` is null and
  // otherwise the parent's left or right pointer.
  method LinkNode(root: RbRoot, node: RbNode, parent: RbNode?, onLeft: bool, ghost s: set<RbNode>, ghost c: Ctx)
    requires View(root, s, c, Leaf) && node !in s && parent == Parent(c)
    requires parent != null ==> onLeft == c.InLeft?
    modifies root, s, node
    ensures View(root, s + {node}, c, Fork(Leaf, node, Red, Leaf))
  {
    ghost var m := Snap(root, s);
    CtxKeys(m, c, null);
    Look(root, s, c, Leaf);
    node.parent := parent;
    node.color := Red;
    node.left, node.right := null, null;
    if parent == null {
      root.node := node;
    } else if onLeft {
      parent.left := node;
    } else {
      parent.right := node;
    }
    FillSlot(m, Snap(root, s + {node}), c, node);
  }

  // ---- The search ----

  // The slot under the point of view lies between the traces that are not greater and the
  // greater ones.
  ghost predicate Brackets(c: Ctx, k: Key) {
    NoneAbove(Before(c), k) && AllAbove(After(c), k)
  }

  lemma Between(k: Key, n: Key, x: Key)
    ensures !Less(k, n) && !Less(n, x) ==> !Less(k, x)
    ensures Less(k, n) && !Less(x, n) ==> Less(k, x)
  {
  }

  lemma GoLeft(c: Ctx, t: Tree, k: Key)
    requires t.Fork? && Brackets(c, k) && Less(k, t.node.key)
    requires Sorted(Before(c) + Inorder(t) + After(c))
    ensures Brackets(InLeft(t.node, t.color, t.right, c), k)
  {
    hide Less;
    var w := Before(c) + Inorder(t) + After(c);
    var r, x := Inorder(t.right), |Before(c)| + |Inorder(t.left)|;
    assert w[x] == t.node;
    forall i | 0 <= i < |r| ensures Less(k, r[i].key) {
      assert r[i] == w[x + 1 + i];
      Between(k, t.node.key, r[i].key);
    }
  }

  lemma GoRight(c: Ctx, t: Tree, k: Key)
    requires t.Fork? && Brackets(c, k) && !Less(k, t.node.key)
    requires Sorted(Before(c) + Inorder(t) + After(c))
    ensures Brackets(InRight(t.left, t.node, t.color, c), k)
  {
    hide Less;
    var w := Before(c) + Inorder(t) + After(c);
    var l, x := Inorder(t.left), |Before(c)| + |Inorder(t.left)|;
    assert w[x] == t.node;
    forall i | 0 <= i < |l| ensures !Less(k, l[i].key) {
      assert l[i] == w[|Before(c)| + i];
      Between(k, t.node.key, l[i].key);
    }
  }

  method FindSlot(root: RbRoot, node: RbNode, ghost w: Tree) returns (parent: RbNode?, onLeft: bool, ghost c: Ctx)
    requires View(root, Nodes(w), Top, w) && Sorted(Inorder(w))
    ensures View(root, Nodes(w), c, Leaf) && Plug(c, Leaf) == w && parent == Parent(c)
    ensures parent != null ==> onLeft == c.InLeft?
    ensures Brackets(c, node.key)
  {
    ghost var s := Nodes(w);
    ghost var t := w;
    c := Top;
    parent, onLeft := null, false;
    Look(root, s, c, t);
    var p := root.node;
    while p != null
      invariant View(root, s, c, t) && Plug(c, t) == w && p == Root(t) && parent == Parent(c)
      invariant parent != null ==> onLeft == c.InLeft?
      invariant Brackets(c, node.key)
      decreases t
    {
      parent := p;
      Look(root, s, c, t);
      InorderPlug(c, t);
      if node.key.time < p.key.time {
        onLeft := true;
      } else if node.key.time > p.key.time {
        onLeft := false;
      } else if node.key.device < p.key.device {
        onLeft := true;
      } else if node.key.device > p.key.device {
        onLeft := false;
      } else {
        onLeft := node.key.sequence < p.key.sequence;
      }
      if onLeft {
        p := p.left;
        GoLeft(c, t, node.key);
        DownLeft(root, s, c, t);
        c, t := InLeft(t.node, t.color, t.right, c), t.left;
      } else {
        p := p.right;
        GoRight(c, t, node.key);
        DownRight(root, s, c, t);
        c, t := InRight(t.left, t.node, t.color, c), t.right;
      }
    }
  }

  lemma InsertLaw(w: Tree, c: Ctx, n: RbNode, w': Tree)
    requires Plug(c, Leaf) == w && Brackets(c, n.key) && Sorted(Inorder(w))
    requires Inorder(w') == Before(c) + [n] + After(c)
    ensures Inorder(w') == Place(Inorder(w), n) && Sorted(Inorder(w'))
    ensures Nodes(w') == Nodes(w) + {n}
  {
    InorderPlug(c, Leaf);
    assert Inorder(w) == Before(c) + After(c);
    PlaceAt(Before(c), After(c), n);
    PlaceSorted(Inorder(w), n);
    OneMoreNode(w, w', Before(c), After(c), n);
  }

  // trace_rb_insert.
  method Insert(root: RbRoot, node: RbNode, ghost w: Tree) returns (ghost w': Tree)
    requires Valid(root, w) && Sorted(Inorder(w)) && node !in Nodes(w)
    modifies root, Nodes(w), node
    ensures Valid(root, w') && Nodes(w') == Nodes(w) + {node}
    ensures Inorder(w') == Place(Inorder(w), node) && Sorted(Inorder(w')) && ByTime(Inorder(w'))
  {
    var parent, onLeft;
    ghost var c;
    parent, onLeft, c := FindSlot(root, node, w);
    ghost var s := Nodes(w) + {node};
    LinkNode(root, node, parent, onLeft, Nodes(w), c);
    ghost var h := HoleBalanced(c, Leaf);
    w' := RbInsert.InsertColor(root, node, s, c);
    InsertLaw(w, c, node, w');
    SortedMeans(Inorder(w'));
  }

  // ---- The order of a whole run of insertions ----

  lemma {:induction false} PlaceKeeps(s: seq<RbNode>, n: RbNode)
    ensures multiset(Place(s, n)) == multiset(s) + multiset{n}
  {
    if s == [] || Less(n.key, s[0].key) {
    } else {
      PlaceKeeps(s[1..], n);
      assert s == [s[0]] + s[1..];
    }
  }

  lemma {:induction false} PlaceSorted(s: seq<RbNode>, n: RbNode)
    requires Sorted(s)
    ensures Sorted(Place(s, n))
  {
    if s == [] || Less(n.key, s[0].key) {
    } else {
      PlaceSorted(s[1..], n);
      var q := Place(s[1..], n);
      PlaceKeeps(s[1..], n);
      forall j | 0 <= j < |q| ensures !Less(q[j].key, s[0].key) {
        assert q[j] in multiset(q);
        assert q[j] == n || q[j] in s[1..];
      }
    }
  }

  // The traces with key `k`, in order.
  ghost function Only(s: seq<RbNode>, k: Key): seq<RbNode> {
    if s == [] then [] else (if s[0].key == k then [s[0]] else []) + Only(s[1..], k)
  }

  lemma {:induction false} OnlyNone(s: seq<RbNode>, k: Key)
    requires AllAbove(s, k)
    ensures Only(s, k) == []
  {
    if s != [] { OnlyNone(s[1..], k); }
  }

  // A new trace goes behind the traces with the same key and disturbs no others.
  lemma {:induction false} PlaceStable(s: seq<RbNode>, n: RbNode, k: Key)
    requires Sorted(s)
    ensures Only(Place(s, n), k) == Only(s, k) + (if n.key == k then [n] else [])
  {
    if s == [] || Less(n.key, s[0].key) {
      assert ([n] + s)[1..] == s;
      if n.key == k && s != [] {
        OnlyNone(s, k);
      }
    } else {
      PlaceStable(s[1..], n, k);
      assert ([s[0]] + Place(s[1..], n))[1..] == Place(s[1..], n);
    }
  }

  // What the tree holds after inserting `ns` one by one into an empty tree.
  ghost function PlaceAll(ns: seq<RbNode>): seq<RbNode> {
    if ns == [] then [] else Place(PlaceAll(ns[..|ns| - 1]), ns[|ns| - 1])
  }

  lemma {:induction false} OnlyAppend(s: seq<RbNode>, n: RbNode, k: Key)
    ensures Only(s + [n], k) == Only(s, k) + (if n.key == k then [n] else [])
  {
    if s == [] {
      assert [n][1..] == [];
    } else {
      OnlyAppend(s[1..], n, k);
      assert (s + [n])[1..] == s[1..] + [n];
    }
  }

  // Any run of insertions yields the stable sort of the arrivals: by time, device and sequence, the
  // same traces, and traces with equal keys in arrival order.
  lemma {:induction false} PlaceAllIsStableSort(ns: seq<RbNode>, k: Key)
    ensures ByTime(PlaceAll(ns)) && multiset(PlaceAll(ns)) == multiset(ns)
    ensures Only(PlaceAll(ns), k) == Only(ns, k)
  {
    SortedMeans(PlaceAll(ns));
    if ns != [] {
      var init, last := ns[..|ns| - 1], ns[|ns| - 1];
      assert ns == init + [last];
      PlaceAllIsStableSort(init, k);
      SortedMeans(PlaceAll(init));
      PlaceSorted(PlaceAll(init), last);
      PlaceKeeps(PlaceAll(init), last);
      PlaceStable(PlaceAll(init), last, k);
      OnlyAppend(init, last, k);
    }
  }

  method InsertAll(root: RbRoot, ns: seq<RbNode>) returns (ghost w: Tree)
    requires root.node == null
    requires forall i, j :: 0 <= i < j < |ns| ==> ns[i] != ns[j]
    modifies root, set n | n in ns
    ensures Valid(root, w) && Inorder(w) == PlaceAll(ns) && ByTime(Inorder(w))
  {
    w := Leaf;
    assert Balanced(w, 0);
    for i := 0 to |ns|
      invariant Valid(root, w) && Inorder(w) == PlaceAll(ns[..i]) && Sorted(Inorder(w))
      invariant Nodes(w) == set n | n in ns[..i]
    {
      assert ns[i] !in ns[..i];
      assert ns[..i + 1][..i] == ns[..i];
      w := Insert(root, ns[i], w);
    }
    assert ns[..|ns|] == ns;
    SortedMeans(Inorder(w));
  }
}
