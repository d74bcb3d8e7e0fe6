/**
 walk_bw and extend_blk of external/genext2fs/genext2fs.c (lines 966-1244,
 growing, without holes) on an image of 256-word blocks and an inode table.

 `own[n]` is the set of pointer slots of inode `n` that are in use.  The image is
 sound when every such slot points to an allocated block and no two of them
 point to the same one; everything else follows from that.
*/
module Ext2Volume {
  import opened Arith
  import opened Ext2Alloc
  import opened Ext2Paths
  import opened Basics

  type Block = seq<nat>

  // The inode fields the walker uses: i_block and i_blocks.
  datatype Inode = Inode(block: seq<nat>, blocks: nat)

  datatype Image = Image(inode: map<nat, Inode>, mem: map<nat, Block>)

  type Slots = map<nat, set<Path>>

  // The block a slot points to.
  function Get(img: Image, n: nat, p: Path): nat {
    match p
    case Slot(i) => if n in img.inode && i < |img.inode[n].block| then img.inode[n].block[i] else 0
    case Sub(up, i) =>
      var b := Get(img, n, up);
      if b in img.mem && i < |img.mem[b]| then img.mem[b][i] else 0
  }

  ghost predicate Shape(img: Image) {
    && (forall n :: n in img.inode ==> |img.inode[n].block| == 15)
    && (forall b :: b in img.mem ==> |img.mem[b]| == WORDS)
  }

  ghost predicate Owned(own: Slots, n: nat, p: Path) {
    n in own && p in own[n]
  }

  ghost predicate SlotOk(img: Image, own: Slots, gs: seq<Group>, bpg: nat, n: nat, p: Path)
    requires n in own && 0 < bpg
  {
    && (if p.Slot? then p.i < 15 else p.i < WORDS && IsIndex(p.up) && Owned(own, n, p.up))
    && Get(img, n, p) in img.mem && BlockUsed(gs, bpg, Get(img, n, p))
  }

  ghost predicate Sound(img: Image, own: Slots, gs: seq<Group>, bpg: nat) {
    && 0 < bpg && Shape(img) && own.Keys == img.inode.Keys
    && (forall n, p :: Owned(own, n, p) ==> SlotOk(img, own, gs, bpg, n, p))
    && (forall n, p, n', p' :: Owned(own, n, p) && Owned(own, n', p') && Get(img, n, p) == Get(img, n', p') ==>
          n == n' && p == p')
  }

  // ---- Storing a pointer ----

  predicate Storable(img: Image, n: nat, p: Path) {
    && n in img.inode
    && match p
       case Slot(i) => i < |img.inode[n].block|
       case Sub(up, i) => Get(img, n, up) in img.mem && i < |img.mem[Get(img, n, up)]|
  }

  function Store(img: Image, n: nat, p: Path, b: nat): Image
    requires Storable(img, n, p)
  {
    match p
    case Slot(i) => img.(inode := img.inode[n := img.inode[n].(block := img.inode[n].block[i := b])])
    case Sub(up, i) =>
      var x := Get(img, n, up);
      var blk: Block := img.mem[x][i := b];
      img.(mem := img.mem[x := blk])
  }

  // A store into a slot that is not in use leaves every slot in use as it was.
  lemma {:induction false} StoreKeeps(img: Image, own: Slots, gs: seq<Group>, bpg: nat, n: nat, p: Path, b: nat, n': nat, q: Path)
    requires Sound(img, own, gs, bpg) && n in own && p !in own[n] && (p.Sub? ==> Owned(own, n, p.up)) && Storable(img, n, p)
    requires Owned(own, n', q)
    ensures Get(Store(img, n, p, b), n', q) == Get(img, n', q)
    decreases q
  {
    assert SlotOk(img, own, gs, bpg, n', q);
    if q.Sub? {
      assert SlotOk(img, own, gs, bpg, n', q.up);
      StoreKeeps(img, own, gs, bpg, n, p, b, n', q.up);
      if p.Sub? && Get(img, n', q.up) == Get(img, n, p.up) {
        assert n' == n && q.up == p.up;
      }
    }
  }

  // The slot itself now holds the block.
  lemma StoreSets(img: Image, own: Slots, gs: seq<Group>, bpg: nat, n: nat, p: Path, b: nat)
    requires Sound(img, own, gs, bpg) && n in own && p !in own[n] && (p.Sub? ==> Owned(own, n, p.up)) && Storable(img, n, p)
    ensures Get(Store(img, n, p, b), n, p) == b
  {
    if p.Sub? {
      StoreKeeps(img, own, gs, bpg, n, p, b, n, p.up);
    }
  }

  // What a step keeps: every slot in use, and the contents of every data block.
  ghost predicate Kept(img: Image, img': Image, own: Slots) {
    && img'.inode.Keys == img.inode.Keys
    && forall n, p :: Owned(own, n, p) ==> SlotKept(img, img', n, p)
  }

  ghost predicate SlotKept(img: Image, img': Image, n: nat, p: Path) {
    && Get(img', n, p) == Get(img, n, p)
    && (!IsIndex(p) ==> SameAt(img, img', Get(img, n, p)))
  }

  ghost predicate SameAt(img: Image, img': Image, b: nat) {
    b in img.mem ==> b in img'.mem && img'.mem[b] == img.mem[b]
  }

  lemma StoreKept(img: Image, own: Slots, gs: seq<Group>, bpg: nat, n: nat, p: Path, b: nat)
    requires Sound(img, own, gs, bpg) && n in own && p !in own[n] && Storable(img, n, p)
    requires p.Sub? ==> Owned(own, n, p.up) && IsIndex(p.up)
    ensures Kept(img, Store(img, n, p, b), own)
  {
    var img' := Store(img, n, p, b);
    forall n', q | Owned(own, n', q) ensures SlotKept(img, img', n', q) {
      StoreKeeps(img, own, gs, bpg, n, p, b, n', q);
      if p.Sub? && !IsIndex(q) {
        assert Get(img, n', q) != Get(img, n, p.up);
      }
    }
  }

  // Attaching a freshly allocated block to an unused slot.
  lemma AttachSound(img: Image, own: Slots, gs: seq<Group>, gs': seq<Group>, overhead: nat, bpg: nat, n: nat, p: Path, b: nat)
    requires Sound(img, own, gs, bpg) && n in own && p !in own[n] && b in img.mem && TookBlock(gs, gs', overhead, bpg, b)
    requires if p.Slot? then p.i < 15 else p.i < WORDS && IsIndex(p.up) && Owned(own, n, p.up)
    ensures Storable(img, n, p)
    ensures Sound(Store(img, n, p, b), own[n := own[n] + {p}], gs', bpg)
  {
    if p.Sub? { assert SlotOk(img, own, gs, bpg, n, p.up); }
    var img', own' := Store(img, n, p, b), own[n := own[n] + {p}];
    BlockOnce(gs, gs', overhead, bpg, b, b);
    StoreSets(img, own, gs, bpg, n, p, b);
    forall n', q | Owned(own', n', q) ensures SlotOk(img', own', gs', bpg, n', q) {
      AttachSlotOk(img, own, gs, gs', overhead, bpg, n, p, b, n', q);
    }
    forall n1, q1, n2, q2 | Owned(own', n1, q1) && Owned(own', n2, q2) && Get(img', n1, q1) == Get(img', n2, q2)
      ensures n1 == n2 && q1 == q2
    {
      AttachGet(img, own, gs, bpg, n, p, b, n1, q1);
      AttachGet(img, own, gs, bpg, n, p, b, n2, q2);
    }
  }

  lemma AttachGet(img: Image, own: Slots, gs: seq<Group>, bpg: nat, n: nat, p: Path, b: nat, n': nat, q: Path)
    requires Sound(img, own, gs, bpg) && n in own && p !in own[n] && Storable(img, n, p) && !BlockUsed(gs, bpg, b)
    requires p.Sub? ==> Owned(own, n, p.up)
    requires n' in own && (Owned(own, n', q) || (n' == n && q == p))
    ensures Owned(own, n', q) ==> Get(Store(img, n, p, b), n', q) == Get(img, n', q) != b
    ensures n' == n && q == p ==> Get(Store(img, n, p, b), n', q) == b
  {
    StoreSets(img, own, gs, bpg, n, p, b);
    if Owned(own, n', q) {
      StoreKeeps(img, own, gs, bpg, n, p, b, n', q);
      assert SlotOk(img, own, gs, bpg, n', q);
    }
  }

  lemma AttachSlotOk(img: Image, own: Slots, gs: seq<Group>, gs': seq<Group>, overhead: nat, bpg: nat, n: nat, p: Path, b: nat,
                     n': nat, q: Path)
    requires Sound(img, own, gs, bpg) && n in own && p !in own[n] && b in img.mem && TookBlock(gs, gs', overhead, bpg, b)
    requires if p.Slot? then p.i < 15 else p.i < WORDS && IsIndex(p.up) && Owned(own, n, p.up)
    requires Storable(img, n, p) && Owned(own[n := own[n] + {p}], n', q)
    ensures SlotOk(Store(img, n, p, b), own[n := own[n] + {p}], gs', bpg, n', q)
  {
    BlockOnce(gs, gs', overhead, bpg, b, b);
    AttachGet(img, own, gs, bpg, n, p, b, n', q);
    if Owned(own, n', q) {
      assert SlotOk(img, own, gs, bpg, n', q);
      BlockOnce(gs, gs', overhead, bpg, b, Get(img, n', q));
    }
  }

  // ---- Writing a data block ----

  function Write(img: Image, b: nat, data: Block): Image {
    img.(mem := img.mem[b := data])
  }

  lemma {:induction false} WriteKeeps(img: Image, own: Slots, gs: seq<Group>, bpg: nat, n: nat, leaf: Path, data: Block, n': nat, q: Path)
    requires Sound(img, own, gs, bpg) && Owned(own, n, leaf) && !IsIndex(leaf) && |data| == WORDS
    requires Owned(own, n', q)
    ensures Get(Write(img, Get(img, n, leaf), data), n', q) == Get(img, n', q)
    decreases q
  {
    assert SlotOk(img, own, gs, bpg, n', q);
    if q.Sub? {
      WriteKeeps(img, own, gs, bpg, n, leaf, data, n', q.up);
      assert Get(img, n', q.up) != Get(img, n, leaf);
    }
  }

  // The image stays sound, and only the written block's contents change.
  lemma WriteSound(img: Image, own: Slots, gs: seq<Group>, bpg: nat, n: nat, leaf: Path, data: Block)
    requires Sound(img, own, gs, bpg) && Owned(own, n, leaf) && !IsIndex(leaf) && |data| == WORDS
    ensures Sound(Write(img, Get(img, n, leaf), data), own, gs, bpg)
    ensures Kept(img, Write(img, Get(img, n, leaf), data), own[n := own[n] - {leaf}])
  {
    var img' := Write(img, Get(img, n, leaf), data);
    forall n', q | Owned(own, n', q) ensures Get(img', n', q) == Get(img, n', q) {
      WriteKeeps(img, own, gs, bpg, n, leaf, data, n', q);
    }
    assert SlotOk(img, own, gs, bpg, n, leaf);
    forall n', q | Owned(own, n', q) ensures SlotOk(img', own, gs, bpg, n', q) {
      assert SlotOk(img, own, gs, bpg, n', q);
    }
    var own' := own[n := own[n] - {leaf}];
    forall n', q | Owned(own', n', q) ensures SlotKept(img, img', n', q) {
      assert Owned(own, n', q);
    }
  }

  // ---- The volume ----

  ghost function OwnOf(count: map<nat, nat>): Slots {
    map n | n in count :: UsedSet(count[n])
  }

  // i_blocks counts data and index blocks in units of 512 bytes.
  ghost predicate CountsOk(img: Image, count: map<nat, nat>) {
    && count.Keys == img.inode.Keys
    && forall n :: n in count ==> count[n] <= MAX_DATA && img.inode[n].blocks == 2 * Total(count[n])
  }

  ghost predicate FreeInMem(img: Image, gs: seq<Group>, bpg: nat) {
    forall b: nat :: BlockFree(gs, bpg, b) ==> b in img.mem
  }

  lemma GroupInRange(n: nat, d: nat, q: nat)
    requires d > 0 && n < d * q
    ensures Quot(n, d) < q
  {
    QuotRem(n, d);
    TimesIsProduct(q, d);
    if q <= Quot(n, d) { TimesMono(q, Quot(n, d), d); }
  }

  datatype Walked = End | Found(bk: nat) | Died

  ghost predicate Tidy(img: Image, count: map<nat, nat>, gs: seq<Group>, bpg: nat) {
    Sound(img, OwnOf(count), gs, bpg) && CountsOk(img, count)
  }

  // ---- Reading ----

  // allocated(GRP_GET_BLOCK_BITMAP(fs, n), GRP_BBM_OFFSET(fs, n)).
  method Allocated(gs: seq<Group>, bpg: nat, n: nat) returns (b: bool)
    requires 0 < bpg
    ensures b <==> BlockUsed(gs, bpg, n)
  {
    if n == 0 {
      return false;
    }
    QuotIsDiv(n - 1, bpg);
    var g, j := (n - 1) / bpg, (n - 1) % bpg;
    b := g < |gs| && j < |gs[g].bbm| && gs[g].bbm[j];
  }

  lemma LeafPlaced(img: Image, count: map<nat, nat>, gs: seq<Group>, bpg: nat, nod: nat, k: nat)
    requires Tidy(img, count, gs, bpg) && nod in count && k < count[nod]
    ensures var b := Get(img, nod, LeafAt(k)); b != 0 && b in img.mem && BlockUsed(gs, bpg, b)
    ensures Owned(OwnOf(count), nod, LeafAt(k)) && !IsIndex(LeafAt(k))
  {
    LeafUsed(count[nod], k);
    LeafFirstUse(k);
    assert SlotOk(img, OwnOf(count), gs, bpg, nod, LeafAt(k));
  }

  // The first `k` data blocks of an inode, in file order.
  ghost function DataBlocks(img: Image, nod: nat, k: nat): (s: seq<nat>)
    ensures |s| == k
  {
    if k == 0 then [] else DataBlocks(img, nod, k - 1) + [Get(img, nod, LeafAt(k - 1))]
  }

  lemma {:induction false} DataBlockAt(img: Image, nod: nat, k: nat, j: nat)
    requires j < k
    ensures DataBlocks(img, nod, k)[j] == Get(img, nod, LeafAt(j))
  {
    if j < k - 1 { DataBlockAt(img, nod, k - 1, j); }
  }

  // The walk needs no more of the image than this: `c` data blocks in place, and counted.
  ghost predicate Walkable(img: Image, gs: seq<Group>, bpg: nat, nod: nat, c: nat) {
    && 0 < bpg && nod in img.inode && c <= MAX_DATA && img.inode[nod].blocks == 2 * Total(c)
    && forall k: nat :: k < c ==> Get(img, nod, LeafAt(k)) != 0 && BlockUsed(gs, bpg, Get(img, nod, LeafAt(k)))
  }

  lemma StartWalk(img: Image, count: map<nat, nat>, gs: seq<Group>, bpg: nat, nod: nat, w: Walker)
    requires Tidy(img, count, gs, bpg) && nod in img.inode
    ensures nod in count && Pos(w, 0) == w && Walkable(img, gs, bpg, nod, count[nod])
  {
    hide Sound, LeafAt, Total, Get, BlockUsed;
    TidyParts(img, count, gs, bpg);
    forall k: nat | k < count[nod] ensures Get(img, nod, LeafAt(k)) != 0 && BlockUsed(gs, bpg, Get(img, nod, LeafAt(k))) {
      LeafPlaced(img, count, gs, bpg, nod, k);
    }
  }

  lemma TidyParts(img: Image, count: map<nat, nat>, gs: seq<Group>, bpg: nat)
    requires Tidy(img, count, gs, bpg)
    ensures 0 < bpg
  {
  }

  // walk_bw with nothing to create: the k-th call returns the k-th data block, then WALK_END.
  method WalkBw(img: Image, gs: seq<Group>, bpg: nat, nod: nat, bw: Walker,
                ghost w: Walker, ghost k: nat, ghost c: nat, ghost blocks: seq<nat>)
    returns (r: Walked, bw': Walker)
    requires Walkable(img, gs, bpg, nod, c) && k <= c && Fresh(w) && bw == Pos(w, k)
    requires blocks == DataBlocks(img, nod, c)
    ensures k < c ==> r == Found(blocks[k]) && bw' == Pos(w, k + 1)
    ensures k == c ==> r == End && bw' == bw
  {
    WalkStep(w, k);
    if k < c { TotalMono(k, c); }
    if bw.bnum >= img.inode[nod].blocks / 2 {
      return End, bw;
    }
    var m := Advance(bw);
    if m.TooBig? {
      return Died, bw;
    }
    bw' := m.bw;
    var bk := Get(img, nod, m.leaf);
    DataBlockAt(img, nod, c, k);
    if bk != 0 {
      bw' := bw'.(bnum := bw'.bnum + 1);
      var a := Allocated(gs, bpg, bk);
      if !a {
        return Died, bw;
      }
    }
    r := Found(bk);
  }

  // A whole walk, as find_dir, add2dir and extend_blk make it.
  method WalkAll(img: Image, gs: seq<Group>, bpg: nat, nod: nat, w: Walker, ghost count: map<nat, nat>)
    returns (bks: seq<nat>, bw: Walker)
    requires Tidy(img, count, gs, bpg) && nod in img.inode && Fresh(w)
    ensures bks == DataBlocks(img, nod, count[nod]) && bw == Pos(w, count[nod])
  {
    hide *;
    StartWalk(img, count, gs, bpg, nod, w);
    ghost var n, blocks := count[nod], DataBlocks(img, nod, count[nod]);
    bw := w;
    bks := [];
    var r;
    while true
      invariant |bks| <= n && bw == Pos(w, |bks|) && bks == blocks[..|bks|]
      decreases n - |bks|
    {
      r, bw := WalkBw(img, gs, bpg, nod, bw, w, |bks|, n, blocks);
      if !r.Found? {
        break;
      }
      bks := bks + [r.bk];
    }
  }

  // ---- Growing ----

  // i_blocks of every inode.
  ghost predicate SameBlocks(img: Image, img': Image) {
    img'.inode.Keys == img.inode.Keys && forall n :: n in img.inode ==> img'.inode[n].blocks == img.inode[n].blocks
  }

  lemma FreeShrinks(img: Image, img': Image, gs: seq<Group>, gs': seq<Group>, overhead: nat, bpg: nat, b: nat)
    requires FreeInMem(img, gs, bpg) && TookBlock(gs, gs', overhead, bpg, b) && img'.mem.Keys >= img.mem.Keys
    ensures FreeInMem(img', gs', bpg) && b in img.mem
  {
    assert BlockFree(gs, bpg, b);
    forall n: nat | BlockFree(gs', bpg, n) ensures n in img'.mem {
      assert BlockFree(gs, bpg, n);
    }
  }

  lemma {:induction false} KeptTrans(a: Image, b: Image, c: Image, own: Slots, own': Slots)
    requires Kept(a, b, own) && Kept(b, c, own')
    requires forall n, p :: Owned(own, n, p) ==> Owned(own', n, p)
    ensures Kept(a, c, own)
  {
    forall n, p | Owned(own, n, p) ensures SlotKept(a, c, n, p) {
      assert SlotKept(a, b, n, p) && SlotKept(b, c, n, p);
    }
  }

  lemma KeptRefl(img: Image, own: Slots)
    ensures Kept(img, img, own) && SameBlocks(img, img)
  {
  }

  lemma SameBlocksTrans(a: Image, b: Image, c: Image)
    requires SameBlocks(a, b) && SameBlocks(b, c)
    ensures SameBlocks(a, c)
  {
  }

  lemma CountsKept(img: Image, img': Image, count: map<nat, nat>)
    requires SameBlocks(img, img') && CountsOk(img, count)
    ensures CountsOk(img', count)
  {
    hide Total;
  }

  // ---- What is not in use is zero ----

  // Block 0, the free blocks, and the index slots that are not in use.
  ghost predicate Clean(img: Image, own: Slots, gs: seq<Group>, bpg: nat) {
    && 0 < bpg && 0 in img.mem && img.mem[0] == ZeroBlock()
    && (forall b: nat :: BlockFree(gs, bpg, b) ==> b in img.mem && img.mem[b] == ZeroBlock())
    && (forall n, p :: n in own && IsIndex(p) && p !in own[n] ==> Get(img, n, p) == 0)
  }

  lemma IndexAbove(p: Path)
    requires IsIndex(p) && p.Sub?
    ensures IsIndex(p.up)
  {
  }

  lemma UsedNotClean(img: Image, own: Slots, gs: seq<Group>, bpg: nat, n: nat, p: Path)
    requires Sound(img, own, gs, bpg) && Owned(own, n, p)
    ensures var x := Get(img, n, p); x in img.mem && x != 0 && BlockUsed(gs, bpg, x) && !BlockFree(gs, bpg, x)
  {
    hide IsIndex, Get;
    assert SlotOk(img, own, gs, bpg, n, p);
  }

  lemma {:induction false} AttachUnused(img: Image, own: Slots, gs: seq<Group>, bpg: nat, n: nat, p: Path, b: nat, n': nat, q: Path)
    requires Sound(img, own, gs, bpg) && Clean(img, own, gs, bpg) && n in own && p !in own[n] && Storable(img, n, p) && BlockFree(gs, bpg, b)
    requires p.Sub? ==> Owned(own, n, p.up)
    requires n' in own && IsIndex(q) && q !in own[n'] && !(n' == n && q == p)
    ensures Get(Store(img, n, p, b), n', q) == 0
    decreases q
  {
    hide IsIndex, Sound;
    assert Get(img, n', q) == 0;
    if p.Sub? { UsedNotClean(img, own, gs, bpg, n, p.up); }
    if q.Sub? {
      IndexAbove(q);
      if q.up in own[n'] {
        StoreKeeps(img, own, gs, bpg, n, p, b, n', q.up);
        if p.Sub? && Get(img, n', q.up) == Get(img, n, p.up) {
          SlotsApart(img, own, gs, bpg, n, p.up, n', q.up);
        }
      } else if n' == n && q.up == p {
        StoreSets(img, own, gs, bpg, n, p, b);
      } else {
        AttachUnused(img, own, gs, bpg, n, p, b, n', q.up);
      }
    }
  }

  lemma SlotsApart(img: Image, own: Slots, gs: seq<Group>, bpg: nat, n: nat, p: Path, n': nat, q: Path)
    requires Sound(img, own, gs, bpg) && Owned(own, n, p) && Owned(own, n', q) && Get(img, n, p) == Get(img, n', q)
    ensures n == n' && p == q
  {
  }

  lemma AttachClean(img: Image, own: Slots, gs: seq<Group>, gs': seq<Group>, overhead: nat, bpg: nat, n: nat, p: Path, b: nat)
    requires Sound(img, own, gs, bpg) && Clean(img, own, gs, bpg) && n in own && p !in own[n] && b in img.mem && TookBlock(gs, gs', overhead, bpg, b)
    requires Storable(img, n, p) && (p.Sub? ==> Owned(own, n, p.up))
    ensures Clean(Store(img, n, p, b), own[n := own[n] + {p}], gs', bpg)
  {
    hide IsIndex, Sound, Get, TookBlock;
    var img', own' := Store(img, n, p, b), own[n := own[n] + {p}];
    TookFree(gs, gs', overhead, bpg, b);
    if p.Sub? { UsedNotClean(img, own, gs, bpg, n, p.up); }
    forall n', q | n' in own' && IsIndex(q) && q !in own'[n'] ensures Get(img', n', q) == 0 {
      AttachUnused(img, own, gs, bpg, n, p, b, n', q);
    }
  }

  lemma TookFree(gs: seq<Group>, gs': seq<Group>, overhead: nat, bpg: nat, b: nat)
    requires TookBlock(gs, gs', overhead, bpg, b)
    ensures 0 < bpg && BlockFree(gs, bpg, b) && forall n: nat :: BlockFree(gs', bpg, n) ==> BlockFree(gs, bpg, n)
  {
  }

  lemma {:induction false} WriteUnused(img: Image, own: Slots, gs: seq<Group>, bpg: nat, n: nat, leaf: Path, data: Block, n': nat, q: Path)
    requires Sound(img, own, gs, bpg) && Clean(img, own, gs, bpg) && Owned(own, n, leaf) && !IsIndex(leaf) && |data| == WORDS
    requires n' in own && IsIndex(q) && q !in own[n']
    ensures Get(Write(img, Get(img, n, leaf), data), n', q) == 0
    decreases q
  {
    hide IsIndex, Sound;
    assert Get(img, n', q) == 0;
    UsedNotClean(img, own, gs, bpg, n, leaf);
    if q.Sub? {
      IndexAbove(q);
      if q.up in own[n'] {
        WriteKeeps(img, own, gs, bpg, n, leaf, data, n', q.up);
        if Get(img, n', q.up) == Get(img, n, leaf) {
          SlotsApart(img, own, gs, bpg, n, leaf, n', q.up);
        }
      } else {
        WriteUnused(img, own, gs, bpg, n, leaf, data, n', q.up);
      }
    }
  }

  lemma WriteClean(img: Image, own: Slots, gs: seq<Group>, bpg: nat, n: nat, leaf: Path, data: Block)
    requires Sound(img, own, gs, bpg) && Clean(img, own, gs, bpg) && Owned(own, n, leaf) && !IsIndex(leaf) && |data| == WORDS
    ensures Clean(Write(img, Get(img, n, leaf), data), own, gs, bpg)
  {
    hide IsIndex, Sound, Get;
    UsedNotClean(img, own, gs, bpg, n, leaf);
    var img' := Write(img, Get(img, n, leaf), data);
    forall n', q | n' in own && IsIndex(q) && q !in own[n'] ensures Get(img', n', q) == 0 {
      WriteUnused(img, own, gs, bpg, n, leaf, data, n', q);
    }
  }

  lemma BlocksClean(img: Image, img': Image, own: Slots, gs: seq<Group>, bpg: nat)
    requires Clean(img, own, gs, bpg) && img'.mem == img.mem && img'.inode.Keys == img.inode.Keys
    requires forall i :: i in img.inode ==> img'.inode[i].block == img.inode[i].block
    ensures Clean(img', own, gs, bpg)
  {
    hide IsIndex, Get;
    forall n, p | n in own && IsIndex(p) && p !in own[n] ensures Get(img', n, p) == 0 {
      GetIgnoresBlocks(img, img', n, p);
    }
  }

  // In a fresh image everything is zero.
  lemma {:induction false} AllZero(img: Image, n: nat, p: Path)
    requires forall i :: i in img.inode ==> img.inode[i].block == seq(15, _ => 0)
    requires forall b :: b in img.mem ==> img.mem[b] == ZeroBlock()
    ensures Get(img, n, p) == 0
  {
  }

  // The image of init_fs before the root directory: `n` empty inodes and `nb` zero blocks.
  function FreshImage(n: nat, nb: nat): Image {
    Image(map i: nat | 1 <= i <= n && Numbered(i) :: Inode(seq(15, _ => 0), 0), map b: nat | b < nb && Numbered(b) :: ZeroBlock())
  }

  ghost function FreshCount(n: nat): map<nat, nat> {
    map i: nat | 1 <= i <= n && Numbered(i) :: 0
  }

  lemma FreshLaw(geo: Geometry, gs: seq<Group>, bpg: nat)
    requires geo.Sane() && 0 < bpg && forall n: nat :: BlockFree(gs, bpg, n) ==> n < geo.nbblocks
    ensures var n := geo.ipg * geo.nbgroups;
      var img, count := FreshImage(n, geo.nbblocks), FreshCount(n);
      && Sound(img, OwnOf(count), gs, bpg) && CountsOk(img, count) && FreeInMem(img, gs, bpg) && Clean(img, OwnOf(count), gs, bpg)
      && (forall i :: i in count ==> count[i] == 0)
      && forall i :: i in img.inode ==> 1 <= i && Quot(i - 1, geo.ipg) < geo.nbgroups
  {
    hide Sound, Clean, FreshImage, FreshCount, CountsOk, BlockFree, ZeroBlock, OwnOf, Geometry.Sane;
    var n := geo.ipg * geo.nbgroups;
    var img, count := FreshImage(n, geo.nbblocks), FreshCount(n);
    FreshParts(n, geo.nbblocks);
    SaneParts(geo);
    FreshSound(img, count, gs, bpg);
    FreshClean(img, OwnOf(count), gs, bpg);
    forall i | i in img.inode ensures Quot(i - 1, geo.ipg) < geo.nbgroups {
      GroupInRange(i - 1, geo.ipg, geo.nbgroups);
    }
  }

  lemma FreshParts(n: nat, nb: nat)
    ensures var img, count := FreshImage(n, nb), FreshCount(n);
      && count.Keys == img.inode.Keys && (forall i :: i in count ==> count[i] == 0) && (forall b: nat :: b < nb <==> b in img.mem)
      && (forall i: nat :: 1 <= i <= n <==> i in img.inode) && (forall i :: i in img.inode ==> 1 <= i <= n && img.inode[i] == Inode(seq(15, _ => 0), 0))
      && (forall b :: b in img.mem ==> img.mem[b] == ZeroBlock())
  {
    hide ZeroBlock;
    var img := FreshImage(n, nb);
    forall b: nat ensures (b < nb <==> b in img.mem) && (1 <= b <= n <==> b in img.inode) {
      assert Numbered(b);
    }
    assert forall i :: i in img.inode ==> Numbered(i) && img.inode[i] == Inode(seq(15, _ => 0), 0);
  }

  lemma SaneParts(geo: Geometry)
    requires geo.Sane()
    ensures 0 < geo.ipg && 0 < geo.nbblocks
  {
  }

  lemma FreshSound(img: Image, count: map<nat, nat>, gs: seq<Group>, bpg: nat)
    requires 0 < bpg && count.Keys == img.inode.Keys && forall i :: i in count ==> count[i] == 0
    requires forall i :: i in img.inode ==> img.inode[i] == Inode(seq(15, _ => 0), 0)
    requires forall b :: b in img.mem ==> img.mem[b] == ZeroBlock()
    ensures Sound(img, OwnOf(count), gs, bpg) && CountsOk(img, count)
  {
    hide Get, IsIndex, BlockUsed;
    forall n, p ensures !Owned(OwnOf(count), n, p) {
    }
  }

  lemma FreshClean(img: Image, own: Slots, gs: seq<Group>, bpg: nat)
    requires 0 < bpg && 0 in img.mem && FreeInMem(img, gs, bpg)
    requires forall i :: i in img.inode ==> img.inode[i].block == seq(15, _ => 0)
    requires forall b :: b in img.mem ==> img.mem[b] == ZeroBlock()
    ensures Clean(img, own, gs, bpg)
  {
    hide IsIndex, Get;
    forall n: nat, p: Path ensures Get(img, n, p) == 0 {
      AllZero(img, n, p);
    }
  }

  class Volume {
    const alloc: Allocator
    var img: Image
    ghost var count: map<nat, nat>

    ghost predicate Core(own: Slots)
      reads this, alloc
    {
      && alloc.Valid()
      && Sound(img, own, alloc.groups, alloc.bpg)
      && FreeInMem(img, alloc.groups, alloc.bpg) && Clean(img, own, alloc.groups, alloc.bpg)
      && forall n :: n in img.inode ==> 1 <= n && Quot(n - 1, alloc.ipg) < |alloc.groups|
    }

    ghost predicate Valid()
      reads this, alloc
    {
      Core(OwnOf(count)) && CountsOk(img, count)
    }

    // A fresh image: all blocks zero, all inodes empty.
    constructor (geo: Geometry)
      requires geo.Sane() && geo.LastGroupRoom()
      ensures Valid() && fresh(alloc) && img == FreshImage(geo.ipg * geo.nbgroups, geo.nbblocks)
      ensures count == FreshCount(geo.ipg * geo.nbgroups) && forall n :: n in count ==> count[n] == 0
      ensures alloc.freeBlocks == geo.nbblocks - geo.overhead * geo.nbgroups - 1
      ensures alloc.freeInodes == geo.ipg * geo.nbgroups - (EXT2_FIRST_INO - 1)
      ensures |alloc.groups| == geo.nbgroups && alloc.ipg == geo.ipg
    {
      alloc := new Allocator(geo);
      img := FreshImage(geo.ipg * geo.nbgroups, geo.nbblocks);
      count := FreshCount(geo.ipg * geo.nbgroups);
      new;
      hide Sound, Clean, FreeInMem, CountsOk, OwnOf, FreshImage, FreshCount;
      FreshLaw(geo, alloc.groups, alloc.bpg);
    }

    // alloc_blk, and the block goes into slot `p`.
    method Attach(nod: nat, p: Path, ghost own: Slots) returns (ok: bool)
      requires Core(own) && nod in own && p !in own[nod]
      requires if p.Slot? then p.i < 15 else p.i < WORDS && IsIndex(p.up) && Owned(own, nod, p.up)
      modifies this`img, alloc
      ensures ok <==> old(alloc.freeBlocks) > 0
      ensures ok ==> Core(own[nod := own[nod] + {p}]) && alloc.freeBlocks == old(alloc.freeBlocks) - 1
      ensures ok ==> Kept(old(img), img, own) && SameBlocks(old(img), img) && TablesKept(old(img), img, nod)
      ensures ok ==> SameInodes(old(alloc.groups), alloc.groups) && alloc.freeInodes == old(alloc.freeInodes)
    {
      var r := alloc.AllocBlk(nod);
      if r.None? {
        return false;
      }
      FreeShrinks(img, img, old(alloc.groups), alloc.groups, alloc.overhead, alloc.bpg, r.value);
      AttachSound(img, own, old(alloc.groups), alloc.groups, alloc.overhead, alloc.bpg, nod, p, r.value);
      StoreKept(img, own, old(alloc.groups), alloc.bpg, nod, p, r.value);
      AttachClean(img, own, old(alloc.groups), alloc.groups, alloc.overhead, alloc.bpg, nod, p, r.value);
      BlockKeepsInodes(old(alloc.groups), alloc.groups, alloc.overhead, alloc.bpg, r.value);
      StoreTables(img, nod, p, r.value);
      img := Store(img, nod, p, r.value);
      ok := true;
    }

    // The extending part of one walk_bw call: index blocks from the top down, then the data block.
    method AttachAll(nod: nat, ps: seq<Path>) returns (ok: bool)
      requires Valid() && nod in count && count[nod] < MAX_DATA && ps == NewAt(count[nod])
      modifies this`img, alloc
      ensures ok <==> old(alloc.freeBlocks) >= |ps|
      ensures ok ==> Core(OwnOf(Grown(count, nod)))
      ensures ok ==> Kept(old(img), img, OwnOf(count)) && CountsOk(img, count) && TablesKept(old(img), img, nod)
      ensures ok ==> alloc.freeBlocks == old(alloc.freeBlocks) - |ps|
      ensures ok ==> SameInodes(old(alloc.groups), alloc.groups) && alloc.freeInodes == old(alloc.freeInodes)
    {
      hide Sound, Clean, FreeInMem, NewAt, UsedSet, Partly, Grown, OwnOf, IsIndex, Kept, CountsOk, SameBlocks, TablesKept;
      PartlyEnds(count, nod);
      SameInodesRefl(alloc.groups);
      KeptRefl(img, OwnOf(count));
      TablesRefl(img, nod);
      for t := 0 to |ps|
        invariant Core(Partly(count, nod, t)) && Kept(old(img), img, OwnOf(count)) && SameBlocks(old(img), img)
        invariant alloc.freeBlocks == old(alloc.freeBlocks) - t && count == old(count) && TablesKept(old(img), img, nod)
        invariant SameInodes(old(alloc.groups), alloc.groups) && alloc.freeInodes == old(alloc.freeInodes)
      {
        ghost var before, gs := img, alloc.groups;
        PartlyStep(count, nod, t);
        PartlyGrows(count, nod, t);
        ok := Attach(nod, ps[t], Partly(count, nod, t));
        if !ok {
          return;
        }
        KeptTrans(old(img), before, img, OwnOf(count), Partly(count, nod, t));
        SameBlocksTrans(old(img), before, img);
        TablesTrans(old(img), before, img, nod);
        SameInodesTrans(old(alloc.groups), gs, alloc.groups);
      }
      CountsKept(old(img), img, count);
      ok := true;
    }

    // walk_bw with something to create, at the end of the file.
    method Append(nod: nat, bw: Walker, ghost w: Walker) returns (r: Walked, bw': Walker)
      requires Valid() && nod in count && Fresh(w) && bw == Pos(w, count[nod])
      modifies this, alloc
      ensures r.Found? || r.Died?
      ensures r.Found? <==> old(count[nod]) < MAX_DATA && old(alloc.freeBlocks) >= |NewAt(old(count[nod]))|
      ensures r.Found? ==> alloc.freeBlocks == old(alloc.freeBlocks) - |NewAt(old(count[nod]))|
      ensures r.Found? ==> Valid() && count == Grown(old(count), nod) && bw' == Pos(w, old(count[nod]) + 1)
      ensures r.Found? ==> r.bk == Get(img, nod, LeafAt(old(count[nod]))) && Kept(old(img), img, OwnOf(old(count)))
      ensures r.Found? ==> TablesKept(old(img), img, nod)
      ensures r.Found? ==> SameInodes(old(alloc.groups), alloc.groups) && alloc.freeInodes == old(alloc.freeInodes)
    {
      hide *;
      AtEnd(nod, w);
      NewAtIs(count[nod]);
      var m := Advance(bw);
      if m.TooBig? {
        return Died, bw;
      }
      r := Enlarge(nod, m.index, m.leaf, m.bw.bnum);
      bw' := m.bw.(bnum := m.bw.bnum + 1);
    }

    // At the end of the file the test of walk_bw selects the extending branch.
    lemma AtEnd(nod: nat, w: Walker)
      requires Valid() && nod in count && Fresh(w)
      ensures nod in img.inode && Pos(w, count[nod]).bnum >= img.inode[nod].blocks / 2 && count[nod] <= MAX_DATA
      ensures var m := Advance(Pos(w, count[nod]));
        && (m.TooBig? <==> count[nod] == MAX_DATA)
        && (m.Move? ==> m.index == FreshAt(count[nod]) && m.leaf == LeafAt(count[nod]))
        && (m.Move? ==> m.bw.bnum + 1 == Total(count[nod] + 1) && Pos(w, count[nod] + 1) == m.bw.(bnum := m.bw.bnum + 1))
    {
      hide Pos, Advance, Total, LeafAt, FreshAt, Sound;
      WalkStep(w, count[nod]);
      if count[nod] < MAX_DATA { WalkStep(w, count[nod] + 1); }
    }

    method Enlarge(nod: nat, index: seq<Path>, leaf: Path, bnum: nat) returns (r: Walked)
      requires Valid() && nod in count && count[nod] < MAX_DATA
      requires index == FreshAt(count[nod]) && leaf == LeafAt(count[nod]) && bnum + 1 == Total(count[nod] + 1)
      modifies this, alloc
      ensures r.Found? || r.Died?
      ensures r.Found? <==> old(alloc.freeBlocks) >= |index| + 1
      ensures r.Found? ==> alloc.freeBlocks == old(alloc.freeBlocks) - |index| - 1
      ensures r.Found? ==> Valid() && count == Grown(old(count), nod)
      ensures r.Found? ==> r.bk == Get(img, nod, leaf) && Kept(old(img), img, OwnOf(old(count))) && TablesKept(old(img), img, nod)
      ensures r.Found? ==> SameInodes(old(alloc.groups), alloc.groups) && alloc.freeInodes == old(alloc.freeInodes)
    {
      hide *;
      ghost var own := OwnOf(count);
      NewAtIs(count[nod]);
      var ok := AttachAll(nod, index + [leaf]);
      if !ok {
        return Died;
      }
      var bk := Get(img, nod, leaf);
      Grew(nod);
      GrownOwns(count, nod);
      var bnum' := bnum;
      if bk != 0 {
        bnum' := bnum + 1;
        var a := Allocated(alloc.groups, alloc.bpg, bk);
        if !a {
          return Died;
        }
      }
      ghost var grown := img;
      SetBlocks(nod, bnum');
      KeptTrans(old(img), grown, img, own, OwnOf(count));
      TablesTrans(old(img), grown, img, nod);
      KeptGet(grown, img, OwnOf(count), nod, leaf);
      r := Found(bk);
    }

    // memcpy into the block just appended.
    method Fill(nod: nat, bk: nat, data: Block)
      requires Valid() && nod in count && 0 < count[nod] && bk == Get(img, nod, LeafAt(count[nod] - 1)) && |data| == WORDS
      modifies this`img
      ensures Valid() && OthersKept(old(img), img, count, nod) && img.inode == old(img).inode
      ensures Contents(img, nod, count[nod]) == Contents(old(img), nod, count[nod] - 1) + [data]
    {
      hide *;
      IsTidy();
      FillLaw(img, count, alloc.groups, alloc.bpg, nod, data);
      FillClean(img, count, alloc.groups, alloc.bpg, nod, data);
      ghost var img0 := img;
      img := Write(img, bk, data);
      StaysValid(img0);
    }

    // A change inside the k-th data block, in place.
    method Rewrite(nod: nat, k: nat, bk: nat, data: Block)
      requires Valid() && nod in count && k < count[nod] && bk == Get(img, nod, LeafAt(k)) && |data| == WORDS
      modifies this`img
      ensures Valid() && img.inode == old(img).inode
      ensures forall n, j: nat :: n in count && j < count[n] ==>
                DataAt(img, n, j) == if n == nod && j == k then data else DataAt(old(img), n, j)
    {
      hide *;
      IsTidy();
      RewriteLaw(img, count, alloc.groups, alloc.bpg, nod, k, data);
      ghost var img0 := img;
      img := Write(img, bk, data);
      StaysValid(img0);
    }

    // The first two bytes of i_block, in an inode without blocks.
    method SetDevice(nod: nat, major: byte, minor: byte)
      requires Valid() && nod in count && count[nod] == 0
      modifies this`img
      ensures Valid() && TablesKept(old(img), img, nod) && OthersKept(old(img), img, count, nod)
      ensures nod in old(img).inode && |old(img).inode[nod].block| == 15
      ensures nod in img.inode && img.inode[nod].block == old(img).inode[nod].block[0 := WithLow(old(img).inode[nod].block[0], major, minor)]
    {
      hide *;
      IsTidy();
      TidyShape(img, count, alloc.groups, alloc.bpg, nod);
      ghost var img0 := img;
      var block := img.inode[nod].block;
      img := img.(inode := img.inode[nod := img.inode[nod].(block := block[0 := WithLow(block[0], major, minor)])]);
      SlotZero(img0, nod, WithLow(block[0], major, minor));
      DeviceLaw(img0, img, count, alloc.groups, alloc.bpg, nod);
      KeptFiles(img0, img, count, alloc.groups, alloc.bpg, nod);
      StillValid(img0);
    }

    lemma StillValid(img0: Image)
      requires alloc.Valid() && Tidy(img, count, alloc.groups, alloc.bpg) && Clean(img, OwnOf(count), alloc.groups, alloc.bpg)
      requires img.inode.Keys == img0.inode.Keys && img.mem == img0.mem && FreeInMem(img0, alloc.groups, alloc.bpg)
      requires forall n :: n in img0.inode ==> 1 <= n && Quot(n - 1, alloc.ipg) < |alloc.groups|
      ensures Valid()
    {
      hide Sound, Clean;
    }

    // alloc_nod.
    method TakeNod() returns (r: Option<nat>)
      requires Valid()
      modifies alloc`groups, alloc`freeInodes
      ensures Valid() && |alloc.groups| == old(|alloc.groups|)
      ensures r.None? <==> old(alloc.freeInodes) == 0
      ensures r.None? ==> alloc.groups == old(alloc.groups) && alloc.freeInodes == 0
      ensures r.Some? ==> alloc.freeInodes == old(alloc.freeInodes) - 1 && TookInode(old(alloc.groups), alloc.groups, alloc.ipg, r.value)
      ensures r.Some? ==> r.value >= EXT2_FIRST_INO
    {
      hide Sound, Clean, FreeInMem, CountsOk, OwnOf, TookInode;
      r := alloc.AllocNod();
      if r.Some? { InodeKeepsImage(img, OwnOf(count), old(alloc.groups), alloc.groups, alloc.bpg, alloc.ipg, r.value); }
    }

    lemma StaysValid(img0: Image)
      requires alloc.Valid() && Tidy(img, count, alloc.groups, alloc.bpg)
      requires img.inode == img0.inode && img.mem.Keys >= img0.mem.Keys && FreeInMem(img0, alloc.groups, alloc.bpg)
      requires forall n :: n in img0.inode ==> 1 <= n && Quot(n - 1, alloc.ipg) < |alloc.groups|
      requires Clean(img, OwnOf(count), alloc.groups, alloc.bpg)
      ensures Valid()
    {
      hide Sound, Clean;
    }

    lemma IsTidy()
      requires Valid()
      ensures Tidy(img, count, alloc.groups, alloc.bpg)
      ensures CountsOk(img, count)
      ensures alloc.Valid() && 0 < alloc.ipg && FreeInMem(img, alloc.groups, alloc.bpg)
      ensures Clean(img, OwnOf(count), alloc.groups, alloc.bpg)
      ensures forall n :: n in img.inode ==> 1 <= n && Quot(n - 1, alloc.ipg) < |alloc.groups|
    {
    }

    // extend_blk, growing, with holes off: `chunks` are appended to the file, and every other
    // file keeps its blocks and their contents.
    method ExtendBlk(nod: nat, w: Walker, chunks: seq<Block>) returns (ok: bool)
      requires Valid() && nod in count && Fresh(w) && forall i :: 0 <= i < |chunks| ==> |chunks[i]| == WORDS
      modifies this, alloc
      ensures ok ==> Valid() && count == old(count)[nod := old(count)[nod] + |chunks|]
      ensures ok ==> Contents(img, nod, count[nod]) == Contents(old(img), nod, old(count)[nod]) + chunks
      ensures ok ==> OthersKept(old(img), img, old(count), nod) && TablesKept(old(img), img, nod)
      ensures ok <==> Fits(old(count)[nod], |chunks|, old(alloc.freeBlocks))
      ensures ok ==> alloc.freeBlocks == old(alloc.freeBlocks) - Needs(old(count)[nod], |chunks|)
      ensures ok ==> SameInodes(old(alloc.groups), alloc.groups) && alloc.freeInodes == old(alloc.freeInodes)
    {
      hide *;
      ghost var k0 := count[nod];
      IsTidy();
      TidyKeys(img, count, alloc.groups, alloc.bpg);
      OthersRefl(img, count, nod);
      FitsZero(img, count, nod, alloc.freeBlocks);
      SameInodesRefl(alloc.groups);
      TablesRefl(img, nod);
      var bks, bw := WalkAll(img, alloc.groups, alloc.bpg, nod, w, count);
      assert chunks[..0] == [];
      for i := 0 to |chunks|
        invariant Valid() && count == old(count)[nod := k0 + i] && bw == Pos(w, k0 + i)
        invariant Fits(k0, i, old(alloc.freeBlocks)) && alloc.freeBlocks == old(alloc.freeBlocks) - Needs(k0, i)
        invariant OthersKept(old(img), img, old(count), nod) && TablesKept(old(img), img, nod)
        invariant Contents(img, nod, k0 + i) == Contents(old(img), nod, k0) + chunks[..i]
        invariant SameInodes(old(alloc.groups), alloc.groups) && alloc.freeInodes == old(alloc.freeInodes)
      {
        ghost var a, cnt, gs := img, count, alloc.groups;
        IsTidy();
        var r;
        FitsStep(w, k0, i, old(alloc.freeBlocks));
        FitsDown(k0, i + 1, |chunks|, old(alloc.freeBlocks));
        r, bw := Append(nod, bw, w);
        if !r.Found? {
          return false;
        }
        SameInodesTrans(old(alloc.groups), gs, alloc.groups);
        GrownIs(cnt, nod);
        ghost var b := img;
        KeptFiles(a, b, cnt, gs, alloc.bpg, nod);
        Fill(nod, r.bk, chunks[i]);
        TablesTrans(old(img), a, b, nod);
        SameTables(old(img), b, img, nod);
        assert count == old(count)[nod := k0 + i + 1];
        StepOthers(old(img), a, b, img, old(count), nod, k0 + i);
        assert chunks[..i + 1] == chunks[..i] + [chunks[i]];
      }
      assert chunks[..|chunks|] == chunks;
      ok := true;
    }

    lemma Grew(nod: nat)
      requires nod in count && Core(OwnOf(Grown(count, nod)))
      ensures 0 < alloc.bpg && Get(img, nod, LeafAt(count[nod])) != 0
      ensures BlockUsed(alloc.groups, alloc.bpg, Get(img, nod, LeafAt(count[nod])))
    {
      NewLeaf(img, count, alloc.groups, alloc.bpg, nod);
    }

    // i_blocks follows the walker.
    method SetBlocks(nod: nat, bnum: nat)
      requires nod in count && Core(OwnOf(Grown(count, nod))) && CountsOk(img, count)
      requires count[nod] < MAX_DATA && bnum == Total(count[nod] + 1)
      modifies this
      ensures Valid() && count == Grown(old(count), nod) && Kept(old(img), img, OwnOf(count)) && TablesKept(old(img), img, nod)
    {
      hide Sound, Clean, Total, UsedSet, Kept, OwnOf;
      ghost var grown := img;
      ShapeOf(img, OwnOf(Grown(count, nod)), alloc.groups, alloc.bpg);
      img := img.(inode := img.inode[nod := img.inode[nod].(blocks := bnum * 2)]);
      count := Grown(count, nod);
      BlocksOnly(grown, img, OwnOf(count), alloc.groups, alloc.bpg);
      BlocksClean(grown, img, OwnOf(count), alloc.groups, alloc.bpg);
    }
  }

  // The two low bytes of a word replaced.
  function WithLow(v: nat, major: byte, minor: byte): nat {
    v - v % 0x1_0000 + minor + 256 * major
  }

  lemma WithLowMeans(v: nat, major: byte, minor: byte)
    ensures WithLow(v, major, minor) % 256 == minor && WithLow(v, major, minor) / 256 % 256 == major
    ensures WithLow(v, major, minor) / 0x1_0000 == v / 0x1_0000
  {
    var h, w := v / 0x1_0000, WithLow(v, major, minor);
    assert w == 0x1_0000 * h + 256 * major + minor;
    DivUnique(w, 256, 256 * h + major, minor);
    DivUnique(w, 0x1_0000, h, 256 * major + minor);
    DivUnique(256 * h + major, 256, h, major);
  }

  lemma TidyShape(img: Image, count: map<nat, nat>, gs: seq<Group>, bpg: nat, n: nat)
    requires Tidy(img, count, gs, bpg) && n in count
    ensures n in img.inode && |img.inode[n].block| == 15
  {
  }

  lemma TidyBlock(img: Image, count: map<nat, nat>, gs: seq<Group>, bpg: nat, b: nat)
    requires Tidy(img, count, gs, bpg) && b in img.mem
    ensures |img.mem[b]| == WORDS
  {
  }

  // The slot of the inode that a path starts from.
  ghost function Root(p: Path): nat {
    match p
    case Slot(i) => i
    case Sub(up, _) => Root(up)
  }

  // Only slot 0 of inode `nod` is different.
  ghost predicate FirstSlot(img: Image, img': Image, nod: nat) {
    && nod in img.inode && img'.mem == img.mem && img'.inode.Keys == img.inode.Keys && TablesKept(img, img', nod)
    && |img'.inode[nod].block| == |img.inode[nod].block|
    && (forall i :: 0 < i < |img.inode[nod].block| ==> img'.inode[nod].block[i] == img.inode[nod].block[i])
    && (forall n :: n in img.inode ==> img'.inode[n].blocks == img.inode[n].blocks)
  }

  lemma {:induction false} FirstSlotGet(img: Image, img': Image, nod: nat, n: nat, p: Path)
    requires FirstSlot(img, img', nod) && (n != nod || Root(p) != 0)
    ensures Get(img', n, p) == Get(img, n, p)
  {
    if p.Sub? { FirstSlotGet(img, img', nod, n, p.up); }
  }

  // No slot of an inode without blocks is in use, and no index slot starts from slot 0.
  lemma DeviceLaw(img: Image, img': Image, count: map<nat, nat>, gs: seq<Group>, bpg: nat, nod: nat)
    requires Tidy(img, count, gs, bpg) && Clean(img, OwnOf(count), gs, bpg) && nod in count && count[nod] == 0
    requires FirstSlot(img, img', nod)
    ensures Tidy(img', count, gs, bpg) && Clean(img', OwnOf(count), gs, bpg) && Kept(img, img', OwnOf(count))
    ensures TablesKept(img, img', nod) && img'.inode.Keys == img.inode.Keys && img'.mem == img.mem
  {
    hide Get, IsIndex, BlockUsed, BlockFree, Total;
    DeviceCounts(img, img', count, nod);
    var own := OwnOf(count);
    forall n, p | Owned(own, n, p) ensures Get(img', n, p) == Get(img, n, p) && SlotOk(img', own, gs, bpg, n, p) {
      FirstSlotGet(img, img', nod, n, p);
      assert SlotOk(img, own, gs, bpg, n, p);
    }
    forall n, p | n in own && IsIndex(p) && p !in own[n] ensures Get(img', n, p) == 0 {
      IndexRoot(p);
      FirstSlotGet(img, img', nod, n, p);
    }
  }

  lemma DeviceCounts(img: Image, img': Image, count: map<nat, nat>, nod: nat)
    requires FirstSlot(img, img', nod)
    ensures CountsOk(img, count) ==> CountsOk(img', count)
    ensures Shape(img) ==> Shape(img')
  {
    hide Total;
  }

  lemma SlotZero(img: Image, nod: nat, v: nat)
    requires nod in img.inode && |img.inode[nod].block| == 15
    ensures FirstSlot(img, img.(inode := img.inode[nod := img.inode[nod].(block := img.inode[nod].block[0 := v])]), nod)
  {
  }

  lemma IndexRoot(p: Path)
    requires IsIndex(p)
    ensures Root(p) != 0
  {
  }

  // Every inode but `nod` keeps its own 15 slots.
  ghost predicate TablesKept(img: Image, img': Image, nod: nat) {
    forall n :: n in img.inode && n != nod ==> n in img'.inode && img'.inode[n].block == img.inode[n].block
  }

  lemma TablesRefl(img: Image, nod: nat)
    ensures TablesKept(img, img, nod)
  {
  }

  lemma TablesTrans(a: Image, b: Image, c: Image, nod: nat)
    requires TablesKept(a, b, nod) && TablesKept(b, c, nod)
    ensures TablesKept(a, c, nod)
  {
  }

  lemma SameTables(a: Image, b: Image, c: Image, nod: nat)
    requires TablesKept(a, b, nod) && c.inode == b.inode
    ensures TablesKept(a, c, nod)
  {
  }

  lemma StoreTables(img: Image, n: nat, p: Path, b: nat)
    requires Storable(img, n, p)
    ensures TablesKept(img, Store(img, n, p, b), n)
  {
  }

  lemma KeptGet(img: Image, img': Image, own: Slots, n: nat, p: Path)
    requires Kept(img, img', own) && Owned(own, n, p)
    ensures Get(img', n, p) == Get(img, n, p)
  {
    assert SlotKept(img, img', n, p);
  }

  lemma ShapeOf(img: Image, own: Slots, gs: seq<Group>, bpg: nat)
    requires Sound(img, own, gs, bpg)
    ensures own.Keys == img.inode.Keys
  {
  }

  lemma NewAtIs(k: nat)
    ensures NewAt(k) == FreshAt(k) + [LeafAt(k)]
  {
  }

  lemma GrownOwns(count: map<nat, nat>, nod: nat)
    requires nod in count
    ensures forall n, p :: Owned(OwnOf(count), n, p) ==> Owned(OwnOf(Grown(count, nod)), n, p)
    ensures Owned(OwnOf(Grown(count, nod)), nod, LeafAt(count[nod]))
  {
    LeafUsed(count[nod] + 1, count[nod]);
  }

  // The pointer structure does not depend on i_blocks.
  lemma {:induction false} GetIgnoresBlocks(img: Image, img': Image, n: nat, p: Path)
    requires img'.mem == img.mem && img'.inode.Keys == img.inode.Keys
    requires forall i :: i in img.inode ==> img'.inode[i].block == img.inode[i].block
    ensures Get(img', n, p) == Get(img, n, p)
  {
    if p.Sub? { GetIgnoresBlocks(img, img', n, p.up); }
  }

  lemma BlocksOnly(img: Image, img': Image, own: Slots, gs: seq<Group>, bpg: nat)
    requires Sound(img, own, gs, bpg) && img'.mem == img.mem && img'.inode.Keys == img.inode.Keys
    requires forall i :: i in img.inode ==> img'.inode[i].block == img.inode[i].block
    ensures Sound(img', own, gs, bpg) && Kept(img, img', own)
  {
    forall n, p | Owned(own, n, p) ensures Get(img', n, p) == Get(img, n, p) && SlotOk(img', own, gs, bpg, n, p) {
      GetIgnoresBlocks(img, img', n, p);
      assert SlotOk(img, own, gs, bpg, n, p);
    }
  }

  lemma NewLeaf(img: Image, count: map<nat, nat>, gs: seq<Group>, bpg: nat, nod: nat)
    requires nod in count && Sound(img, OwnOf(Grown(count, nod)), gs, bpg)
    ensures var b := Get(img, nod, LeafAt(count[nod])); b != 0 && BlockUsed(gs, bpg, b)
  {
    LeafUsed(count[nod] + 1, count[nod]);
    assert Owned(OwnOf(Grown(count, nod)), nod, LeafAt(count[nod]));
    assert SlotOk(img, OwnOf(Grown(count, nod)), gs, bpg, nod, LeafAt(count[nod]));
  }

  // ---- extend_blk ----

  ghost function Grown(count: map<nat, nat>, nod: nat): map<nat, nat>
    requires nod in count
  {
    count[nod := count[nod] + 1]
  }

  // The slots after the first `t` new ones have been filled.
  ghost function Partly(count: map<nat, nat>, nod: nat, t: nat): Slots
    requires nod in count && t <= |NewAt(count[nod])|
  {
    OwnOf(count)[nod := UsedSet(count[nod]) + Members(NewAt(count[nod])[..t])]
  }

  lemma PartlyStep(count: map<nat, nat>, nod: nat, t: nat)
    requires nod in count && count[nod] < MAX_DATA && t < |NewAt(count[nod])|
    ensures var own, p := Partly(count, nod, t), NewAt(count[nod])[t];
      && nod in own && p !in own[nod]
      && (if p.Slot? then p.i < 15 else p.i < WORDS && IsIndex(p.up) && Owned(own, nod, p.up))
      && own[nod := own[nod] + {p}] == Partly(count, nod, t + 1)
  {
    hide NewAt, UsedSet, IsIndex;
    var k, new_ := count[nod], NewAt(count[nod]);
    NewSlots(k, t);
    NewParents(k, t);
    assert new_[..t + 1] == new_[..t] + [new_[t]];
    assert Members(new_[..t + 1]) == Members(new_[..t]) + {new_[t]};
    assert UsedSet(k) + Members(new_[..t]) + {new_[t]} == UsedSet(k) + Members(new_[..t + 1]);
  }

  lemma PartlyEnds(count: map<nat, nat>, nod: nat)
    requires nod in count
    ensures Partly(count, nod, 0) == OwnOf(count)
    ensures Partly(count, nod, |NewAt(count[nod])|) == OwnOf(Grown(count, nod))
  {
    var new_ := NewAt(count[nod]);
    assert new_[..0] == [] && new_[..|new_|] == new_;
    assert UsedSet(count[nod]) + Members([]) == UsedSet(count[nod]);
  }

  lemma PartlyGrows(count: map<nat, nat>, nod: nat, t: nat)
    requires nod in count && t <= |NewAt(count[nod])|
    ensures forall n, p :: Owned(OwnOf(count), n, p) ==> Owned(Partly(count, nod, t), n, p)
  {
  }

  // What the first `k` data blocks hold.
  ghost function Contents(img: Image, nod: nat, k: nat): (s: seq<Block>)
    ensures |s| == k
  {
    if k == 0 then [] else
      var b := Get(img, nod, LeafAt(k - 1));
      Contents(img, nod, k - 1) + [if b in img.mem then img.mem[b] else []]
  }

  ghost predicate LeafHeld(img: Image, own: Slots, nod: nat, j: nat) {
    Owned(own, nod, LeafAt(j)) && Get(img, nod, LeafAt(j)) in img.mem
  }

  lemma {:induction false} KeptContents(img: Image, img': Image, own: Slots, nod: nat, k: nat)
    requires Kept(img, img', own) && k <= MAX_DATA
    requires forall j: nat :: j < k ==> LeafHeld(img, own, nod, j)
    ensures DataBlocks(img', nod, k) == DataBlocks(img, nod, k) && Contents(img', nod, k) == Contents(img, nod, k)
  {
    if k > 0 {
      KeptContents(img, img', own, nod, k - 1);
      LeafFirstUse(k - 1);
      assert LeafHeld(img, own, nod, k - 1);
      assert SlotKept(img, img', nod, LeafAt(k - 1));
    }
  }

  lemma LeavesOwned(img: Image, count: map<nat, nat>, gs: seq<Group>, bpg: nat, nod: nat)
    requires Tidy(img, count, gs, bpg) && nod in count
    ensures forall j: nat :: j < count[nod] ==> LeafHeld(img, OwnOf(count), nod, j)
  {
    forall j: nat | j < count[nod] ensures LeafHeld(img, OwnOf(count), nod, j) {
      LeafPlaced(img, count, gs, bpg, nod, j);
    }
  }

  // The blocks that `n` more data blocks take behind `k`, and whether there is room for them.
  ghost function Needs(k: nat, n: nat): int {
    Total(k + n) - Total(k)
  }

  ghost predicate Fits(k: nat, n: nat, free: nat) {
    k + n <= MAX_DATA && Needs(k, n) <= free
  }

  lemma FitsZero(img: Image, count: map<nat, nat>, nod: nat, free: nat)
    requires CountsOk(img, count) && nod in count
    ensures Fits(count[nod], 0, free) && Needs(count[nod], 0) == 0
  {
  }

  lemma FitsStep(w: Walker, k: nat, n: nat, free: nat)
    requires Fresh(w) && Fits(k, n, free)
    ensures Fits(k, n + 1, free) <==> k + n < MAX_DATA && free - Needs(k, n) >= |NewAt(k + n)|
    ensures k + n < MAX_DATA ==> Needs(k, n + 1) == Needs(k, n) + |NewAt(k + n)|
  {
    if k + n < MAX_DATA { TotalCounts(w, k + n); }
  }

  lemma FitsMore(k: nat, n: nat, free: nat)
    requires Fits(k, n, free)
    ensures Fits(k, n + 1, free) <==> Fits(k + n, 1, free - Needs(k, n))
    ensures Needs(k, n + 1) == Needs(k, n) + Needs(k + n, 1)
  {
    hide Total;
  }

  lemma FitsDown(k: nat, n: nat, n': nat, free: nat)
    requires n <= n'
    ensures Fits(k, n', free) ==> Fits(k, n, free)
  {
    if n < n' { TotalMono(k + n, k + n'); }
  }

  ghost predicate FileKept(img: Image, img': Image, n: nat, k: nat) {
    DataBlocks(img', n, k) == DataBlocks(img, n, k) && Contents(img', n, k) == Contents(img, n, k)
  }

  // Every file but `nod` keeps its blocks and what they hold.
  ghost predicate OthersKept(img: Image, img': Image, count: map<nat, nat>, nod: nat) {
    forall n :: n in count && n != nod ==> FileKept(img, img', n, count[n])
  }

  lemma OtherKept(img: Image, img': Image, count: map<nat, nat>, nod: nat, n: nat)
    requires OthersKept(img, img', count, nod) && n in count && n != nod
    ensures Contents(img', n, count[n]) == Contents(img, n, count[n])
  {
    assert FileKept(img, img', n, count[n]);
  }

  lemma OthersRefl(img: Image, count: map<nat, nat>, nod: nat)
    ensures OthersKept(img, img, count, nod)
  {
  }

  lemma StepOthers(img: Image, a: Image, b: Image, c: Image, count: map<nat, nat>, nod: nat, x: nat)
    requires OthersKept(img, a, count, nod) && OthersKept(a, b, count[nod := x], nod)
    requires OthersKept(b, c, count[nod := x + 1], nod)
    ensures OthersKept(img, c, count, nod)
  {
    forall n | n in count && n != nod ensures FileKept(img, c, n, count[n]) {
      assert n in count[nod := x] && n in count[nod := x + 1];
    }
  }

  lemma GrownIs(count: map<nat, nat>, nod: nat)
    requires nod in count
    ensures Grown(count, nod) == count[nod := count[nod] + 1]
  {
  }

  lemma TidyKeys(img: Image, count: map<nat, nat>, gs: seq<Group>, bpg: nat)
    requires Tidy(img, count, gs, bpg)
    ensures count.Keys == img.inode.Keys
  {
  }

  lemma KeptFiles(img: Image, img': Image, count: map<nat, nat>, gs: seq<Group>, bpg: nat, nod: nat)
    requires Tidy(img, count, gs, bpg) && Kept(img, img', OwnOf(count)) && nod in count
    ensures OthersKept(img, img', count, nod) && FileKept(img, img', nod, count[nod])
  {
    forall n | n in count ensures FileKept(img, img', n, count[n]) {
      LeavesOwned(img, count, gs, bpg, n);
      KeptContents(img, img', OwnOf(count), n, count[n]);
    }
  }

  // Writing the last data block of `nod`.
  lemma FillLaw(img: Image, count: map<nat, nat>, gs: seq<Group>, bpg: nat, nod: nat, data: Block)
    requires Tidy(img, count, gs, bpg) && nod in count && 0 < count[nod] && |data| == WORDS
    ensures var k, img' := count[nod] - 1, Write(img, Get(img, nod, LeafAt(count[nod] - 1)), data);
      && Tidy(img', count, gs, bpg) && img'.mem.Keys >= img.mem.Keys && img'.inode == img.inode
      && OthersKept(img, img', count, nod) && Contents(img', nod, k + 1) == Contents(img, nod, k) + [data]
  {
    hide LeafAt, UsedSet, IsIndex, Sound, Total;
    var k := count[nod] - 1;
    var leaf := LeafAt(k);
    LeafPlaced(img, count, gs, bpg, nod, k);
    var img', own := Write(img, Get(img, nod, leaf), data), OwnOf(count);
    WriteSound(img, own, gs, bpg, nod, leaf, data);
    WriteKeeps(img, own, gs, bpg, nod, leaf, data, nod, leaf);
    var own' := own[nod := own[nod] - {leaf}];
    forall n | n in count ensures FileKept(img, img', n, if n == nod then k else count[n]) {
      var c := if n == nod then k else count[n];
      forall j: nat | j < c ensures LeafHeld(img, own', n, j) {
        LeafPlaced(img, count, gs, bpg, n, j);
        LeafFirstUse(j);
        LeafFirstUse(k);
      }
      KeptContents(img, img', own', n, c);
    }
  }

  lemma FillClean(img: Image, count: map<nat, nat>, gs: seq<Group>, bpg: nat, nod: nat, data: Block)
    requires Tidy(img, count, gs, bpg) && Clean(img, OwnOf(count), gs, bpg) && nod in count && 0 < count[nod] && |data| == WORDS
    ensures Clean(Write(img, Get(img, nod, LeafAt(count[nod] - 1)), data), OwnOf(count), gs, bpg)
  {
    hide Sound, Clean, LeafAt, IsIndex, UsedSet;
    LeafPlaced(img, count, gs, bpg, nod, count[nod] - 1);
    WriteClean(img, OwnOf(count), gs, bpg, nod, LeafAt(count[nod] - 1), data);
  }

  // What the j-th data block of an inode holds.
  ghost function DataAt(img: Image, n: nat, j: nat): Block {
    var b := Get(img, n, LeafAt(j));
    if b in img.mem then img.mem[b] else []
  }

  lemma {:induction false} ContentsAt(img: Image, n: nat, k: nat, j: nat)
    requires j < k
    ensures Contents(img, n, k)[j] == DataAt(img, n, j)
  {
    hide Get, LeafAt;
    if j < k - 1 { ContentsAt(img, n, k - 1, j); }
  }

  lemma SameContents(img: Image, img': Image, n: nat, k: nat)
    requires forall j: nat :: j < k ==> DataAt(img', n, j) == DataAt(img, n, j)
    ensures Contents(img', n, k) == Contents(img, n, k)
  {
    forall j | 0 <= j < k ensures Contents(img', n, k)[j] == Contents(img, n, k)[j] {
      ContentsAt(img, n, k, j);
      ContentsAt(img', n, k, j);
    }
  }

  lemma RewriteLaw(img: Image, count: map<nat, nat>, gs: seq<Group>, bpg: nat, nod: nat, k: nat, data: Block)
    requires Tidy(img, count, gs, bpg) && Clean(img, OwnOf(count), gs, bpg) && nod in count && k < count[nod] && |data| == WORDS
    ensures var img' := Write(img, Get(img, nod, LeafAt(k)), data);
      && Tidy(img', count, gs, bpg) && Clean(img', OwnOf(count), gs, bpg)
      && img'.mem.Keys >= img.mem.Keys && img'.inode == img.inode
      && forall n, j: nat :: n in count && j < count[n] ==>
           DataAt(img', n, j) == if n == nod && j == k then data else DataAt(img, n, j)
  {
    hide LeafAt, UsedSet, IsIndex, Sound, Total, Clean, Get, BlockUsed;
    var leaf := LeafAt(k);
    LeafPlaced(img, count, gs, bpg, nod, k);
    WriteSound(img, OwnOf(count), gs, bpg, nod, leaf, data);
    WriteClean(img, OwnOf(count), gs, bpg, nod, leaf, data);
    forall n, j: nat | n in count && j < count[n]
      ensures DataAt(Write(img, Get(img, nod, leaf), data), n, j) == if n == nod && j == k then data else DataAt(img, n, j)
    {
      LeafPlaced(img, count, gs, bpg, n, j);
      WriteKeeps(img, OwnOf(count), gs, bpg, nod, leaf, data, n, LeafAt(j));
      if Get(img, n, LeafAt(j)) == Get(img, nod, leaf) {
        SlotsApart(img, OwnOf(count), gs, bpg, n, LeafAt(j), nod, leaf);
        LeafFirstUse(j);
        LeafFirstUse(k);
      }
    }
  }

  lemma InodeKeepsImage(img: Image, own: Slots, gs: seq<Group>, gs': seq<Group>, bpg: nat, ipg: nat, nod: nat)
    requires Sound(img, own, gs, bpg) && Clean(img, own, gs, bpg) && FreeInMem(img, gs, bpg) && TookInode(gs, gs', ipg, nod)
    ensures Sound(img, own, gs', bpg) && Clean(img, own, gs', bpg) && FreeInMem(img, gs', bpg)
  {
    hide IsIndex, Get, BlockUsed, BlockFree, TookInode;
    forall b: nat ensures (BlockUsed(gs', bpg, b) <==> BlockUsed(gs, bpg, b)) && (BlockFree(gs', bpg, b) <==> BlockFree(gs, bpg, b)) {
      InodeKeepsBlocks(gs, gs', ipg, bpg, nod, b);
    }
    forall n, p | Owned(own, n, p) ensures SlotOk(img, own, gs', bpg, n, p) {
      assert SlotOk(img, own, gs, bpg, n, p);
    }
  }

  // The data blocks of all files together are distinct.
  lemma DataDistinct(img: Image, count: map<nat, nat>, gs: seq<Group>, bpg: nat, n: nat, j: nat, n': nat, j': nat)
    requires Tidy(img, count, gs, bpg) && n in count && j < count[n] && n' in count && j' < count[n'] && (n != n' || j != j')
    ensures DataBlocks(img, n, count[n])[j] != DataBlocks(img, n', count[n'])[j']
  {
    DataBlockAt(img, n, count[n], j);
    DataBlockAt(img, n', count[n'], j');
    LeafPlaced(img, count, gs, bpg, n, j);
    LeafPlaced(img, count, gs, bpg, n', j');
    LeafFirstUse(j);
    LeafFirstUse(j');
  }

  function ZeroBlock(): Block {
    seq(WORDS, _ => 0)
  }

  // Holds of every number; it names the numbers a table ranges over.
  predicate Numbered(i: nat) {
    true
  }
}
