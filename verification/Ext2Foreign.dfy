/**
 The image that dump_fs of external/genext2fs/genext2fs.c writes in foreign byte order
 (swap_goodfs, lines 1898-1926), byte by byte: which fields have their bytes
 reversed, and that all others are as they were.
*/
module Ext2Foreign {
  import opened Ext2Alloc
  import opened Ext2Paths
  import opened Ext2Volume
  import opened Ext2Swap
  import B = Ext2Bytes
  import D = Ext2Dir
  import L = Ext2Links

  // ---- Fields ----

  // The two bytes of `v` in reverse order are `w`, and the four.  ByteOf counts them from the lowest.
  ghost predicate Reversed16(v: nat, w: nat) {
    w < 0x1_0000 && B.ByteOf(w, 0) == B.ByteOf(v, 1) && B.ByteOf(w, 1) == B.ByteOf(v, 0)
  }

  ghost predicate Reversed32(v: nat, w: nat) {
    && w < 0x1_0000_0000
    && B.ByteOf(w, 0) == B.ByteOf(v, 3) && B.ByteOf(w, 1) == B.ByteOf(v, 2)
    && B.ByteOf(w, 2) == B.ByteOf(v, 1) && B.ByteOf(w, 3) == B.ByteOf(v, 0)
  }

  lemma Reverses16(v: nat)
    requires v < 0x1_0000
    ensures Reversed16(v, Swab16(v))
  {
    hide Swab16, B.ByteOf;
    var a, b := v % 256, v / 256;
    Swab16Bytes(a, b);
    B.FourBytes(a, b, 0, 0);
    B.FourBytes(b, a, 0, 0);
  }

  lemma Reverses32(v: nat)
    requires v < 0x1_0000_0000
    ensures Reversed32(v, Swab32(v))
  {
    hide Swab32, B.ByteOf;
    var a, b, c, d := Bytes(v);
    Swab32Bytes(a, b, c, d);
    B.FourBytes(a, b, c, d);
    B.FourBytes(d, c, b, a);
  }

  ghost predicate Reversed16s(v: seq<nat>, w: seq<nat>) {
    |w| == |v| && forall i :: 0 <= i < |v| ==> Reversed16(v[i], w[i])
  }

  ghost predicate Reversed32s(v: seq<nat>, w: seq<nat>) {
    |w| == |v| && forall i :: 0 <= i < |v| ==> Reversed32(v[i], w[i])
  }

  ghost predicate Words16(v: seq<nat>) {
    forall i :: 0 <= i < |v| ==> v[i] < 0x1_0000
  }

  ghost predicate Words32(v: seq<nat>) {
    forall i :: 0 <= i < |v| ==> v[i] < 0x1_0000_0000
  }

  lemma ReversesAll16(v: seq<nat>)
    requires Words16(v)
    ensures Reversed16s(v, SwapHalves(v))
  {
    hide Swab16, Reversed16;
    forall i | 0 <= i < |v| ensures Reversed16(v[i], SwapHalves(v)[i]) {
      Reverses16(v[i]);
    }
  }

  lemma ReversesAll32(v: seq<nat>)
    requires Words32(v)
    ensures Reversed32s(v, SwapWords(v))
  {
    hide Swab32, Reversed32;
    forall i | 0 <= i < |v| ensures Reversed32(v[i], SwapWords(v)[i]) {
      Reverses32(v[i]);
    }
  }

  // ---- Inodes, descriptors and the superblock ----

  // Every field is as wide as it is on the disk.
  ghost predicate MetaFits(m: Meta) {
    m.mode < 0x1_0000 && m.size < 0x1_0000_0000 && Words16(m.halves) && Words32(m.words)
  }

  ghost predicate DescFits(d: Desc) {
    Words16(d.halves) && Words32(d.words)
  }

  ghost predicate Fits(f: State) {
    && (forall n :: n in f.meta ==> MetaFits(f.meta[n]))
    && (forall n :: n in f.img.inode ==> Words32(f.img.inode[n].block) && f.img.inode[n].blocks < 0x1_0000_0000)
    && (forall b :: b in f.img.mem ==> Words32(f.img.mem[b]))
    && (forall i :: 0 <= i < |f.gd| ==> DescFits(f.gd[i])) && f.sb.inodes < 0x1_0000_0000 && DescFits(f.sb.rest)
  }

  ghost predicate MetaReversed(m: Meta, m': Meta) {
    Reversed16(m.mode, m'.mode) && Reversed32(m.size, m'.size) && Reversed16s(m.halves, m'.halves) && Reversed32s(m.words, m'.words)
  }

  ghost predicate DescReversed(d: Desc, d': Desc) {
    Reversed16s(d.halves, d'.halves) && Reversed32s(d.words, d'.words)
  }

  // The block table keeps its bytes if the inode has a size but no blocks, or the bit 0x2000 of
  // character devices, which block devices and symbolic links have too.
  ghost predicate TableReversed(m: Meta, i: Inode, i': Inode) {
    && Reversed32(i.blocks, i'.blocks)
    && if m.mode / 0x2000 % 2 == 1 || (m.size > 0 && i.blocks < 2) then i'.block == i.block else Reversed32s(i.block, i'.block)
  }

  lemma MetaMeans(m: Meta)
    requires MetaFits(m)
    ensures MetaReversed(m, SwapMeta(m))
  {
    hide Swab16, Swab32, SwapHalves, SwapWords, Reversed16, Reversed32, Reversed16s, Reversed32s, Words16, Words32;
    Reverses16(m.mode);
    Reverses32(m.size);
    ReversesAll16(m.halves);
    ReversesAll32(m.words);
  }

  lemma DescMeans(d: Desc)
    requires DescFits(d)
    ensures DescReversed(d, SwapDesc(d))
  {
    hide SwapHalves, SwapWords, Reversed16s, Reversed32s, Words16, Words32;
    ReversesAll16(d.halves);
    ReversesAll32(d.words);
  }

  lemma TableMeans(m: Meta, i: Inode)
    requires Words32(i.block) && i.blocks < 0x1_0000_0000
    ensures TableReversed(m, i, TurnInode(m, i))
  {
    hide Swab32, SwapWords, Reversed32, Reversed32s, Words32;
    Reverses32(i.blocks);
    ReversesAll32(i.block);
  }

  // The inodes from 1 on, all but the last; the descriptors; the superblock, but for the options word.
  ghost predicate FieldsReversed(f: State, st: State) {
    && st.meta.Keys == f.meta.Keys == f.img.inode.Keys == st.img.inode.Keys && |st.gd| == |f.gd|
    && (forall n :: n in f.meta && 1 <= n < f.sb.inodes ==>
          MetaReversed(f.meta[n], st.meta[n]) && TableReversed(f.meta[n], f.img.inode[n], st.img.inode[n]))
    && (forall n :: n in f.meta && !(1 <= n < f.sb.inodes) ==> st.meta[n] == f.meta[n] && st.img.inode[n] == f.img.inode[n])
    && (forall i :: 0 <= i < |f.gd| ==> DescReversed(f.gd[i], st.gd[i]))
    && Reversed32(f.sb.inodes, st.sb.inodes) && DescReversed(f.sb.rest, st.sb.rest) && st.sb.options == f.sb.options
  }

  lemma FieldsWritten(f: State, c: Plan, st: State)
    requires (forall i: nat :: 1 <= i < f.sb.inodes ==> i in c.count && i in f.meta) && Converted(f, c, st) && Fits(f)
    ensures FieldsReversed(f, st)
  {
    hide Turned, Upto, SwapMeta, SwapDesc, TurnInode, MetaReversed, DescReversed, TableReversed, Reversed32, MetaFits, DescFits, Words32, Swab32;
    forall n | n in f.meta
      ensures if 1 <= n < f.sb.inodes then MetaReversed(f.meta[n], st.meta[n]) && TableReversed(f.meta[n], f.img.inode[n], st.img.inode[n])
              else st.meta[n] == f.meta[n] && st.img.inode[n] == f.img.inode[n]
    {
      assert NodeIs(f, st, n, 1 <= n < f.sb.inodes);
      MetaMeans(f.meta[n]);
      TableMeans(f.meta[n], f.img.inode[n]);
    }
    forall i | 0 <= i < |f.gd| ensures DescReversed(f.gd[i], st.gd[i]) {
      DescMeans(f.gd[i]);
    }
    Reverses32(f.sb.inodes);
    DescMeans(f.sb.rest);
  }

  // ---- Directory records ----

  // A record in foreign order: the bytes of d_inode, d_rec_len and d_name_len are reversed, each for
  // itself, and the name is as it was.
  ghost predicate RecordReversed(r: D.Record, w: seq<nat>) {
    && |r.space| % 4 == 0 && |w| == r.recLen / 4 && 3 <= |w| && Reversed32(r.inode, w[0])
    && Reversed16(r.recLen, w[1] % 0x1_0000) && Reversed16(r.nameLen, w[1] / 0x1_0000)
    && w[2..] == D.Pack(r.space)
  }

  ghost function TurnRec(r: D.Record): (w: seq<nat>)
    requires D.RecOk(r)
    ensures |w| == r.recLen / 4
  {
    [Swab32(r.inode), Swab16(r.recLen) + 0x1_0000 * Swab16(r.nameLen)] + D.Pack(r.space)
  }

  ghost function TurnRecs(s: seq<D.Record>): (w: seq<nat>)
    requires D.AllOk(s)
    ensures 4 * |w| == D.Span(s)
  {
    if s == [] then [] else TurnRec(s[0]) + TurnRecs(s[1..])
  }

  lemma TurnRecMeans(r: D.Record)
    requires D.RecOk(r) && r.inode < 0x1_0000_0000 && r.recLen < 0x1_0000 && r.nameLen < 0x1_0000
    ensures RecordReversed(r, TurnRec(r))
  {
    hide Swab16, Swab32, Reversed16, Reversed32;
    Reverses32(r.inode);
    Reverses16(r.recLen);
    Reverses16(r.nameLen);
    Swab16Below(r.recLen);
    D.LensOf(Swab16(r.recLen), Swab16(r.nameLen));
    assert TurnRec(r)[2..] == D.Pack(r.space);
  }

  // The block that the loop of swap_goodfs leaves, from its records.
  lemma {:induction false} ForeignIs(pre: seq<nat>, s: seq<D.Record>, w: seq<nat>)
    requires D.AllOk(s) && w == pre + D.Words(s) && |w| == WORDS
    ensures Tiled(w, |pre|) && Foreign(w, |pre|) == pre + TurnRecs(s)
    decreases |s|
  {
    hide D.RecOk, D.Span, Swab16, Swab32, TurnRec, D.RecWords, SwapDir, SwapLens;
    WordsTiled(pre, s, w);
    var o := |pre|;
    if s == [] {
      assert w == pre && pre + TurnRecs(s) == pre;
    } else {
      FirstWords(s);
      var x, rest := D.RecWords(s[0]), D.Words(s[1..]);
      RecordFits(s, o);
      assert w[o + 1] == x[1];
      D.LensOf(s[0].recLen, s[0].nameLen);
      TurnedAt(pre, s[0], rest, w);
      var pre' := pre + TurnRec(s[0]);
      TiledStep(w, o);
      ForeignIs(pre', s[1..], SwapDir(w, o));
      assert pre' + TurnRecs(s[1..]) == pre + TurnRecs(s);
    }
  }

  lemma RecordFits(s: seq<D.Record>, o: nat)
    requires D.AllOk(s) && s != [] && o + |D.Words(s)| == WORDS
    ensures 4 * o + 8 < 1024
  {
    hide D.RecWords;
  }

  lemma TurnedAt(pre: seq<nat>, r: D.Record, rest: seq<nat>, w: seq<nat>)
    requires D.RecOk(r) && r.recLen < 0x1_0000 && w == pre + (D.RecWords(r) + rest)
    ensures |pre| + 1 < |w| && SwapDir(w, |pre|) == pre + TurnRec(r) + rest && NextRec(w, |pre|) == |pre + TurnRec(r)|
  {
    hide Swab16, Swab32;
    var o := |pre|;
    D.LensOf(r.recLen, r.nameLen);
    assert w[o] == r.inode && w[o + 1] == r.recLen + 0x1_0000 * r.nameLen;
    Halves(r.recLen, r.nameLen);
    assert SwapDir(w, o) == pre + TurnRec(r) + rest;
  }

  // Record `k` of a directory block, where it stands in the block that is written.
  lemma {:induction false} RecordAt(s: seq<D.Record>, k: nat)
    requires D.AllOk(s) && k < |s|
    ensures D.AllOk(s[..k]) && var o := |D.Words(s[..k])|;
      && o + s[k].recLen / 4 <= |TurnRecs(s)| && TurnRecs(s)[o..o + s[k].recLen / 4] == TurnRec(s[k])
    decreases k
  {
    hide D.RecOk, TurnRec, D.RecWords;
    if k == 0 {
      assert s[..0] == [];
    } else {
      RecordAt(s[1..], k - 1);
      assert s[..k] == [s[0]] + s[1..][..k - 1];
      assert s[..k][1..] == s[1..][..k - 1];
      var o := |D.Words(s[1..][..k - 1])|;
      var n := s[k].recLen / 4;
      assert |D.Words(s[..k])| == |D.RecWords(s[0])| + o;
      Shifted(TurnRec(s[0]), TurnRecs(s[1..]), o, n);
    }
  }

  lemma Shifted(a: seq<nat>, b: seq<nat>, o: nat, n: nat)
    requires o + n <= |b|
    ensures (a + b)[|a| + o..|a| + o + n] == b[o..o + n]
  {
  }

  // ---- Blocks ----

  // Index blocks of visited inodes have all their words reversed, directory blocks their records, and
  // every other block is unchanged.
  lemma IndexWritten(f: State, c: Plan, st: State, n: nat, p: Path)
    requires (forall i: nat :: 1 <= i < f.sb.inodes ==> i in c.count && i in f.meta) && Converted(f, c, st) && Fits(f) && c.img == f.img
    requires 1 <= n < f.sb.inodes && IsIndex(p) && p in UsedSet(c.count[n])
    ensures var b := Get(f.img, n, p); b in f.img.mem && b in st.img.mem && Reversed32s(f.img.mem[b], st.img.mem[b])
  {
    hide Nodes, Descs, SwapSuper, Foreign, SwapWords, Reversed32s, Words32, MetaFits, DescFits, IsIndex, UsedSet, Get, Tiled, Sound, IndexOf;
    var b := Get(f.img, n, p);
    IndexThere(c, n, p);
    InUpto(f, c, n, f.sb.inodes, b) by { IndexIn(f, c, n, p); }
    ReversesAll32(f.img.mem[b]);
  }

  lemma IndexThere(c: Plan, n: nat, p: Path)
    requires Plain(c) && n in c.count && IsIndex(p) && p in UsedSet(c.count[n])
    ensures Get(c.img, n, p) in c.img.mem && Get(c.img, n, p) !in c.dirs
  {
    hide IsIndex, UsedSet, Get, Tiled, BlockUsed;
    assert Owned(OwnOf(c.count), n, p);
    assert SlotOk(c.img, OwnOf(c.count), c.gs, c.bpg, n, p);
  }

  lemma IndexIn(f: State, c: Plan, n: nat, p: Path)
    requires n in c.count && n in f.meta && IsIndex(p) && p in UsedSet(c.count[n])
    ensures Get(c.img, n, p) in BlocksOf(f, c, n)
  {
  }

  lemma {:induction false} InUpto(f: State, c: Plan, n: nat, k: nat, b: nat)
    requires (forall i: nat :: 1 <= i < k ==> i in c.count && i in f.meta) && 1 <= n < k && b in BlocksOf(f, c, n)
    ensures b in Upto(f, c, k)
    decreases k
  {
    hide BlocksOf;
    if n < k - 1 { InUpto(f, c, n, k - 1, b); }
  }

  lemma {:induction false} OfUpto(f: State, c: Plan, k: nat, b: nat) returns (n: nat)
    requires (forall i: nat :: 1 <= i < k ==> i in c.count && i in f.meta) && b in Upto(f, c, k)
    ensures 1 <= n < k && b in BlocksOf(f, c, n)
    decreases k
  {
    hide BlocksOf;
    if b in BlocksOf(f, c, k - 1) {
      n := k - 1;
    } else {
      n := OfUpto(f, c, k - 1, b);
    }
  }

  // The k-th block of a visited inode with the directory bit 0x4000, which holds the records `s`.
  lemma DirWritten(f: State, c: Plan, st: State, n: nat, k: nat, s: seq<D.Record>)
    requires (forall i: nat :: 1 <= i < f.sb.inodes ==> i in c.count && i in f.meta) && Converted(f, c, st) && c.img == f.img
    requires c.count.Keys <= f.meta.Keys && c == PlanOf(f, c.count, c.gs, c.bpg) && D.AllOk(s) && |D.Words(s)| == WORDS
    requires 1 <= n < f.sb.inodes && f.meta[n].mode / 0x4000 % 2 == 1 && k < c.count[n] && DataAt(f.img, n, k) == D.Words(s)
    ensures var b := Get(f.img, n, LeafAt(k)); b in st.img.mem && st.img.mem[b] == TurnRecs(s)
  {
    hide Nodes, Descs, SwapSuper, Foreign, TurnRecs, IsIndex, UsedSet, Get, LeafAt, Tiled, Sound, D.Words, Plain, IndexOf;
    var b := Get(f.img, n, LeafAt(k));
    DataUsed(c, n, k);
    assert DataBlock(c, n, k) == b;
    InUpto(f, c, n, f.sb.inodes, b) by { assert b in DataOf(c, n, c.count[n]); }
    assert HoldsRecords(f, c.count, b);
    assert b in c.dirs;
    ForeignIs([], s, D.Words(s)) by { assert [] + D.Words(s) == D.Words(s); }
    assert [] + TurnRecs(s) == TurnRecs(s);
  }

  lemma OthersWritten(f: State, c: Plan, st: State, b: nat)
    requires (forall i: nat :: 1 <= i < f.sb.inodes ==> i in c.count && i in f.meta) && Converted(f, c, st) && c.img == f.img
    requires b in f.img.mem
    requires forall n: nat, p :: 1 <= n < f.sb.inodes && p in UsedSet(c.count[n]) && IsIndex(p) ==> Get(f.img, n, p) != b
    requires forall n: nat, k: nat :: 1 <= n < f.sb.inodes && f.meta[n].mode / 0x4000 % 2 == 1 && k < c.count[n] ==> Get(f.img, n, LeafAt(k)) != b
    ensures b in st.img.mem && st.img.mem[b] == f.img.mem[b]
  {
    hide Nodes, Descs, SwapSuper, Foreign, SwapWords, IsIndex, UsedSet, Get, LeafAt, Tiled, Sound;
    if b in Upto(f, c, f.sb.inodes) {
      var n := OfUpto(f, c, f.sb.inodes, b);
      assert false;
    }
  }

  // ---- Trees ----

  // Entry `i` of block `k` of directory `n` in a tree, in the image that is written.
  lemma TreeWritten(t: L.Tree, f: State, st: State, n: nat, k: nat, i: nat)
    requires t.Valid() && f.img == t.vol.img && t.vol.count.Keys <= f.meta.Keys
    requires forall j: nat :: 1 <= j < f.sb.inodes ==> j in t.vol.count && j in f.meta
    requires Converted(f, PlanOf(f, t.vol.count, t.vol.alloc.groups, t.vol.alloc.bpg), st)
    requires 1 <= n < f.sb.inodes && n < |t.itab| && f.meta[n].mode == t.itab[n].mode && 0x4000 <= t.itab[n].mode < 0x5000
    requires k < |t.itab[n].dir| && i < |t.itab[n].dir[k]| && t.itab[n].dir[k][i].inode < 0x1_0000_0000
    ensures var r, b := t.itab[n].dir[k][i], Get(f.img, n, LeafAt(k));
      && b in st.img.mem && D.AllOk(t.itab[n].dir[k][..i])
      && var o := |D.Words(t.itab[n].dir[k][..i])|;
         o + r.recLen / 4 <= |st.img.mem[b]| && RecordReversed(r, st.img.mem[b][o..o + r.recLen / 4])
  {
    hide Volume.Valid, Converted, L.Means, L.IsDir, L.Holds, TurnRecs, TurnRec, D.Words, Get, LeafAt, PlanOf, RecordReversed, Upto;
    var s := t.itab[n].dir[k];
    L.Format(t.itab[n].mode);
    L.MeansParts(t.itab, t.stat, t.vol.img, t.vol.count, t.vol.alloc.groups, t.vol.alloc.ipg, n);
    BlockOfTree(t.vol.img, t.vol.count, n, t.itab[n].dir, k);
    PlanCount(f, t.vol.count, t.vol.alloc.groups, t.vol.alloc.bpg);
    DirBitOf(t.itab[n].mode);
    DirWritten(f, PlanOf(f, t.vol.count, t.vol.alloc.groups, t.vol.alloc.bpg), st, n, k, s);
    RecordAt(s, i);
    SmallRecord(s, i);
    TurnRecMeans(s[i]);
  }

  lemma BlockOfTree(img: Image, count: map<nat, nat>, n: nat, dir: seq<D.DirBlock>, k: nat)
    requires L.Holds(img, count, n, dir) && k < |dir|
    ensures n in count && k < count[n] && D.AllOk(dir[k]) && DataAt(img, n, k) == D.Words(dir[k]) && |D.Words(dir[k])| == WORDS && D.Span(dir[k]) == 1024
  {
    hide DataAt, D.Words, D.RecOk;
    assert L.BlockHolds(img, n, k, dir[k]);
    assert D.Tiled(dir[k]);
    L.WordsFit(dir[k]);
  }

  lemma DirBitOf(mode: nat)
    requires 0x4000 <= mode < 0x5000
    ensures mode / 0x4000 % 2 == 1
  {
  }

  lemma {:induction false} SmallRecord(s: seq<D.Record>, i: nat)
    requires D.AllOk(s) && i < |s| && D.Span(s) <= 1024
    ensures D.RecOk(s[i]) && s[i].recLen <= 1024 && s[i].nameLen < 0x1_0000
    decreases i
  {
    if i > 0 {
      SmallRecord(s[1..], i - 1);
    } else {
      D.NeedMeans(s[0].nameLen);
    }
  }
}
