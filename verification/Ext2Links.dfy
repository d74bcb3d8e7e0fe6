/**
 Directories, files and link counts of external/genext2fs/genext2fs.c on a volume:
 in every state that init_fs, mknod_fs, mkdir_fs, mkfile_fs and the hard links of
 add2fs_from_dir can build (lines 1247-1452, 2073-2117), the directory blocks are
 tiled, find_dir looks up a finite map, files hold what was read into them, and
 each inode's i_links_count is the number of directory entries that name it.  That
 field has 16 bits.

 The blocks of directories and files are in the volume; `itab` is what they and the
 inode table mean.
*/
module Ext2Links {
  import opened Basics
  import opened Sums
  import opened Arith
  import opened Ext2Alloc
  import P = Ext2Paths
  import V = Ext2Volume
  import D = Ext2Dir
  import B = Ext2Bytes

  const EXT2_ROOT_INO := 2

  // An inode with the meaning of its blocks: the records of a directory, or the data of a file.
  // `dev` is the first word of i_block where there are no blocks: the number of a device.
  datatype Node = Node(mode: nat, links: nat, size: nat, dir: seq<D.DirBlock>, data: seq<V.Block>, dev: nat)

  // The fields of the inode itself that count here.
  datatype Stat = Stat(mode: nat, links: nat, size: nat)

  datatype Outcome = Done | NotDirectory | EmptyName | Slash | TooLong | NoSpace | NoInode

  function Blank(): Node {
    Node(0, 0, 0, [], [], 0)
  }

  // (mode & FM_IFMT) == FM_IFDIR.
  ghost predicate IsDir(mode: nat) {
    mode / 0x1000 % 16 == 4
  }

  // FM_IFBLK and FM_IFCHR.
  ghost predicate IsDevice(mode: nat) {
    mode / 0x1000 % 16 == 6 || mode / 0x1000 % 16 == 2
  }

  // FM_IFREG.
  ghost predicate IsRegular(mode: nat) {
    mode / 0x1000 % 16 == 8
  }

  // The formats by the four highest of the 16 bits.
  lemma Format(mode: nat)
    ensures IsDir(mode) <==> mode / 0x1000 % 16 == 4
    ensures IsDevice(mode) <==> mode / 0x1000 % 16 == 6 || mode / 0x1000 % 16 == 2
    ensures mode < 0x1_0000 ==> (IsDir(mode) <==> 0x4000 <= mode < 0x5000)
    ensures mode < 0x1_0000 ==> (IsDevice(mode) <==> 0x2000 <= mode < 0x3000 || 0x6000 <= mode < 0x7000)
    ensures mode < 0x1_0000 ==> (IsRegular(mode) <==> 0x8000 <= mode < 0x9000)
  {
    if mode < 0x1_0000 { assert mode / 0x1000 % 16 == mode / 0x1000; }
  }

  // i_size has 32 bits.
  ghost function Size32(size: nat): nat {
    size % 0x1_0000_0000
  }

  // The same kind, contents and device number.
  ghost predicate SameData(x: Node, y: Node) {
    x.mode == y.mode && x.data == y.data && x.dev == y.dev
  }

  // The same file; directories grow.
  ghost predicate SameFile(x: Node, y: Node) {
    SameData(x, y) && (IsDir(x.mode) || x.size == y.size)
  }

  // The same blocks behind the inode.
  ghost predicate SameBody(x: Node, y: Node) {
    SameData(x, y) && x.dir == y.dir
  }

  // ---- Counting ----

  ghost function Counts(itab: seq<Node>, n: nat): seq<nat> {
    seq(|itab|, d requires 0 <= d < |itab| => D.Named(D.Flat(itab[d].dir), n))
  }

  // The live entries of all directories that name `n`.
  ghost function Refs(itab: seq<Node>, n: nat): nat {
    Sum(Counts(itab, n))
  }

  ghost predicate Linked(itab: seq<Node>, gs: seq<Group>, ipg: nat)
    requires 0 < ipg
  {
    && EXT2_ROOT_INO < |itab| && itab[0] == Blank()
    && (forall d :: 0 <= d < |itab| ==> D.DirOk(itab[d].dir))
    && (forall n :: 1 <= n < |itab| ==> itab[n].links == Refs(itab, n) % 0x1_0000)
    && (forall n :: EXT2_FIRST_INO <= n < |itab| && !InodeUsed(gs, ipg, n) ==> itab[n] == Blank() && Refs(itab, n) == 0)
  }

  // Only the directory `d` is different.
  lemma RefsUpdate(itab: seq<Node>, d: nat, x: Node, n: nat)
    requires d < |itab|
    ensures Refs(itab[d := x], n) == Refs(itab, n) - D.Named(D.Flat(itab[d].dir), n) + D.Named(D.Flat(x.dir), n)
  {
    var c := Counts(itab, n);
    assert Counts(itab[d := x], n) == c[d := D.Named(D.Flat(x.dir), n)];
    SumUpdate(c, d, D.Named(D.Flat(x.dir), n));
  }

  // ---- add2dir on the inode table ----

  ghost function Bump(x: Node): Node {
    x.(links := (x.links + 1) % 0x1_0000)
  }

  // The entry in directory `dnod` and the link count of `nod`.
  ghost function AddTo(itab: seq<Node>, dnod: nat, nod: nat, dir: seq<D.DirBlock>, grew: bool): (r: seq<Node>)
    requires dnod < |itab| && nod < |itab|
    ensures |r| == |itab|
  {
    var t := itab[nod := Bump(itab[nod])];
    t[dnod := t[dnod].(dir := dir, size := Size32(t[dnod].size + if grew then BLOCKSIZE else 0))]
  }

  lemma AddToRefs(itab: seq<Node>, dnod: nat, nod: nat, name: D.Chars, dir: seq<D.DirBlock>, grew: bool, n: nat)
    requires dnod < |itab| && 1 <= nod < |itab| && 1 <= n && D.Added(D.Flat(itab[dnod].dir), D.Flat(dir), nod, name)
    ensures Refs(AddTo(itab, dnod, nod, dir, grew), n) == Refs(itab, n) + if n == nod then 1 else 0
  {
    hide Refs, D.Flat, D.Named;
    var t := itab[nod := Bump(itab[nod])];
    RefsUpdate(itab, nod, Bump(itab[nod]), n);
    RefsUpdate(t, dnod, AddTo(itab, dnod, nod, dir, grew)[dnod], n);
  }

  lemma AddToLinked(itab: seq<Node>, gs: seq<Group>, ipg: nat, dnod: nat, nod: nat, name: D.Chars, dir: seq<D.DirBlock>, grew: bool)
    requires 0 < ipg && Linked(itab, gs, ipg) && dnod < |itab| && 1 <= nod < |itab| && itab[dnod].mode != 0
    requires EXT2_FIRST_INO <= nod ==> InodeUsed(gs, ipg, nod)
    requires D.DirOk(dir) && D.Added(D.Flat(itab[dnod].dir), D.Flat(dir), nod, name)
    ensures Linked(AddTo(itab, dnod, nod, dir, grew), gs, ipg)
  {
    hide Refs, D.Flat, D.Named, D.DirOk, D.Added, InodeUsed;
    var r := AddTo(itab, dnod, nod, dir, grew);
    forall n | 1 <= n < |itab| ensures r[n].links == Refs(r, n) % 0x1_0000 {
      AddToRefs(itab, dnod, nod, name, dir, grew, n);
    }
    forall n | EXT2_FIRST_INO <= n < |itab| && !InodeUsed(gs, ipg, n) ensures r[n] == Blank() && Refs(r, n) == 0 {
      AddToRefs(itab, dnod, nod, name, dir, grew, n);
    }
  }

  // Blocks come and go without the link counts noticing.
  lemma LinkedGroups(itab: seq<Node>, gs: seq<Group>, gs': seq<Group>, ipg: nat)
    requires 0 < ipg && Linked(itab, gs, ipg) && SameInodes(gs, gs')
    ensures Linked(itab, gs', ipg)
  {
    hide Refs, D.DirOk, InodeUsed;
    forall n | EXT2_FIRST_INO <= n < |itab| && !InodeUsed(gs', ipg, n) ensures !InodeUsed(gs, ipg, n) {
      SameInodesUsed(gs, gs', ipg, n);
    }
  }

  // A new inode starts with no links, whatever its mode.
  lemma FreshLinked(itab: seq<Node>, gs: seq<Group>, gs': seq<Group>, ipg: nat, nod: nat, mode: nat)
    requires 0 < ipg && Linked(itab, gs, ipg) && TookInode(gs, gs', ipg, nod) && EXT2_FIRST_INO <= nod < |itab|
    ensures Linked(itab[nod := itab[nod].(mode := mode)], gs', ipg) && InodeUsed(gs', ipg, nod)
    ensures itab[nod] == Blank()
  {
    hide Refs, D.Flat, D.Named, D.DirOk, InodeUsed, TookInode;
    InodeOnce(gs, gs', ipg, nod, nod);
    var t := itab[nod := itab[nod].(mode := mode)];
    forall n | 1 <= n < |t| ensures Refs(t, n) == Refs(itab, n) && (!InodeUsed(gs', ipg, n) ==> !InodeUsed(gs, ipg, n)) {
      RefsUpdate(itab, nod, t[nod], n);
      InodeOnce(gs, gs', ipg, nod, n);
    }
  }

  lemma InTable(gs: seq<Group>, gs': seq<Group>, ipg: nat, nod: nat)
    requires TookInode(gs, gs', ipg, nod)
    ensures nod <= Times(|gs|, ipg)
  {
    QuotRem(nod - 1, ipg);
    TimesMono(Quot(nod - 1, ipg) + 1, |gs|, ipg);
  }

  // ---- The root directory ----

  const DOT: D.Chars := [46]
  const DOTDOT: D.Chars := [46, 46]

  function RootBlock(): D.DirBlock {
    [D.Record(EXT2_ROOT_INO, 12, 1, [46, 0, 0, 0]),
     D.Record(EXT2_ROOT_INO, BLOCKSIZE - 12, 2, [46, 46] + seq(BLOCKSIZE - 22, _ => 0))]
  }

  function RootNode(): Node {
    Node(0x41ED, 2, BLOCKSIZE, [RootBlock()], [], 0)
  }

  lemma RootBlockLaw()
    ensures D.Tiled(RootBlock())
    ensures forall n: nat :: n != 0 ==> D.Named(D.Flat([RootBlock()]), n) == if n == EXT2_ROOT_INO then 2 else 0
  {
    hide D.Span, D.Flat, D.Named, D.Table;
    var b := RootBlock();
    D.FlatOne(b);
    assert b == [b[0]] + [b[1]];
    D.One(b[0]);
    D.One(b[1]);
    D.SpanAppend([b[0]], [b[1]]);
    forall n: nat | n != 0 ensures D.Named(b, n) == if n == EXT2_ROOT_INO then 2 else 0 {
      D.NamedAppend([b[0]], [b[1]], n);
    }
  }

  lemma {:induction false} NoRefs(k: nat, n: nat)
    ensures Refs(seq(k, _ => Blank()), n) == 0
  {
    var itab := seq(k, _ => Blank());
    if k > 0 {
      NoRefs(k - 1, n);
      var c := Counts(itab, n);
      assert c[..k - 1] == Counts(seq(k - 1, _ => Blank()), n);
      assert c[k - 1] == 0;
    }
  }

  lemma BlankLinked(k: nat, gs: seq<Group>, ipg: nat)
    requires 0 < ipg && EXT2_ROOT_INO < k
    ensures Linked(seq(k, _ => Blank()), gs, ipg)
  {
    hide Refs, D.Flat, D.Named, InodeUsed;
    var blank := seq(k, _ => Blank());
    forall n: nat ensures Refs(blank, n) == 0 {
      NoRefs(k, n);
    }
  }

  lemma RootLinked(k: nat, gs: seq<Group>, ipg: nat)
    requires 0 < ipg && EXT2_ROOT_INO < k
    ensures Linked(seq(k, _ => Blank())[EXT2_ROOT_INO := RootNode()], gs, ipg)
  {
    hide Refs, D.Flat, D.Named, D.Tiled, RootBlock, InodeUsed;
    var blank := seq(k, _ => Blank());
    var itab := blank[EXT2_ROOT_INO := RootNode()];
    RootBlockLaw();
    forall n: nat | 1 <= n ensures Refs(itab, n) == if n == EXT2_ROOT_INO then 2 else 0 {
      NoRefs(k, n);
      RefsUpdate(blank, EXT2_ROOT_INO, RootNode(), n);
      NamedEmpty(n);
    }
  }

  lemma NamedEmpty(n: nat)
    ensures D.Named(D.Flat([]), n) == 0
  {
  }

  // A block with one unused record, as init_fs reserves for lost+found.
  function SpareBlock(): D.DirBlock {
    [D.Record(0, BLOCKSIZE, 0, seq(BLOCKSIZE - D.HEADER, _ => 0))]
  }

  lemma SpareLaw(dir: seq<D.DirBlock>, n: nat)
    requires D.DirOk(dir)
    ensures D.DirOk(dir + [SpareBlock()])
    ensures n != 0 ==> D.Named(D.Flat(dir + [SpareBlock()]), n) == D.Named(D.Flat(dir), n)
  {
    hide D.Span, D.Flat, D.Named, D.Table;
    var b := SpareBlock();
    D.One(b[0]);
    D.FlatAppend(dir, [b]);
    D.FlatOne(b);
    D.NamedAppend(D.Flat(dir), b, n);
  }

  lemma SpareLinked(itab: seq<Node>, gs: seq<Group>, ipg: nat, nod: nat)
    requires 0 < ipg && Linked(itab, gs, ipg) && nod < |itab| && itab[nod].mode != 0
    ensures Linked(itab[nod := itab[nod].(dir := itab[nod].dir + [SpareBlock()])], gs, ipg)
  {
    hide Refs, D.Flat, D.Named, D.DirOk, InodeUsed, SpareBlock;
    var t := itab[nod := itab[nod].(dir := itab[nod].dir + [SpareBlock()])];
    SpareLaw(itab[nod].dir, 0);
    forall n: nat | 1 <= n ensures Refs(t, n) == Refs(itab, n) {
      SpareLaw(itab[nod].dir, n);
      RefsUpdate(itab, nod, t[nod], n);
    }
  }

  // What is not links or directory does not count.
  lemma BodyLinked(itab: seq<Node>, gs: seq<Group>, ipg: nat, nod: nat, x: Node)
    requires 0 < ipg && Linked(itab, gs, ipg) && nod < |itab| && itab[nod].mode != 0 && x.dir == itab[nod].dir && x.links == itab[nod].links
    ensures Linked(itab[nod := x], gs, ipg)
  {
    hide Refs, D.DirOk, InodeUsed;
    var r := itab[nod := x];
    forall n: nat | 1 <= n ensures Refs(r, n) == Refs(itab, n) {
      RefsUpdate(itab, nod, r[nod], n);
    }
  }

  // ---- Directories in the volume ----

  // The data blocks of inode `d` are the directory `dir`.
  ghost predicate Holds(img: V.Image, count: map<nat, nat>, d: nat, dir: seq<D.DirBlock>) {
    && d in count && count[d] == |dir| && D.DirOk(dir)
    && forall k: nat :: k < |dir| ==> BlockHolds(img, d, k, dir[k])
  }

  ghost predicate BlockHolds(img: V.Image, d: nat, k: nat, b: D.DirBlock) {
    D.AllOk(b) && V.DataAt(img, d, k) == D.Words(b)
  }

  ghost predicate Stored(img: V.Image, count: map<nat, nat>, itab: seq<Node>) {
    forall d :: 1 <= d < |itab| ==> StoredAt(img, count, d, itab[d])
  }

  ghost predicate StoredAt(img: V.Image, count: map<nat, nat>, d: nat, x: Node) {
    && d in count && TableAt(img, count, d, x.dev) && (x.data != [] ==> IsRegular(x.mode))
    && if IsDir(x.mode) then Holds(img, count, d, x.dir) else x.dir == [] && FileAt(img, count, d, x.data)
  }

  ghost predicate TableAt(img: V.Image, count: map<nat, nat>, d: nat, dev: nat) {
    d in count && count[d] == 0 ==> d in img.inode && |img.inode[d].block| == 15 && img.inode[d].block[0] == dev
  }

  ghost predicate FileAt(img: V.Image, count: map<nat, nat>, d: nat, data: seq<V.Block>) {
    d in count && count[d] == |data| && V.Contents(img, d, |data|) == data
  }

  // A block changed inside a directory.
  lemma StoredRewrite(img: V.Image, img': V.Image, count: map<nat, nat>, itab: seq<Node>, itab': seq<Node>, dnod: nat, at: nat, dir: seq<D.DirBlock>)
    requires Stored(img, count, itab) && 1 <= dnod < |itab| == |itab'| && IsDir(itab[dnod].mode) && at < |itab[dnod].dir|
    requires D.DirOk(dir) && |dir| == |itab[dnod].dir| && forall i :: 0 <= i < |dir| && i != at ==> dir[i] == itab[dnod].dir[i]
    requires BlockHolds(img', dnod, at, dir[at])
    requires forall n, j: nat :: n in count && j < count[n] && !(n == dnod && j == at) ==> V.DataAt(img', n, j) == V.DataAt(img, n, j)
    requires forall d :: 1 <= d < |itab| ==> SameBody(itab'[d], if d == dnod then itab[d].(dir := dir) else itab[d])
    requires img'.inode == img.inode
    ensures Stored(img', count, itab')
  {
    hide D.DirOk, D.Words, D.AllOk, V.DataAt, V.Contents, IsDir, IsRegular;
    forall d | 1 <= d < |itab| ensures StoredAt(img', count, d, itab'[d]) {
      assert StoredAt(img, count, d, itab[d]);
      if IsDir(itab[d].mode) {
        forall k: nat | k < |itab'[d].dir| ensures BlockHolds(img', d, k, itab'[d].dir[k]) {
          if !(d == dnod && k == at) { assert BlockHolds(img, d, k, itab[d].dir[k]); }
        }
      } else {
        V.SameContents(img, img', d, count[d]);
      }
    }
  }

  // A block added to a directory by extend_blk.
  lemma StoredExtend(img: V.Image, img': V.Image, count: map<nat, nat>, count': map<nat, nat>, itab: seq<Node>, itab': seq<Node>, dnod: nat, b: D.DirBlock)
    requires Stored(img, count, itab) && 1 <= dnod < |itab| == |itab'| && dnod in count && D.Tiled(b)
    requires IsDir(itab'[dnod].mode) && itab'[dnod].dir == itab[dnod].dir + [b] && count[dnod] == |itab[dnod].dir| && itab'[dnod].data == []
    requires Holds(img, count, dnod, itab[dnod].dir)
    requires count' == count[dnod := count[dnod] + 1] && D.AllOk(b)
    requires V.Contents(img', dnod, count'[dnod]) == V.Contents(img, dnod, count[dnod]) + [D.Words(b)]
    requires V.OthersKept(img, img', count, dnod) && V.TablesKept(img, img', dnod)
    requires forall d :: 1 <= d < |itab| && d != dnod ==> SameBody(itab'[d], itab[d])
    ensures Stored(img', count', itab')
  {
    hide D.DirOk, D.Words, D.AllOk, D.Tiled, V.DataAt, V.Contents, IsDir, V.OthersKept, StoredAt, Holds, V.TablesKept;
    forall d | 1 <= d < |itab| ensures StoredAt(img', count', d, itab'[d]) {
      assert StoredAt(img, count, d, itab[d]);
      if d == dnod {
        GrownHolds(img, img', count, count', d, itab[d].dir, b);
        DirStored(img', count', d, itab'[d]) by { HoldsLength(img', count', d, itab'[d].dir); }
      } else {
        KeptStored(img, img', count, count', dnod, d, itab[d], itab'[d]);
      }
    }
  }

  lemma DirStored(img: V.Image, count: map<nat, nat>, d: nat, x: Node)
    requires IsDir(x.mode) && Holds(img, count, d, x.dir) && d in count && count[d] > 0 && x.data == []
    ensures StoredAt(img, count, d, x)
  {
    hide Holds;
  }

  // An inode that was not grown.
  lemma KeptStored(img: V.Image, img': V.Image, count: map<nat, nat>, count': map<nat, nat>, nod: nat, d: nat, x: Node, y: Node)
    requires StoredAt(img, count, d, x) && d != nod && SameBody(y, x) && V.OthersKept(img, img', count, nod) && V.TablesKept(img, img', nod)
    requires d in count ==> d in count' && count'[d] == count[d]
    ensures StoredAt(img', count', d, y)
  {
    hide V.Contents, IsDir, V.OthersKept, Holds;
    if IsDir(x.mode) {
      KeptHolds(img, img', count, count', nod, d, x.dir);
    } else {
      V.OtherKept(img, img', count, nod, d);
    }
  }

  lemma GrownHolds(img: V.Image, img': V.Image, count: map<nat, nat>, count': map<nat, nat>, d: nat, dir: seq<D.DirBlock>, b: D.DirBlock)
    requires Holds(img, count, d, dir) && count' == count[d := count[d] + 1] && D.Tiled(b) && D.AllOk(b)
    requires V.Contents(img', d, count'[d]) == V.Contents(img, d, count[d]) + [D.Words(b)]
    ensures Holds(img', count', d, dir + [b])
  {
    hide D.Words, V.DataAt, V.Contents, D.Tiled;
    var n := count[d];
    forall k: nat | k < |dir + [b]| ensures BlockHolds(img', d, k, (dir + [b])[k]) {
      V.ContentsAt(img', d, n + 1, k);
      if k < n {
        V.ContentsAt(img, d, n, k);
        assert BlockHolds(img, d, k, dir[k]);
      }
    }
  }

  lemma KeptHolds(img: V.Image, img': V.Image, count: map<nat, nat>, count': map<nat, nat>, dnod: nat, d: nat, dir: seq<D.DirBlock>)
    requires Holds(img, count, d, dir) && d != dnod && d in count' && count'[d] == count[d]
    requires V.OthersKept(img, img', count, dnod)
    ensures Holds(img', count', d, dir)
  {
    hide D.Words, V.DataAt, V.Contents, D.DirOk, D.AllOk;
    V.OtherKept(img, img', count, dnod, d);
    forall k: nat | k < |dir| ensures BlockHolds(img', d, k, dir[k]) {
      V.ContentsAt(img', d, count[d], k);
      V.ContentsAt(img, d, count[d], k);
      assert BlockHolds(img, d, k, dir[k]);
    }
  }

  // ---- When operations succeed ----

  ghost predicate NameOk(name: D.Chars) {
    name != [] && 47 !in name && D.Need(|name|) <= BLOCKSIZE
  }

  // What the entry costs in blocks, and whether there are as many.
  ghost function Cost(dir: seq<D.DirBlock>, name: D.Chars): int {
    if D.Fits(dir, D.Need(|name|)) then 0 else V.Needs(|dir|, 1)
  }

  ghost predicate Affordable(dir: seq<D.DirBlock>, name: D.Chars, free: nat) {
    D.Fits(dir, D.Need(|name|)) || V.Fits(|dir|, 1, free)
  }

  // One entry more, in `dnod`, for `nod`.
  ghost predicate Entered(itab: seq<Node>, itab': seq<Node>, dnod: nat, nod: nat, name: D.Chars) {
    && dnod < |itab| && nod < |itab|
    && exists dir, at, grew :: EnteredBy(itab, itab', dnod, nod, name, dir, at, grew)
  }

  ghost predicate EnteredBy(itab: seq<Node>, itab': seq<Node>, dnod: nat, nod: nat, name: D.Chars,
                            dir: seq<D.DirBlock>, at: nat, grew: bool)
    requires dnod < |itab| && nod < |itab|
  {
    D.Grew(itab[dnod].dir, dir, at, grew, nod, name) && itab' == AddTo(itab, dnod, nod, dir, grew)
  }

  // For find_dir: the new name is found, every other name in every directory as before.
  lemma EnteredTables(itab: seq<Node>, itab': seq<Node>, dnod: nat, nod: nat, name: D.Chars)
    requires Entered(itab, itab', dnod, nod, name)
    ensures |itab'| == |itab| && D.AllOk(D.Flat(itab[dnod].dir)) && D.AllOk(D.Flat(itab'[dnod].dir))
    ensures name !in D.Table(D.Flat(itab[dnod].dir)) ==>
              D.Table(D.Flat(itab'[dnod].dir)) == D.Table(D.Flat(itab[dnod].dir))[name := nod]
    ensures forall d :: 0 <= d < |itab| && d != dnod ==> itab'[d].dir == itab[d].dir
    ensures forall d :: 0 <= d < |itab| ==> itab'[d].mode == itab[d].mode && SameData(itab[d], itab'[d])
    ensures forall d :: 0 <= d < |itab| && d != dnod ==> itab'[d].size == itab[d].size
  {
    hide D.Flat, D.Table, D.DirOk, D.AllOk, D.Named, D.Fits;
    var dir, at, grew :| EnteredBy(itab, itab', dnod, nod, name, dir, at, grew);
  }

  // The first entry of a directory makes its first block, and leaves room for the next.
  lemma FirstEntry(itab: seq<Node>, itab': seq<Node>, dnod: nat, nod: nat)
    requires Entered(itab, itab', dnod, nod, DOT) && itab[dnod].dir == []
    ensures dnod < |itab'| && D.Fits(itab'[dnod].dir, D.Need(|DOTDOT|))
  {
    hide D.Flat, D.Table, D.DirOk, D.AllOk, D.Named, D.WorkBlock, D.Need;
    var dir, at, grew :| EnteredBy(itab, itab', dnod, nod, DOT, dir, at, grew);
    NothingFits(D.Need(|DOT|));
    assert dir == [] + [D.WorkBlock(nod, DOT)] == [D.WorkBlock(nod, DOT)];
    D.DotLeavesRoom(nod);
  }

  lemma NothingFits(n: nat)
    ensures !D.Fits([], n)
  {
  }

  // A new inode with its entries: one in the parent and, in a directory, "." and "..".  A device has
  // its number.
  ghost predicate Made(itab: seq<Node>, itab': seq<Node>, parent: nat, nod: nat, name: D.Chars, mode: nat, dev: nat) {
    && EXT2_FIRST_INO <= nod < |itab| && itab[nod] == Blank()
    && var fresh_ := itab[nod := Blank().(mode := mode)];
       if IsDir(mode) then
         exists a, b :: Entered(fresh_, a, parent, nod, name) && Entered(a, b, nod, nod, DOT) && Entered(b, itab', nod, parent, DOTDOT)
       else if IsDevice(mode) then
         exists a :: Entered(fresh_, a, parent, nod, name) && itab' == WithDev(a, nod, dev)
       else Entered(fresh_, itab', parent, nod, name)
  }

  ghost function WithDev(itab: seq<Node>, nod: nat, dev: nat): seq<Node> {
    if nod < |itab| then itab[nod := itab[nod].(dev := dev)] else itab
  }

  // The number that mknod_fs stores.
  ghost function DevNumber(major: byte, minor: byte): nat {
    minor + 256 * major
  }

  ghost function WithData(itab: seq<Node>, nod: nat, size: nat, bytes: seq<byte>): seq<Node> {
    if nod < |itab| then itab[nod := itab[nod].(size := Size32(size), data := B.Chunks(bytes, size))] else itab
  }

  // The mode of a file: get_mode, which the caller of mkfile_fs uses, leaves permissions only.
  ghost function FileMode(perm: nat): nat {
    0x8000 + perm % 0x1000
  }

  // ---- Runs ----

  // The operations that change the tree.
  datatype Op =
    | Mknod(parent: nat, name: D.Chars, mode: nat, major: byte, minor: byte)
    | Mkdir(parent: nat, name: D.Chars, mode: nat)
    | Mkfile(parent: nat, name: D.Chars, perm: nat, size: nat, bytes: seq<byte>)
    | Link(parent: nat, nod: nat, name: D.Chars)

  // mode | FM_IFDIR.
  ghost function OrDir(mode: nat): nat {
    if mode / 0x4000 % 2 == 1 then mode else mode + 0x4000
  }

  lemma OrDirIs(mode: nat)
    ensures OrDir(mode) == if mode / 0x4000 % 2 == 0 then mode + 0x4000 else mode
  {
  }

  // What the operations depend on.
  datatype Snap = Snap(itab: seq<Node>, freeBlocks: nat, freeInodes: nat)

  ghost predicate InUse(s: Snap, n: nat) {
    1 <= n < |s.itab| && s.itab[n].mode != 0
  }

  ghost predicate CanMake(s: Snap, parent: nat, name: D.Chars, mode: nat)
    requires parent < |s.itab|
  {
    && s.freeInodes > 0 && IsDir(s.itab[parent].mode) && NameOk(name)
    && Affordable(s.itab[parent].dir, name, s.freeBlocks)
    && (IsDir(mode) ==> Cost(s.itab[parent].dir, name) + 1 <= s.freeBlocks)
  }

  ghost predicate CanFile(s: Snap, parent: nat, name: D.Chars, perm: nat, size: nat)
    requires parent < |s.itab|
  {
    && CanMake(s, parent, name, FileMode(perm)) && Cost(s.itab[parent].dir, name) <= s.freeBlocks
    && V.Fits(0, B.BlockCount(size), s.freeBlocks - Cost(s.itab[parent].dir, name))
  }

  // Exactly then an operation succeeds.
  ghost predicate CanDo(s: Snap, op: Op) {
    match op
    case Mknod(parent, name, mode, _, _) => InUse(s, parent) && CanMake(s, parent, name, mode)
    case Mkdir(parent, name, mode) => InUse(s, parent) && CanMake(s, parent, name, OrDir(mode))
    case Mkfile(parent, name, perm, size, _) => InUse(s, parent) && CanFile(s, parent, name, perm, size)
    case Link(parent, nod, name) =>
      InUse(s, parent) && InUse(s, nod) && IsDir(s.itab[parent].mode) && NameOk(name)
      && Affordable(s.itab[parent].dir, name, s.freeBlocks)
  }

  // And this is what it does.
  ghost predicate Did(s: Snap, s': Snap, op: Op) {
    match op
    case Mknod(parent, name, mode, major, minor) => DidMake(s, s', parent, name, mode, DevNumber(major, minor))
    case Mkdir(parent, name, mode) => DidMake(s, s', parent, name, OrDir(mode), 0)
    case Mkfile(parent, name, perm, size, bytes) => DidFile(s, s', parent, name, perm, size, bytes)
    case Link(parent, nod, name) =>
      && Entered(s.itab, s'.itab, parent, nod, name) && s'.freeInodes == s.freeInodes
      && s'.freeBlocks == s.freeBlocks - Cost(s.itab[parent].dir, name)
  }

  ghost predicate DidMake(s: Snap, s': Snap, parent: nat, name: D.Chars, mode: nat, dev: nat) {
    && s'.freeInodes == s.freeInodes - 1 && parent < |s.itab|
    && s'.freeBlocks == s.freeBlocks - Cost(s.itab[parent].dir, name) - (if IsDir(mode) then 1 else 0)
    && exists nod :: Made(s.itab, s'.itab, parent, nod, name, mode, dev)
  }

  ghost predicate DidFile(s: Snap, s': Snap, parent: nat, name: D.Chars, perm: nat, size: nat, bytes: seq<byte>) {
    && s'.freeInodes == s.freeInodes - 1 && parent < |s.itab|
    && s'.freeBlocks == s.freeBlocks - Cost(s.itab[parent].dir, name) - V.Needs(0, B.BlockCount(size))
    && exists nod, mid :: Made(s.itab, mid, parent, nod, name, FileMode(perm), 0) && s'.itab == WithData(mid, nod, size, bytes)
  }

  // Every operation could be done, and did its step.
  ghost predicate IsRun(run: seq<Snap>, ops: seq<Op>) {
    0 < |run| <= |ops| + 1 && forall i :: 0 <= i < |run| - 1 ==> CanDo(run[i], ops[i]) && Did(run[i], run[i + 1], ops[i])
  }

  ghost predicate LinksRight(itab: seq<Node>) {
    forall n :: 1 <= n < |itab| ==> itab[n].links == Refs(itab, n) % 0x1_0000
  }

  // ---- What the volume and the inode table mean ----

  // init_bw.
  const INIT_BW := P.Walker(0, P.EXT2_INIT_BLOCK, 0, 0, 0)

  ghost predicate StatIs(stat: seq<Stat>, itab: seq<Node>) {
    |stat| == |itab| && forall d :: 0 <= d < |itab| ==> stat[d] == Stat(itab[d].mode, itab[d].links, itab[d].size)
  }

  ghost predicate Means(itab: seq<Node>, stat: seq<Stat>, img: V.Image, count: map<nat, nat>, gs: seq<Group>, ipg: nat) {
    && 0 < ipg && |itab| == Times(|gs|, ipg) + 1
    && Linked(itab, gs, ipg) && Stored(img, count, itab) && StatIs(stat, itab)
  }

  lemma MeansParts(itab: seq<Node>, stat: seq<Stat>, img: V.Image, count: map<nat, nat>, gs: seq<Group>, ipg: nat, d: nat)
    requires Means(itab, stat, img, count, gs, ipg) && d < |itab|
    ensures 0 < ipg && EXT2_ROOT_INO < |itab| == |stat| && stat[d] == Stat(itab[d].mode, itab[d].links, itab[d].size)
    ensures d >= 1 ==> d in count && (!IsDir(itab[d].mode) ==> count[d] == |itab[d].data|)
    ensures d >= 1 && IsDir(itab[d].mode) ==> Holds(img, count, d, itab[d].dir)
    ensures itab[d].mode != 0 ==> 1 <= d && (EXT2_FIRST_INO <= d ==> InodeUsed(gs, ipg, d))
    ensures LinksRight(itab)
  {
    hide Times, IsDir, Holds, InodeUsed, Refs, V.Contents;
    if d >= 1 { assert StoredAt(img, count, d, itab[d]); }
  }

  lemma MeansSizes(itab: seq<Node>, stat: seq<Stat>, img: V.Image, count: map<nat, nat>, gs: seq<Group>, ipg: nat)
    requires Means(itab, stat, img, count, gs, ipg)
    ensures |stat| == |itab| && LinksRight(itab)
    ensures forall d :: 0 <= d < |itab| ==> stat[d] == Stat(itab[d].mode, itab[d].links, itab[d].size)
  {
    hide Times, Refs, Stored;
  }

  lemma DirHasMode(mode: nat)
    requires IsDir(mode)
    ensures mode != 0
  {
  }

  // Reading block `k` of a directory.
  lemma ReadBlock(img: V.Image, count: map<nat, nat>, gs: seq<Group>, bpg: nat, d: nat, dir: seq<D.DirBlock>, k: nat)
    requires V.Tidy(img, count, gs, bpg) && Holds(img, count, d, dir) && k < |dir|
    ensures var b := V.DataBlocks(img, d, count[d])[k];
      b == V.Get(img, d, P.LeafAt(k)) && b in img.mem && D.Decode(img.mem[b]) == dir[k]
  {
    hide V.Tidy, V.Get, P.LeafAt, D.Decode, D.Words, V.DataBlocks;
    V.DataBlockAt(img, d, count[d], k);
    V.LeafPlaced(img, count, gs, bpg, d, k);
    assert BlockHolds(img, d, k, dir[k]);
    assert D.Tiled(dir[k]);
    D.DecodeWords(dir[k]);
  }

  lemma ReadBlocks(img: V.Image, count: map<nat, nat>, gs: seq<Group>, bpg: nat, d: nat, dir: seq<D.DirBlock>)
    requires V.Tidy(img, count, gs, bpg) && Holds(img, count, d, dir)
    ensures var bks := V.DataBlocks(img, d, count[d]);
      forall k: nat :: k < |dir| ==> bks[k] == V.Get(img, d, P.LeafAt(k)) && bks[k] in img.mem && D.Decode(img.mem[bks[k]]) == dir[k]
  {
    hide V.Tidy, V.Get, P.LeafAt, D.Decode, V.DataBlocks;
    forall k: nat | k < |dir|
      ensures var b := V.DataBlocks(img, d, count[d])[k];
        b == V.Get(img, d, P.LeafAt(k)) && b in img.mem && D.Decode(img.mem[b]) == dir[k]
    {
      ReadBlock(img, count, gs, bpg, d, dir, k);
    }
  }

  method DecodeAll(mem: map<nat, V.Block>, bks: seq<nat>, ghost was: seq<D.DirBlock>) returns (dir: seq<D.DirBlock>)
    requires |bks| == |was| && forall k: nat :: k < |was| ==> bks[k] in mem && D.Decode(mem[bks[k]]) == was[k]
    ensures dir == was
  {
    hide D.Decode;
    dir := [];
    while |dir| < |bks|
      invariant |dir| <= |bks| && dir == was[..|dir|]
      decreases |bks| - |dir|
    {
      dir := dir + [D.Decode(mem[bks[|dir|]])];
    }
  }

  lemma WordsFit(b: D.DirBlock)
    requires D.Tiled(b)
    ensures D.AllOk(b) && |D.Words(b)| == P.WORDS
  {
  }

  // ---- Changes ----

  // The link count, and the size if a block was added.
  function NewStat(stat: seq<Stat>, dnod: nat, nod: nat, grew: bool): (r: seq<Stat>)
    requires dnod < |stat| && nod < |stat|
  {
    var t := stat[nod := stat[nod].(links := (stat[nod].links + 1) % 0x1_0000)];
    t[dnod := t[dnod].(size := (t[dnod].size + if grew then BLOCKSIZE else 0) % 0x1_0000_0000)]
  }

  ghost predicate Addable(itab: seq<Node>, gs: seq<Group>, ipg: nat, dnod: nat, nod: nat) {
    && 1 <= dnod < |itab| && 1 <= nod < |itab| && IsDir(itab[dnod].mode) && 0 < ipg
    && (EXT2_FIRST_INO <= nod ==> InodeUsed(gs, ipg, nod))
  }

  lemma EntryTable(itab: seq<Node>, stat: seq<Stat>, gs: seq<Group>, ipg: nat, dnod: nat, nod: nat, name: D.Chars, dir: seq<D.DirBlock>, at: nat, grew: bool)
    requires Addable(itab, gs, ipg, dnod, nod) && Linked(itab, gs, ipg) && StatIs(stat, itab) && D.Grew(itab[dnod].dir, dir, at, grew, nod, name)
    ensures var itab' := AddTo(itab, dnod, nod, dir, grew);
      && Linked(itab', gs, ipg) && StatIs(NewStat(stat, dnod, nod, grew), itab') && Entered(itab, itab', dnod, nod, name)
      && (forall d :: 1 <= d < |itab| ==> SameBody(itab'[d], if d == dnod then itab[d].(dir := dir) else itab[d]))
  {
    hide Linked, D.Flat, D.Added, D.DirOk, D.Fits, D.Need, D.WorkBlock, InodeUsed;
    DirHasMode(itab[dnod].mode);
    AddToLinked(itab, gs, ipg, dnod, nod, name, dir, grew);
    assert EnteredBy(itab, AddTo(itab, dnod, nod, dir, grew), dnod, nod, name, dir, at, grew);
  }

  lemma RewriteMeans(itab: seq<Node>, stat: seq<Stat>, img: V.Image, img': V.Image, count: map<nat, nat>, gs: seq<Group>, ipg: nat,
                     dnod: nat, nod: nat, name: D.Chars, dir: seq<D.DirBlock>, at: nat)
    requires Means(itab, stat, img, count, gs, ipg) && Addable(itab, gs, ipg, dnod, nod)
    requires D.Grew(itab[dnod].dir, dir, at, false, nod, name) && D.AllOk(dir[at])
    requires forall n, j: nat :: n in count && j < count[n] ==>
               V.DataAt(img', n, j) == if n == dnod && j == at then D.Words(dir[at]) else V.DataAt(img, n, j)
    requires img'.inode == img.inode
    ensures Means(AddTo(itab, dnod, nod, dir, false), NewStat(stat, dnod, nod, false), img', count, gs, ipg)
    ensures Entered(itab, AddTo(itab, dnod, nod, dir, false), dnod, nod, name)
  {
    hide Linked, D.Flat, D.Added, D.DirOk, D.Fits, D.Need, D.WorkBlock, InodeUsed, Times, V.DataAt, D.Words, Entered, AddTo, NewStat, D.AllOk;
    EntryTable(itab, stat, gs, ipg, dnod, nod, name, dir, at, false);
    assert StoredAt(img, count, dnod, itab[dnod]);
    StoredRewrite(img, img', count, itab, AddTo(itab, dnod, nod, dir, false), dnod, at, dir);
  }

  lemma ExtendMeans(itab: seq<Node>, stat: seq<Stat>, img: V.Image, img': V.Image, count: map<nat, nat>, count': map<nat, nat>,
                    gs: seq<Group>, gs': seq<Group>, ipg: nat, dnod: nat, nod: nat, name: D.Chars, dir: seq<D.DirBlock>, at: nat)
    requires Means(itab, stat, img, count, gs, ipg) && Addable(itab, gs, ipg, dnod, nod) && SameInodes(gs, gs')
    requires D.Grew(itab[dnod].dir, dir, at, true, nod, name) && at < |dir| && D.AllOk(dir[at]) && dnod in count
    requires count' == count[dnod := count[dnod] + 1] && V.OthersKept(img, img', count, dnod) && V.TablesKept(img, img', dnod)
    requires V.Contents(img', dnod, count'[dnod]) == V.Contents(img, dnod, count[dnod]) + [D.Words(dir[at])]
    ensures Means(AddTo(itab, dnod, nod, dir, true), NewStat(stat, dnod, nod, true), img', count', gs', ipg)
    ensures Entered(itab, AddTo(itab, dnod, nod, dir, true), dnod, nod, name)
  {
    hide Linked, D.Flat, D.Added, D.Fits, D.Need, D.WorkBlock, InodeUsed, Times, V.DataAt, V.Contents, V.OthersKept, V.TablesKept,
         D.Words, Entered, AddTo, NewStat, D.AllOk, D.Tiled, SameInodes;
    EntryTable(itab, stat, gs, ipg, dnod, nod, name, dir, at, true);
    NoData(img, count, dnod, itab[dnod]);
    assert StoredAt(img, count, dnod, itab[dnod]);
    SameLength(gs, gs');
    LinkedGroups(AddTo(itab, dnod, nod, dir, true), gs, gs', ipg);
    StoredExtend(img, img', count, count', itab, AddTo(itab, dnod, nod, dir, true), dnod, dir[at]);
  }

  // A directory has no data of its own.
  lemma NoData(img: V.Image, count: map<nat, nat>, d: nat, x: Node)
    requires StoredAt(img, count, d, x) && IsDir(x.mode)
    ensures x.data == []
  {
    hide Holds;
  }

  lemma SameLength(gs: seq<Group>, gs': seq<Group>)
    requires SameInodes(gs, gs')
    ensures |gs'| == |gs|
  {
  }

  lemma FreshMeans(itab: seq<Node>, stat: seq<Stat>, img: V.Image, count: map<nat, nat>, gs: seq<Group>, gs': seq<Group>, ipg: nat, nod: nat, mode: nat)
    requires Means(itab, stat, img, count, gs, ipg) && TookInode(gs, gs', ipg, nod) && EXT2_FIRST_INO <= nod && |gs'| == |gs|
    ensures nod < |itab| && itab[nod] == Blank() && InodeUsed(gs', ipg, nod) && nod < |stat|
    ensures Means(itab[nod := Blank().(mode := mode)], stat[nod := stat[nod].(mode := mode)], img, count, gs', ipg)
  {
    hide Linked, Times, InodeUsed, TookInode, D.DirOk, IsDir, V.Contents;
    NoDirectory();
    InTable(gs, gs', ipg, nod);
    FreshLinked(itab, gs, gs', ipg, nod, mode);
    var t := itab[nod := Blank().(mode := mode)];
    forall d | 1 <= d < |t| ensures StoredAt(img, count, d, t[d]) {
      assert StoredAt(img, count, d, itab[d]);
      if d == nod { NothingHeld(img, count, d); }
    }
  }

  lemma NothingHeld(img: V.Image, count: map<nat, nat>, d: nat)
    requires d in count && count[d] == 0
    ensures Holds(img, count, d, [])
  {
  }

  // ---- Whole blocks ----

  lemma OneBlock(free: nat)
    ensures V.Fits(0, 1, free) <==> free > 0
    ensures V.Needs(0, 1) == 1
  {
  }

  lemma BlankMeans(geo: Geometry, img: V.Image, gs: seq<Group>)
    requires geo.Sane() && |gs| == geo.nbgroups && img == V.FreshImage(geo.ipg * geo.nbgroups, geo.nbblocks)
    ensures var n := geo.ipg * geo.nbgroups;
      Means(seq(n + 1, _ => Blank()), seq(n + 1, _ => Stat(0, 0, 0)), img, V.FreshCount(n), gs, geo.ipg)
  {
    hide Linked, Times, D.DirOk, IsDir, Holds;
    var n := geo.ipg * geo.nbgroups;
    TimesIsProduct(geo.nbgroups, geo.ipg);
    MulMono(geo.ipg, 1, geo.nbgroups);
    BlankLinked(n + 1, gs, geo.ipg);
    var t := seq(n + 1, _ => Blank());
    forall d | 1 <= d < |t| ensures StoredAt(img, V.FreshCount(n), d, t[d]) {
      assert V.Numbered(d);
      NoDirectory();
    }
  }

  lemma NoDirectory()
    ensures !IsDir(0) && Blank().mode == 0
  {
  }

  lemma RootMeans(itab: seq<Node>, stat: seq<Stat>, img: V.Image, img': V.Image, count: map<nat, nat>, count': map<nat, nat>,
                  gs: seq<Group>, gs': seq<Group>, ipg: nat)
    requires Means(itab, stat, img, count, gs, ipg) && itab == seq(|itab|, _ => Blank()) && SameInodes(gs, gs')
    requires EXT2_ROOT_INO in count && count' == count[EXT2_ROOT_INO := count[EXT2_ROOT_INO] + 1] && D.AllOk(RootBlock())
    requires V.OthersKept(img, img', count, EXT2_ROOT_INO) && V.TablesKept(img, img', EXT2_ROOT_INO)
    requires V.Contents(img', EXT2_ROOT_INO, count'[EXT2_ROOT_INO]) == V.Contents(img, EXT2_ROOT_INO, count[EXT2_ROOT_INO]) + [D.Words(RootBlock())]
    ensures EXT2_ROOT_INO < |itab| == |stat|
    ensures Means(itab[EXT2_ROOT_INO := RootNode()], stat[EXT2_ROOT_INO := Stat(0x41ED, 2, BLOCKSIZE)], img', count', gs', ipg)
  {
    hide Linked, Times, V.DataAt, V.Contents, V.OthersKept, V.TablesKept, D.Words, D.AllOk, D.Tiled, SameInodes, RootBlock, Holds;
    MeansParts(itab, stat, img, count, gs, ipg, EXT2_ROOT_INO) by { TwoInTable(itab, gs, ipg); }
    var t := itab[EXT2_ROOT_INO := RootNode()];
    RootLinked(|itab|, gs, ipg);
    SameLength(gs, gs');
    LinkedGroups(t, gs, gs', ipg);
    RootBlockLaw();
    NothingHeld(img, count, EXT2_ROOT_INO);
    RootIsDir();
    assert itab[EXT2_ROOT_INO].dir + [RootBlock()] == [RootBlock()];
    StoredExtend(img, img', count, count', itab, t, EXT2_ROOT_INO, RootBlock());
  }

  lemma TwoInTable(itab: seq<Node>, gs: seq<Group>, ipg: nat)
    requires 0 < ipg && Linked(itab, gs, ipg)
    ensures EXT2_ROOT_INO < |itab|
  {
  }

  lemma RootIsDir()
    ensures IsDir(RootNode().mode) && RootNode().dir == [RootBlock()] && RootNode().data == [] && RootNode() != Blank()
    ensures !IsDir(Blank().mode) && Blank().dir == []
    ensures RootNode().mode == 0x41ED && RootNode().links == 2 && RootNode().size == BLOCKSIZE
  {
  }

  // ---- The operations ----

  /** The inode table and the volume with the directory blocks.  Where an operation fails the program
      ends; if it ran out of space, in the middle of its changes. */
  class Tree {
    const vol: V.Volume
    var stat: seq<Stat>
    ghost var itab: seq<Node>

    ghost predicate Valid()
      reads this, vol, vol.alloc
    {
      vol.Valid() && Means(itab, stat, vol.img, vol.count, vol.alloc.groups, vol.alloc.ipg)
    }

    ghost function Look(): Snap
      reads this, vol, vol.alloc
    {
      Snap(itab, vol.alloc.freeBlocks, vol.alloc.freeInodes)
    }

    // init_fs up to the root directory: an empty inode table.
    constructor (geo: Geometry)
      requires geo.Sane() && geo.LastGroupRoom()
      ensures Valid() && fresh(vol) && fresh(vol.alloc)
      ensures itab == seq(|itab|, _ => Blank()) && |itab| == geo.ipg * geo.nbgroups + 1
      ensures vol.alloc.freeBlocks == geo.nbblocks - geo.overhead * geo.nbgroups - 1
      ensures vol.alloc.freeInodes == geo.ipg * geo.nbgroups - (EXT2_FIRST_INO - 1)
    {
      vol := new V.Volume(geo);
      new;
      hide Means, V.FreshCount;
      stat := seq(geo.ipg * geo.nbgroups + 1, _ => Stat(0, 0, 0));
      itab := seq(geo.ipg * geo.nbgroups + 1, _ => Blank());
      BlankMeans(geo, vol.img, vol.alloc.groups);
    }

    // The root directory of init_fs.
    method MakeRoot() returns (ok: bool)
      requires Valid() && itab == seq(|itab|, _ => Blank())
      modifies this`stat, this`itab, vol, vol.alloc
      ensures ok <==> old(vol.alloc.freeBlocks) > 0
      ensures ok ==> Valid() && EXT2_ROOT_INO < |itab| && itab == old(itab)[EXT2_ROOT_INO := RootNode()] && itab[EXT2_ROOT_INO] == RootNode()
      ensures ok ==> vol.alloc.freeBlocks == old(vol.alloc.freeBlocks) - 1 && vol.alloc.freeInodes == old(vol.alloc.freeInodes)
    {
      hide V.Volume.Valid, Means, RootBlock, D.Words, V.Contents, V.OthersKept, V.TablesKept, SameInodes, V.Fits, V.Needs, Blank;
      RootThere(itab, stat, vol.img, vol.count, vol.alloc.groups, vol.alloc.ipg);
      OneBlock(vol.alloc.freeBlocks);
      WordsFit(RootBlock());
      ghost var img, count, gs := vol.img, vol.count, vol.alloc.groups;
      ok := vol.ExtendBlk(EXT2_ROOT_INO, INIT_BW, [D.Words(RootBlock())]);
      if ok {
        RootMeans(itab, stat, img, vol.img, count, vol.count, gs, vol.alloc.groups, vol.alloc.ipg);
        stat := stat[EXT2_ROOT_INO := Stat(0x41ED, 2, BLOCKSIZE)];
        itab := itab[EXT2_ROOT_INO := RootNode()];
      }
    }

    // The walk over a directory's blocks, which only reads.
    method ReadDir(nod: nat) returns (bks: seq<nat>, dir: seq<D.DirBlock>)
      requires Valid() && 1 <= nod < |itab| && IsDir(itab[nod].mode)
      ensures dir == itab[nod].dir && |bks| == |dir|
      ensures forall k: nat :: k < |bks| ==> bks[k] == V.Get(vol.img, nod, P.LeafAt(k))
    {
      hide V.Volume.Valid, Means, V.Get, P.LeafAt, D.Decode, V.DataBlocks, V.Tidy, Holds;
      vol.IsTidy();
      MeansParts(itab, stat, vol.img, vol.count, vol.alloc.groups, vol.alloc.ipg, nod);
      HoldsLength(vol.img, vol.count, nod, itab[nod].dir);
      InodeThere(vol.img, vol.count, vol.alloc.groups, vol.alloc.bpg, nod);
      var bw;
      bks, bw := V.WalkAll(vol.img, vol.alloc.groups, vol.alloc.bpg, nod, INIT_BW, vol.count);
      ReadBlocks(vol.img, vol.count, vol.alloc.groups, vol.alloc.bpg, nod, itab[nod].dir);
      dir := DecodeAll(vol.img.mem, bks, itab[nod].dir);
    }

    // find_dir: a lookup in the finite map the directory stands for.
    method FindDir(nod: nat, name: D.Chars) returns (r: nat)
      requires Valid() && 1 <= nod < |itab| && IsDir(itab[nod].mode)
      ensures D.AllOk(D.Flat(itab[nod].dir))
      ensures r == if name in D.Table(D.Flat(itab[nod].dir)) then D.Table(D.Flat(itab[nod].dir))[name] else 0
    {
      hide V.Volume.Valid, Means, D.Flat, D.Table, D.AllOk, D.DirOk;
      DirAt(itab, stat, vol.img, vol.count, vol.alloc.groups, vol.alloc.ipg, nod);
      var bks, dir := ReadDir(nod);
      r := D.FindDir(dir, name);
    }

    // add2dir.
    method Add2Dir(dnod: nat, nod: nat, name: D.Chars) returns (r: Outcome)
      requires Valid() && 1 <= dnod < |itab| && 1 <= nod < |itab|
      requires EXT2_FIRST_INO <= nod ==> 0 < vol.alloc.ipg && InodeUsed(vol.alloc.groups, vol.alloc.ipg, nod)
      modifies this`stat, this`itab, vol, vol.alloc
      ensures r == Done <==>
        IsDir(old(itab[dnod].mode)) && NameOk(name) && Affordable(old(itab[dnod].dir), name, old(vol.alloc.freeBlocks))
      ensures r == Done ==> Valid() && Entered(old(itab), itab, dnod, nod, name)
      ensures r == Done ==> vol.alloc.freeInodes == old(vol.alloc.freeInodes) && SameInodes(old(vol.alloc.groups), vol.alloc.groups)
      ensures r == Done ==> vol.alloc.freeBlocks == old(vol.alloc.freeBlocks) - Cost(old(itab[dnod].dir), name)
      ensures r != Done && r != NoSpace ==> Valid() && Look() == old(Look())
    {
      hide V.Volume.Valid, Means, D.Fits, D.Need, V.Fits, V.Needs, V.Get, P.LeafAt, D.Grew, Entered, AddTo, NewStat, SameInodes, InodeUsed, IsDir, DOT;
      MeansParts(itab, stat, vol.img, vol.count, vol.alloc.groups, vol.alloc.ipg, dnod);
      MeansParts(itab, stat, vol.img, vol.count, vol.alloc.groups, vol.alloc.ipg, nod);
      Format(stat[dnod].mode);
      if stat[dnod].mode / 0x1000 % 16 != 4 {
        return NotDirectory;
      }
      if name == [] {
        return EmptyName;
      }
      if 47 in name {
        return Slash;
      }
      if D.Need(|name|) > BLOCKSIZE {
        return TooLong;
      }
      var bks, d := ReadDir(dnod);
      DirAt(itab, stat, vol.img, vol.count, vol.alloc.groups, vol.alloc.ipg, dnod);
      var dir, at, grew := D.AddEntry(d, nod, name);
      GrewFacts(d, dir, at, grew, nod, name);
      if grew {
        var ok := Extend(dnod, nod, name, dir, at);
        return if ok then Done else NoSpace;
      }
      SameInodesRefl(vol.alloc.groups);
      Replace(dnod, nod, name, dir, at, bks[at]);
      return Done;
    }

    // The entry into a block that is there.
    method Replace(dnod: nat, nod: nat, name: D.Chars, dir: seq<D.DirBlock>, at: nat, bk: nat)
      requires Valid() && Addable(itab, vol.alloc.groups, vol.alloc.ipg, dnod, nod)
      requires D.Grew(itab[dnod].dir, dir, at, false, nod, name) && at < |dir| && D.Tiled(dir[at])
      requires bk == V.Get(vol.img, dnod, P.LeafAt(at))
      modifies this`stat, this`itab, vol`img
      ensures Valid() && Entered(old(itab), itab, dnod, nod, name)
    {
      hide V.Volume.Valid, Means, D.Grew, Entered, AddTo, V.DataAt, D.Words, V.Get, P.LeafAt, D.AllOk, Addable, Holds;
      WordsFit(dir[at]);
      BlockThere(itab, stat, vol.img, vol.count, vol.alloc.groups, vol.alloc.ipg, dnod, nod, dir, at, name);
      ghost var img := vol.img;
      vol.Rewrite(dnod, at, bk, D.Words(dir[at]));
      RewriteMeans(itab, stat, img, vol.img, vol.count, vol.alloc.groups, vol.alloc.ipg, dnod, nod, name, dir, at);
      stat := NewStat(stat, dnod, nod, false);
      itab := AddTo(itab, dnod, nod, dir, false);
    }

    // The entry into a new block.
    method Extend(dnod: nat, nod: nat, name: D.Chars, dir: seq<D.DirBlock>, at: nat) returns (ok: bool)
      requires Valid() && Addable(itab, vol.alloc.groups, vol.alloc.ipg, dnod, nod)
      requires D.Grew(itab[dnod].dir, dir, at, true, nod, name) && at < |dir| && D.Tiled(dir[at])
      modifies this`stat, this`itab, vol, vol.alloc
      ensures ok <==> V.Fits(|old(itab[dnod].dir)|, 1, old(vol.alloc.freeBlocks))
      ensures ok ==> Valid() && Entered(old(itab), itab, dnod, nod, name)
      ensures ok ==> vol.alloc.freeInodes == old(vol.alloc.freeInodes) && SameInodes(old(vol.alloc.groups), vol.alloc.groups)
      ensures ok ==> vol.alloc.freeBlocks == old(vol.alloc.freeBlocks) - V.Needs(|old(itab[dnod].dir)|, 1)
    {
      hide V.Volume.Valid, Means, D.Grew, Entered, AddTo, D.Words, D.AllOk, Addable, V.Contents, V.OthersKept, V.TablesKept, V.Fits, V.Needs, SameInodes, Holds;
      WordsFit(dir[at]);
      DirThere(itab, stat, vol.img, vol.count, vol.alloc.groups, vol.alloc.ipg, dnod, nod);
      ghost var img, count, gs := vol.img, vol.count, vol.alloc.groups;
      ok := vol.ExtendBlk(dnod, INIT_BW, [D.Words(dir[at])]);
      if ok {
        ExtendMeans(itab, stat, img, vol.img, count, vol.count, gs, vol.alloc.groups, vol.alloc.ipg, dnod, nod, name, dir, at);
        stat := NewStat(stat, dnod, nod, true);
        itab := AddTo(itab, dnod, nod, dir, true);
      }
    }

    // alloc_nod, and the mode of the new inode.
    method NewInode(mode: nat) returns (r: Outcome, nod: nat)
      requires Valid()
      modifies this`stat, this`itab, vol.alloc
      ensures Valid() && vol.alloc.freeBlocks == old(vol.alloc.freeBlocks)
      ensures r == if old(vol.alloc.freeInodes) == 0 then NoInode else Done
      ensures r != Done ==> Look() == old(Look())
      ensures r == Done ==> vol.alloc.freeInodes == old(vol.alloc.freeInodes) - 1
      ensures r == Done ==> EXT2_FIRST_INO <= nod < |itab| == |old(itab)| && old(itab[nod]) == Blank()
      ensures r == Done ==> itab == old(itab)[nod := Blank().(mode := mode)]
      ensures r == Done ==> 0 < vol.alloc.ipg && InodeUsed(vol.alloc.groups, vol.alloc.ipg, nod)
    {
      hide V.Volume.Valid, Means, InodeUsed, TookInode, Blank;
      var a := vol.TakeNod();
      if a.None? {
        return NoInode, 0;
      }
      nod := a.value;
      FreshMeans(itab, stat, vol.img, vol.count, old(vol.alloc.groups), vol.alloc.groups, vol.alloc.ipg, nod, mode);
      MeansParts(itab, old(stat), vol.img, vol.count, old(vol.alloc.groups), vol.alloc.ipg, nod);
      stat := stat[nod := stat[nod].(mode := mode)];
      itab := itab[nod := Blank().(mode := mode)];
      r := Done;
    }

    // The entries "." and ".." of a new directory.
    method AddDots(nod: nat, parent: nat) returns (r: Outcome)
      requires Valid() && 1 <= nod < |itab| && 1 <= parent < |itab| && IsDir(itab[nod].mode) && itab[nod].dir == [] && itab[parent].mode != 0
      modifies this`stat, this`itab, vol, vol.alloc
      ensures r == Done <==> old(vol.alloc.freeBlocks) > 0
      ensures r == Done ==> Valid() && Dotted(old(itab), itab, nod, parent)
      ensures r == Done ==> vol.alloc.freeInodes == old(vol.alloc.freeInodes) && vol.alloc.freeBlocks == old(vol.alloc.freeBlocks) - 1
    {
      hide V.Volume.Valid, Means, InodeUsed, Entered, SameInodes, D.Fits, D.Need, V.Fits, V.Needs, IsDir;
      MeansParts(itab, stat, vol.img, vol.count, vol.alloc.groups, vol.alloc.ipg, nod);
      ModeUsed(itab, stat, vol.img, vol.count, vol.alloc.groups, vol.alloc.ipg, nod);
      DotNames();
      NothingFits(D.Need(|DOT|));
      OneBlock(vol.alloc.freeBlocks);
      ghost var t0 := itab;
      r := Add2Dir(nod, nod, DOT);
      if r != Done {
        return;
      }
      ghost var t1 := itab;
      EnteredTables(t0, t1, nod, nod, DOT);
      FirstEntry(t0, t1, nod, nod);
      MeansParts(itab, stat, vol.img, vol.count, vol.alloc.groups, vol.alloc.ipg, parent);
      r := Add2Dir(nod, parent, DOTDOT);
      assert Dotted(t0, itab, nod, parent) by { assert Entered(t0, t1, nod, nod, DOT) && Entered(t1, itab, nod, parent, DOTDOT); }
    }

    // mknod_fs: the inode, its entry in the parent and, for a directory, its own two entries.
    method MknodFs(parent: nat, name: D.Chars, mode: nat, major: byte, minor: byte) returns (r: Outcome, nod: nat)
      requires Valid() && parent < |itab| && itab[parent].mode != 0
      modifies this`stat, this`itab, vol, vol.alloc
      ensures r == Done <==> CanMake(old(Look()), parent, name, mode)
      ensures r == Done ==> Valid() && DidMake(old(Look()), Look(), parent, name, mode, DevNumber(major, minor))
      ensures r == Done ==> Made(old(itab), itab, parent, nod, name, mode, DevNumber(major, minor)) && nod >= EXT2_FIRST_INO
    {
      hide V.Volume.Valid, Means, InodeUsed, Entered, SameInodes, IsDir, IsDevice, NameOk, Affordable, Cost, Dotted, Made, DidMake, WithDev, DevNumber;
      MeansParts(itab, stat, vol.img, vol.count, vol.alloc.groups, vol.alloc.ipg, parent);
      CostBound(itab[parent].dir, name, vol.alloc.freeBlocks);
      r, nod := NewInode(mode);
      if r != Done {
        return;
      }
      ghost var t1 := itab;
      r := Add2Dir(parent, nod, name);
      if r != Done {
        return;
      }
      Format(mode);
      var fmt := mode / 0x1000 % 16;
      if fmt == 4 {
        ghost var t2 := itab;
        EnteredTables(t1, t2, parent, nod, name);
        r := AddDots(nod, parent);
        if r != Done {
          return;
        }
        MadeDir(old(itab), t2, itab, parent, nod, name, mode, DevNumber(major, minor));
      } else if fmt == 6 || fmt == 2 {
        ghost var t2 := itab;
        EnteredTables(t1, t2, parent, nod, name);
        DeviceIs(mode);
        SetDevice(nod, major, minor);
        MadeDevice(old(itab), t2, itab, parent, nod, name, mode, DevNumber(major, minor));
      } else {
        MadeFile(old(itab), itab, parent, nod, name, mode, DevNumber(major, minor));
      }
      DidIt(old(Look()), Look(), parent, name, mode, DevNumber(major, minor), nod);
    }

    // The bytes of the device number.
    method SetDevice(nod: nat, major: byte, minor: byte)
      requires Valid() && 1 <= nod < |itab| && itab[nod].mode != 0 && itab[nod].data == [] && itab[nod].dev == 0 && !IsDir(itab[nod].mode)
      modifies this`itab, vol`img
      ensures Valid() && itab == WithDev(old(itab), nod, DevNumber(major, minor))
    {
      hide V.Volume.Valid, Means, V.OthersKept, V.TablesKept, IsDir, DevNumber, V.WithLow;
      MeansParts(itab, stat, vol.img, vol.count, vol.alloc.groups, vol.alloc.ipg, nod);
      ZeroSlot(itab, stat, vol.img, vol.count, vol.alloc.groups, vol.alloc.ipg, nod);
      LowBytes(major, minor);
      ghost var img := vol.img;
      vol.SetDevice(nod, major, minor);
      DeviceMeans(itab, stat, img, vol.img, vol.count, vol.alloc.groups, vol.alloc.ipg, nod, DevNumber(major, minor));
      itab := WithDev(itab, nod, DevNumber(major, minor));
    }

    // mkfile_fs: an inode, its entry, and the blocks of the file.
    method MkfileFs(parent: nat, name: D.Chars, perm: nat, size: nat, bytes: seq<byte>) returns (r: Outcome, nod: nat)
      requires Valid() && parent < |itab| && itab[parent].mode != 0
      modifies this`stat, this`itab, vol, vol.alloc
      ensures r == Done <==> CanFile(old(Look()), parent, name, perm, size)
      ensures r == Done ==> Valid() && DidFile(old(Look()), Look(), parent, name, perm, size, bytes)
      ensures r == Done ==> nod < |itab| && itab[nod].mode == FileMode(perm) && itab[nod].data == B.Chunks(bytes, size) && itab[nod].size == Size32(size)
    {
      hide V.Volume.Valid, Means, CanMake, DidMake, DidFile, Made, IsDir, IsRegular, Cost, V.Fits, V.Needs, B.BlockCount, FileMode, WithData, B.Chunks, DevNumber;
      FileModeLaw(perm);
      FileModeIs(perm);
      NoNumber();
      CanMakeCost(Look(), parent, name, FileMode(perm));
      r, nod := MknodFs(parent, name, 0x8000 + perm % 0x1000, 0, 0);
      if r != Done {
        return;
      }
      ghost var mid := Look();
      MadeMode(old(itab), itab, parent, nod, name, FileMode(perm), 0);
      MadeCost(old(Look()), mid, parent, name, FileMode(perm), 0);
      var ok := WriteFile(nod, size, bytes);
      if !ok {
        return NoSpace, nod;
      }
      FiledIt(old(Look()), mid, Look(), parent, nod, name, perm, size, bytes);
    }

    // The size of a new file and its blocks.
    method WriteFile(nod: nat, size: nat, bytes: seq<byte>) returns (ok: bool)
      requires Valid() && 1 <= nod < |itab| && IsRegular(itab[nod].mode) && itab[nod].data == []
      modifies this`stat, this`itab, vol, vol.alloc
      ensures ok <==> V.Fits(0, B.BlockCount(size), old(vol.alloc.freeBlocks))
      ensures ok ==> Valid() && itab == WithData(old(itab), nod, size, bytes)
      ensures ok ==> vol.alloc.freeInodes == old(vol.alloc.freeInodes) && vol.alloc.freeBlocks == old(vol.alloc.freeBlocks) - V.Needs(0, B.BlockCount(size))
    {
      hide V.Volume.Valid, Means, V.Contents, V.OthersKept, V.TablesKept, V.Fits, V.Needs, SameInodes, IsRegular, IsDir, B.BlockCount, B.Chunks, WithData, Size32;
      RegularIs(itab[nod].mode);
      MeansParts(itab, stat, vol.img, vol.count, vol.alloc.groups, vol.alloc.ipg, nod);
      ghost var img, count, gs := vol.img, vol.count, vol.alloc.groups;
      NoBlocks(img, nod);
      if size > 0 {
        SomeBlocks(bytes, size);
        ok := vol.ExtendBlk(nod, INIT_BW, B.Chunks(bytes, size));
        if !ok {
          return;
        }
      } else {
        NothingWritten(bytes, img, count, gs, nod, vol.alloc.freeBlocks);
      }
      FileMeans(itab, stat, img, vol.img, count, vol.count, gs, vol.alloc.groups, vol.alloc.ipg, nod, size, bytes);
      Size32Is(size);
      stat := stat[nod := stat[nod].(size := size % 0x1_0000_0000)];
      itab := WithData(itab, nod, size, bytes);
      ok := true;
    }

    // write_blocks: the bytes of a file, up to its size.
    method WriteBlocks(nod: nat) returns (ok: bool, out: seq<nat>)
      requires Valid() && 1 <= nod < |itab| && !IsDir(itab[nod].mode)
      ensures B.Blocky(itab[nod].data) && (ok <==> B.Savable(|itab[nod].data|, itab[nod].size))
      ensures ok ==> out == B.Spilled(itab[nod].data, B.SavedLength(|itab[nod].data|, itab[nod].size))
    {
      hide V.Volume.Valid, Means, V.DataBlocks, V.Tidy, B.Spilled, B.Savable, B.SavedLength, IsDir;
      vol.IsTidy();
      MeansParts(itab, stat, vol.img, vol.count, vol.alloc.groups, vol.alloc.ipg, nod);
      InodeThere(vol.img, vol.count, vol.alloc.groups, vol.alloc.bpg, nod);
      FileBlocks(itab, stat, vol.img, vol.count, vol.alloc.groups, vol.alloc.ipg, vol.alloc.bpg, nod);
      var bks, bw := V.WalkAll(vol.img, vol.alloc.groups, vol.alloc.bpg, nod, INIT_BW, vol.count);
      ok, out := B.SaveBlocks(vol.img.mem, bks, stat[nod].size, itab[nod].data);
    }

    // mkdir_fs.
    method MkdirFs(parent: nat, name: D.Chars, mode: nat) returns (r: Outcome, nod: nat)
      requires Valid() && parent < |itab| && itab[parent].mode != 0
      modifies this`stat, this`itab, vol, vol.alloc
      ensures r == Done <==> CanMake(old(Look()), parent, name, OrDir(mode))
      ensures r == Done ==> Valid() && DidMake(old(Look()), Look(), parent, name, OrDir(mode), 0)
      ensures r == Done ==> Made(old(itab), itab, parent, nod, name, OrDir(mode), 0) && nod >= EXT2_FIRST_INO
    {
      hide *;
      NoNumber();
      OrDirIs(mode);
      var m := mode;
      if mode / 0x4000 % 2 == 0 {
        m := mode + 0x4000;
      }
      r, nod := MknodFs(parent, name, m, 0, 0);
    }

    // The blocks that init_fs reserves in lost+found: n - 1 spare ones, and the size for n.
    method Reserve(nod: nat, n: nat) returns (ok: bool)
      requires Valid() && 1 <= nod < |itab| && IsDir(itab[nod].mode)
      modifies this`stat, this`itab, vol, vol.alloc
      ensures ok <==> n <= 1 || V.Fits(|old(itab[nod].dir)|, n - 1, old(vol.alloc.freeBlocks))
      ensures ok ==> Valid() && itab == WithReserve(old(itab), nod, n)
      ensures ok ==> vol.alloc.freeBlocks == old(vol.alloc.freeBlocks) - ReserveCost(|old(itab[nod].dir)|, n)
      ensures ok ==> vol.alloc.freeInodes == old(vol.alloc.freeInodes)
    {
      hide V.Volume.Valid, Means, V.Fits, V.Needs, Reserved, IsDir, Size32;
      ghost var k0, t0, free := |itab[nod].dir|, itab, vol.alloc.freeBlocks;
      ReservedStart(t0, nod);
      DirFits(itab, stat, vol.img, vol.count, vol.alloc.groups, vol.alloc.ipg, vol.alloc.bpg, nod, free) by { vol.IsTidy(); }
      var i := 1;
      while i < n
        invariant 1 <= i && (i <= n || i == 1) && Valid() && itab == Reserved(t0, nod, i - 1)
        invariant V.Fits(k0, i - 1, free) && vol.alloc.freeBlocks == free - V.Needs(k0, i - 1)
        invariant vol.alloc.freeInodes == old(vol.alloc.freeInodes)
      {
        ReservedFacts(t0, nod, i - 1);
        V.FitsMore(k0, i - 1, free);
        V.FitsDown(k0, i, n - 1, free);
        ok := ExtendSpare(nod);
        if !ok {
          return;
        }
        ReservedStep(t0, nod, i - 1);
        i := i + 1;
      }
      ReservedFacts(t0, nod, i - 1);
      ResizeMeans(itab, stat, vol.img, vol.count, vol.alloc.groups, vol.alloc.ipg, nod, Size32(n * BLOCKSIZE));
      Size32Is(n * BLOCKSIZE);
      stat := stat[nod := stat[nod].(size := n * BLOCKSIZE % 0x1_0000_0000)];
      itab := itab[nod := itab[nod].(size := Size32(n * BLOCKSIZE))];
      ok := true;
    }

    method ExtendSpare(nod: nat) returns (ok: bool)
      requires Valid() && 1 <= nod < |itab| && IsDir(itab[nod].mode)
      modifies this`stat, this`itab, vol, vol.alloc
      ensures ok <==> V.Fits(|old(itab[nod].dir)|, 1, old(vol.alloc.freeBlocks))
      ensures ok ==> Valid() && itab == WithSpare(old(itab), nod)
      ensures ok ==> vol.alloc.freeBlocks == old(vol.alloc.freeBlocks) - V.Needs(|old(itab[nod].dir)|, 1)
      ensures ok ==> vol.alloc.freeInodes == old(vol.alloc.freeInodes)
    {
      hide V.Volume.Valid, Means, V.Fits, V.Needs, WithSpare, IsDir, SpareBlock, D.Words, V.Contents, V.OthersKept, V.TablesKept, SameInodes, Holds;
      MeansParts(itab, stat, vol.img, vol.count, vol.alloc.groups, vol.alloc.ipg, nod);
      HoldsLength(vol.img, vol.count, nod, itab[nod].dir);
      SpareTiled();
      WordsFit(SpareBlock());
      ghost var img, count, gs := vol.img, vol.count, vol.alloc.groups;
      ok := vol.ExtendBlk(nod, INIT_BW, [D.Words(SpareBlock())]);
      if ok {
        SpareMeans(itab, stat, img, vol.img, count, vol.count, gs, vol.alloc.groups, vol.alloc.ipg, nod);
        itab := WithSpare(itab, nod);
      }
    }

    // One operation, on inodes in use.
    method Perform(op: Op) returns (ok: bool)
      requires Valid()
      modifies this`stat, this`itab, vol, vol.alloc
      ensures ok <==> CanDo(old(Look()), op)
      ensures ok ==> Valid() && Did(old(Look()), Look(), op)
    {
      hide V.Volume.Valid, Means, InodeUsed, Entered, SameInodes, CanMake, DidMake, CanFile, DidFile, Made, NameOk, Affordable, Cost, IsDir, DevNumber;
      MeansSizes(itab, stat, vol.img, vol.count, vol.alloc.groups, vol.alloc.ipg);
      var n := |stat|;
      if op.parent == 0 || op.parent >= n || stat[op.parent].mode == 0 {
        if op.parent < n { MeansParts(itab, stat, vol.img, vol.count, vol.alloc.groups, vol.alloc.ipg, op.parent); }
        return false;
      }
      MeansParts(itab, stat, vol.img, vol.count, vol.alloc.groups, vol.alloc.ipg, op.parent);
      var r, nod;
      match op {
        case Mknod(parent, name, mode, major, minor) =>
          r, nod := MknodFs(parent, name, mode, major, minor);
        case Mkdir(parent, name, mode) =>
          r, nod := MkdirFs(parent, name, mode);
        case Mkfile(parent, name, perm, size, bytes) =>
          r, nod := MkfileFs(parent, name, perm, size, bytes);
        case Link(parent, target, name) =>
          if target == 0 || target >= n || stat[target].mode == 0 {
            if target < n { MeansParts(itab, stat, vol.img, vol.count, vol.alloc.groups, vol.alloc.ipg, target); }
            return false;
          }
          MeansParts(itab, stat, vol.img, vol.count, vol.alloc.groups, vol.alloc.ipg, target);
          r := Add2Dir(parent, target, name);
      }
      ok := r == Done;
    }

    /** Any sequence of operations, up to the first that ends the program: each did what it should, the
        next cannot be done, and after every one of them the link counts are right. */
    method Build(ops: seq<Op>) returns (done: nat, ghost run: seq<Snap>)
      requires Valid()
      modifies this`stat, this`itab, vol, vol.alloc
      ensures done <= |ops| && |run| == done + 1 && run[0] == old(Look()) && IsRun(run, ops)
      ensures done < |ops| ==> !CanDo(run[done], ops[done])
      ensures done == |ops| ==> Valid() && run[done] == Look()
      ensures forall k :: 0 <= k <= done ==> LinksRight(run[k].itab)
    {
      hide V.Volume.Valid, Means, CanDo, Did, LinksRight;
      done, run := 0, [Look()];
      MeansSizes(itab, stat, vol.img, vol.count, vol.alloc.groups, vol.alloc.ipg);
      while done < |ops|
        invariant done <= |ops| && |run| == done + 1 && run[0] == old(Look()) && run[done] == Look() && Valid()
        invariant forall k :: 0 <= k < done ==> CanDo(run[k], ops[k]) && Did(run[k], run[k + 1], ops[k])
        invariant forall k :: 0 <= k <= done ==> LinksRight(run[k].itab)
      {
        var ok := Perform(ops[done]);
        if !ok {
          return;
        }
        MeansSizes(itab, stat, vol.img, vol.count, vol.alloc.groups, vol.alloc.ipg);
        run := run + [Look()];
        done := done + 1;
      }
    }
  }

  ghost function WithSpare(itab: seq<Node>, nod: nat): (r: seq<Node>)
    requires nod < |itab|
    ensures |r| == |itab|
  {
    itab[nod := itab[nod].(dir := itab[nod].dir + [SpareBlock()])]
  }

  // `n` spare blocks more.
  ghost function Reserved(itab: seq<Node>, nod: nat, n: nat): (r: seq<Node>)
    requires nod < |itab|
    ensures |r| == |itab|
  {
    itab[nod := itab[nod].(dir := itab[nod].dir + seq(n, _ => SpareBlock()))]
  }

  // lost+found with `n` blocks: its first, and spare ones.
  ghost function WithReserve(itab: seq<Node>, nod: nat, n: nat): seq<Node>
    requires nod < |itab|
  {
    var t := Reserved(itab, nod, if n > 0 then n - 1 else 0);
    t[nod := t[nod].(size := Size32(n * BLOCKSIZE))]
  }

  ghost function ReserveCost(k: nat, n: nat): int {
    if n <= 1 then 0 else V.Needs(k, n - 1)
  }

  lemma Size32Is(size: nat)
    ensures Size32(size) == size % 0x1_0000_0000
  {
  }

  lemma ReservedStart(itab: seq<Node>, nod: nat)
    requires nod < |itab|
    ensures Reserved(itab, nod, 0) == itab
  {
    assert itab[nod].dir + seq(0, _ => SpareBlock()) == itab[nod].dir;
  }

  lemma ReservedStep(itab: seq<Node>, nod: nat, n: nat)
    requires nod < |itab|
    ensures WithSpare(Reserved(itab, nod, n), nod) == Reserved(itab, nod, n + 1)
  {
    hide SpareBlock;
    assert itab[nod].dir + seq(n, _ => SpareBlock()) + [SpareBlock()] == itab[nod].dir + seq(n + 1, _ => SpareBlock());
  }

  lemma ReservedFacts(itab: seq<Node>, nod: nat, n: nat)
    requires nod < |itab|
    ensures var x := Reserved(itab, nod, n)[nod]; x.mode == itab[nod].mode && |x.dir| == |itab[nod].dir| + n
  {
    hide SpareBlock;
  }

  lemma SpareTiled()
    ensures D.Tiled(SpareBlock())
  {
    hide D.Span, D.Table, D.Named;
    D.One(SpareBlock()[0]);
  }

  lemma DirFits(itab: seq<Node>, stat: seq<Stat>, img: V.Image, count: map<nat, nat>, gs: seq<Group>, ipg: nat, bpg: nat, nod: nat, free: nat)
    requires Means(itab, stat, img, count, gs, ipg) && 1 <= nod < |itab| && IsDir(itab[nod].mode) && V.Tidy(img, count, gs, bpg)
    ensures V.Fits(|itab[nod].dir|, 0, free) && V.Needs(|itab[nod].dir|, 0) == 0
  {
    hide Times, Linked, IsDir, V.Sound, Stored;
    MeansParts(itab, stat, img, count, gs, ipg, nod);
    V.FitsZero(img, count, nod, free);
  }

  lemma SpareMeans(itab: seq<Node>, stat: seq<Stat>, img: V.Image, img': V.Image, count: map<nat, nat>, count': map<nat, nat>,
                   gs: seq<Group>, gs': seq<Group>, ipg: nat, nod: nat)
    requires Means(itab, stat, img, count, gs, ipg) && 1 <= nod < |itab| && IsDir(itab[nod].mode) && SameInodes(gs, gs')
    requires nod in count && count' == count[nod := count[nod] + 1] && D.AllOk(SpareBlock())
    requires V.OthersKept(img, img', count, nod) && V.TablesKept(img, img', nod)
    requires V.Contents(img', nod, count'[nod]) == V.Contents(img, nod, count[nod]) + [D.Words(SpareBlock())]
    ensures Means(WithSpare(itab, nod), stat, img', count', gs', ipg)
  {
    hide Linked, Times, V.DataAt, V.Contents, V.OthersKept, V.TablesKept, D.Words, D.AllOk, D.Tiled, SameInodes, SpareBlock, IsDir;
    assert StoredAt(img, count, nod, itab[nod]);
    NoData(img, count, nod, itab[nod]);
    DirHasMode(itab[nod].mode);
    SpareLinked(itab, gs, ipg, nod);
    SameLength(gs, gs');
    LinkedGroups(WithSpare(itab, nod), gs, gs', ipg);
    SpareTiled();
    StoredExtend(img, img', count, count', itab, WithSpare(itab, nod), nod, SpareBlock());
  }

  lemma ResizeMeans(itab: seq<Node>, stat: seq<Stat>, img: V.Image, count: map<nat, nat>, gs: seq<Group>, ipg: nat, nod: nat, size: nat)
    requires Means(itab, stat, img, count, gs, ipg) && 1 <= nod < |itab| && IsDir(itab[nod].mode)
    ensures |stat| == |itab| && Means(itab[nod := itab[nod].(size := size)], stat[nod := stat[nod].(size := size)], img, count, gs, ipg)
  {
    hide Linked, Times, IsDir, Holds, FileAt, TableAt;
    DirHasMode(itab[nod].mode);
    BodyLinked(itab, gs, ipg, nod, itab[nod].(size := size));
    var t := itab[nod := itab[nod].(size := size)];
    forall d | 1 <= d < |t| ensures StoredAt(img, count, d, t[d]) {
      assert StoredAt(img, count, d, itab[d]);
    }
  }

  ghost predicate Dotted(itab: seq<Node>, itab': seq<Node>, nod: nat, parent: nat) {
    exists b :: Entered(itab, b, nod, nod, DOT) && Entered(b, itab', nod, parent, DOTDOT)
  }

  lemma MadeDir(itab: seq<Node>, a: seq<Node>, itab': seq<Node>, parent: nat, nod: nat, name: D.Chars, mode: nat, dev: nat)
    requires EXT2_FIRST_INO <= nod < |itab| && itab[nod] == Blank() && IsDir(mode)
    requires Entered(itab[nod := Blank().(mode := mode)], a, parent, nod, name) && Dotted(a, itab', nod, parent)
    ensures Made(itab, itab', parent, nod, name, mode, dev)
  {
    hide Entered, IsDir, Blank;
    var b :| Entered(a, b, nod, nod, DOT) && Entered(b, itab', nod, parent, DOTDOT);
  }

  lemma MadeFile(itab: seq<Node>, itab': seq<Node>, parent: nat, nod: nat, name: D.Chars, mode: nat, dev: nat)
    requires EXT2_FIRST_INO <= nod < |itab| && itab[nod] == Blank() && !IsDir(mode) && !IsDevice(mode)
    requires Entered(itab[nod := Blank().(mode := mode)], itab', parent, nod, name)
    ensures Made(itab, itab', parent, nod, name, mode, dev)
  {
    hide Entered, IsDir, IsDevice, Blank;
  }

  lemma MadeDevice(itab: seq<Node>, a: seq<Node>, itab': seq<Node>, parent: nat, nod: nat, name: D.Chars, mode: nat, dev: nat)
    requires EXT2_FIRST_INO <= nod < |itab| && itab[nod] == Blank() && !IsDir(mode) && IsDevice(mode) && itab' == WithDev(a, nod, dev)
    requires Entered(itab[nod := Blank().(mode := mode)], a, parent, nod, name)
    ensures Made(itab, itab', parent, nod, name, mode, dev)
  {
    hide Entered, IsDir, IsDevice, Blank, WithDev;
  }

  lemma DidIt(s: Snap, s': Snap, parent: nat, name: D.Chars, mode: nat, dev: nat, nod: nat)
    requires s'.freeInodes == s.freeInodes - 1 && parent < |s.itab| && Made(s.itab, s'.itab, parent, nod, name, mode, dev)
    requires s'.freeBlocks == s.freeBlocks - Cost(s.itab[parent].dir, name) - (if IsDir(mode) then 1 else 0)
    ensures DidMake(s, s', parent, name, mode, dev)
  {
    hide Made, Cost, IsDir;
  }

  lemma MadeCost(s: Snap, s': Snap, parent: nat, name: D.Chars, mode: nat, dev: nat)
    requires DidMake(s, s', parent, name, mode, dev) && !IsDir(mode)
    ensures parent < |s.itab| && s'.freeInodes == s.freeInodes - 1 && s'.freeBlocks == s.freeBlocks - Cost(s.itab[parent].dir, name)
  {
    hide Made, Cost, IsDir;
  }

  lemma FiledIt(s: Snap, mid: Snap, s': Snap, parent: nat, nod: nat, name: D.Chars, perm: nat, size: nat, bytes: seq<byte>)
    requires parent < |s.itab| && nod < |mid.itab| && mid.itab[nod].mode == FileMode(perm)
    requires Made(s.itab, mid.itab, parent, nod, name, FileMode(perm), 0) && s'.itab == WithData(mid.itab, nod, size, bytes)
    requires mid.freeInodes == s.freeInodes - 1 && mid.freeBlocks == s.freeBlocks - Cost(s.itab[parent].dir, name)
    requires s'.freeInodes == mid.freeInodes && s'.freeBlocks == mid.freeBlocks - V.Needs(0, B.BlockCount(size))
    ensures DidFile(s, s', parent, name, perm, size, bytes) && nod < |s'.itab|
    ensures s'.itab[nod].mode == FileMode(perm) && s'.itab[nod].data == B.Chunks(bytes, size) && s'.itab[nod].size == Size32(size)
  {
    hide Made, Cost, FileMode, V.Needs, B.BlockCount, B.Chunks;
  }

  lemma CanMakeCost(s: Snap, parent: nat, name: D.Chars, mode: nat)
    requires parent < |s.itab|
    ensures CanMake(s, parent, name, mode) ==> Cost(s.itab[parent].dir, name) <= s.freeBlocks
  {
    hide Cost, Affordable, NameOk, IsDir;
    CostBound(s.itab[parent].dir, name, s.freeBlocks);
  }

  lemma FileModeLaw(perm: nat)
    ensures IsRegular(FileMode(perm)) && !IsDir(FileMode(perm)) && !IsDevice(FileMode(perm)) && FileMode(perm) != 0
  {
    assert FileMode(perm) / 0x1000 == 8;
  }

  lemma FileModeIs(perm: nat)
    ensures 0x8000 + perm % 0x1000 == FileMode(perm)
  {
  }

  lemma NoNumber()
    ensures DevNumber(0, 0) == 0
  {
  }

  lemma DeviceIs(mode: nat)
    requires IsDevice(mode)
    ensures mode != 0
  {
  }

  lemma RegularIs(mode: nat)
    requires IsRegular(mode)
    ensures !IsDir(mode) && mode != 0
  {
  }

  lemma LowBytes(major: byte, minor: byte)
    ensures V.WithLow(0, major, minor) == DevNumber(major, minor)
  {
  }

  lemma ZeroSlot(itab: seq<Node>, stat: seq<Stat>, img: V.Image, count: map<nat, nat>, gs: seq<Group>, ipg: nat, nod: nat)
    requires Means(itab, stat, img, count, gs, ipg) && 1 <= nod < |itab| && nod in count && count[nod] == 0
    ensures nod in img.inode && |img.inode[nod].block| == 15 && img.inode[nod].block[0] == itab[nod].dev
  {
    hide Linked, Times, IsDir, Holds, FileAt;
    assert StoredAt(img, count, nod, itab[nod]);
  }

  lemma DeviceMeans(itab: seq<Node>, stat: seq<Stat>, img: V.Image, img': V.Image, count: map<nat, nat>, gs: seq<Group>, ipg: nat, nod: nat, dev: nat)
    requires Means(itab, stat, img, count, gs, ipg) && 1 <= nod < |itab| && !IsDir(itab[nod].mode) && itab[nod].mode != 0 && itab[nod].data == []
    requires V.OthersKept(img, img', count, nod) && V.TablesKept(img, img', nod)
    requires nod in img'.inode && |img'.inode[nod].block| == 15 && img'.inode[nod].block[0] == dev
    ensures Means(WithDev(itab, nod, dev), stat, img', count, gs, ipg)
  {
    hide Linked, Times, IsDir, Holds, V.OthersKept, V.TablesKept;
    var t := WithDev(itab, nod, dev);
    BodyLinked(itab, gs, ipg, nod, t[nod]);
    forall d | 1 <= d < |t| ensures StoredAt(img', count, d, t[d]) {
      assert StoredAt(img, count, d, itab[d]);
      if d != nod { KeptStored(img, img', count, count, nod, d, itab[d], t[d]); }
    }
  }

  lemma FileMeans(itab: seq<Node>, stat: seq<Stat>, img: V.Image, img': V.Image, count: map<nat, nat>, count': map<nat, nat>,
                  gs: seq<Group>, gs': seq<Group>, ipg: nat, nod: nat, size: nat, bytes: seq<byte>)
    requires Means(itab, stat, img, count, gs, ipg) && 1 <= nod < |itab| && IsRegular(itab[nod].mode) && SameInodes(gs, gs')
    requires nod in count && count[nod] == 0 && count' == count[nod := |B.Chunks(bytes, size)|]
    requires V.OthersKept(img, img', count, nod) && V.TablesKept(img, img', nod) && (img' == img || count'[nod] > 0)
    requires V.Contents(img', nod, count'[nod]) == B.Chunks(bytes, size)
    ensures nod < |stat| && Means(WithData(itab, nod, size, bytes), stat[nod := stat[nod].(size := Size32(size))], img', count', gs', ipg)
  {
    hide Linked, Times, IsDir, IsRegular, Holds, V.OthersKept, V.TablesKept, V.Contents, B.Chunks, SameInodes;
    var t := WithData(itab, nod, size, bytes);
    RegularIs(itab[nod].mode);
    BodyLinked(itab, gs, ipg, nod, t[nod]);
    SameLength(gs, gs');
    LinkedGroups(t, gs, gs', ipg);
    forall d | 1 <= d < |t| ensures StoredAt(img', count', d, t[d]) {
      assert StoredAt(img, count, d, itab[d]);
      if d != nod { KeptStored(img, img', count, count', nod, d, itab[d], t[d]); }
    }
  }

  lemma NoBlocks(img: V.Image, nod: nat)
    ensures V.Contents(img, nod, 0) == [] && P.Fresh(INIT_BW)
    ensures forall c: seq<V.Block> {:trigger [] + c} :: [] + c == c
  {
  }

  lemma SomeBlocks(bytes: seq<byte>, size: nat)
    requires size > 0
    ensures |B.Chunks(bytes, size)| == B.BlockCount(size) > 0
    ensures forall k :: 0 <= k < |B.Chunks(bytes, size)| ==> |B.Chunks(bytes, size)[k]| == P.WORDS
  {
    hide B.Chunk;
  }

  lemma NothingWritten(bytes: seq<byte>, img: V.Image, count: map<nat, nat>, gs: seq<Group>, nod: nat, free: nat)
    requires nod in count && count[nod] == 0
    ensures B.Chunks(bytes, 0) == [] && count == count[nod := |B.Chunks(bytes, 0)|] && SameInodes(gs, gs)
    ensures V.OthersKept(img, img, count, nod) && V.TablesKept(img, img, nod)
    ensures V.Fits(0, B.BlockCount(0), free) && V.Needs(0, B.BlockCount(0)) == 0
  {
    hide B.Chunks;
    SameInodesRefl(gs);
    V.OthersRefl(img, count, nod);
    V.TablesRefl(img, nod);
    assert B.BlockCount(0) == 0;
  }

  // The blocks of a file, as the walk finds them.
  lemma FileBlocks(itab: seq<Node>, stat: seq<Stat>, img: V.Image, count: map<nat, nat>, gs: seq<Group>, ipg: nat, bpg: nat, nod: nat)
    requires Means(itab, stat, img, count, gs, ipg) && V.Tidy(img, count, gs, bpg) && 1 <= nod < |itab| && !IsDir(itab[nod].mode)
    ensures nod in count && B.Blocky(itab[nod].data) && count[nod] == |itab[nod].data|
    ensures var bks := V.DataBlocks(img, nod, count[nod]);
      forall k :: 0 <= k < |itab[nod].data| ==> bks[k] in img.mem && img.mem[bks[k]] == itab[nod].data[k]
  {
    hide V.Tidy, V.Get, P.LeafAt, V.DataBlocks, V.Contents, Linked, Times, IsDir;
    assert StoredAt(img, count, nod, itab[nod]);
    forall k: nat | k < |itab[nod].data|
      ensures var b := V.DataBlocks(img, nod, count[nod])[k];
        b in img.mem && img.mem[b] == itab[nod].data[k] && |itab[nod].data[k]| == P.WORDS
    {
      V.DataBlockAt(img, nod, count[nod], k);
      V.LeafPlaced(img, count, gs, bpg, nod, k);
      V.ContentsAt(img, nod, count[nod], k);
      V.TidyBlock(img, count, gs, bpg, V.Get(img, nod, P.LeafAt(k)));
    }
  }

  lemma DotNames()
    ensures NameOk(DOT) && NameOk(DOTDOT)
  {
  }

  lemma ModeUsed(itab: seq<Node>, stat: seq<Stat>, img: V.Image, count: map<nat, nat>, gs: seq<Group>, ipg: nat, d: nat)
    requires Means(itab, stat, img, count, gs, ipg) && d < |itab| && IsDir(itab[d].mode)
    ensures 0 < ipg && (EXT2_FIRST_INO <= d ==> InodeUsed(gs, ipg, d))
  {
    hide Times, Linked, InodeUsed, Holds, Stored;
    DirHasMode(itab[d].mode);
    MeansParts(itab, stat, img, count, gs, ipg, d);
  }

  lemma CostBound(dir: seq<D.DirBlock>, name: D.Chars, free: nat)
    ensures Affordable(dir, name, free) ==> Cost(dir, name) <= free
  {
    hide D.Fits, D.Need, V.Needs;
  }

  lemma RootThere(itab: seq<Node>, stat: seq<Stat>, img: V.Image, count: map<nat, nat>, gs: seq<Group>, ipg: nat)
    requires Means(itab, stat, img, count, gs, ipg) && itab == seq(|itab|, _ => Blank())
    ensures EXT2_ROOT_INO < |itab| && EXT2_ROOT_INO in count && count[EXT2_ROOT_INO] == 0 && D.Tiled(RootBlock())
  {
    hide Times, Linked, RootBlock, Holds;
    TwoInTable(itab, gs, ipg);
    MeansParts(itab, stat, img, count, gs, ipg, EXT2_ROOT_INO);
    RootBlockLaw();
  }

  lemma HoldsLength(img: V.Image, count: map<nat, nat>, d: nat, dir: seq<D.DirBlock>)
    requires Holds(img, count, d, dir)
    ensures d in count && count[d] == |dir| && D.DirOk(dir)
  {
  }

  lemma InodeThere(img: V.Image, count: map<nat, nat>, gs: seq<Group>, bpg: nat, d: nat)
    requires V.Tidy(img, count, gs, bpg) && d in count
    ensures d in img.inode && P.Fresh(INIT_BW)
  {
  }

  lemma DirAt(itab: seq<Node>, stat: seq<Stat>, img: V.Image, count: map<nat, nat>, gs: seq<Group>, ipg: nat, d: nat)
    requires Means(itab, stat, img, count, gs, ipg) && d < |itab|
    ensures D.DirOk(itab[d].dir)
  {
  }

  lemma GrewFacts(d: seq<D.DirBlock>, dir: seq<D.DirBlock>, at: nat, grew: bool, nod: nat, name: D.Chars)
    requires D.Grew(d, dir, at, grew, nod, name)
    ensures at < |dir| && D.Tiled(dir[at]) && (grew <==> !D.Fits(d, D.Need(|name|))) && (!grew ==> at < |d|)
  {
    hide D.Tiled, D.Added, D.Fits, D.Need, D.WorkBlock;
  }

  lemma DirThere(itab: seq<Node>, stat: seq<Stat>, img: V.Image, count: map<nat, nat>, gs: seq<Group>, ipg: nat, dnod: nat, nod: nat)
    requires Means(itab, stat, img, count, gs, ipg) && Addable(itab, gs, ipg, dnod, nod)
    ensures dnod < |itab| == |stat| && nod < |stat| && dnod in count && count[dnod] == |itab[dnod].dir| && P.Fresh(INIT_BW)
  {
    hide Times, Linked, InodeUsed;
    MeansParts(itab, stat, img, count, gs, ipg, dnod);
  }

  lemma BlockThere(itab: seq<Node>, stat: seq<Stat>, img: V.Image, count: map<nat, nat>, gs: seq<Group>, ipg: nat,
                   dnod: nat, nod: nat, dir: seq<D.DirBlock>, at: nat, name: D.Chars)
    requires Means(itab, stat, img, count, gs, ipg) && Addable(itab, gs, ipg, dnod, nod) && D.Grew(itab[dnod].dir, dir, at, false, nod, name)
    ensures dnod < |itab| == |stat| && nod < |stat| && dnod in count && at < count[dnod]
  {
    hide Times, Linked, InodeUsed, D.Added, D.DirOk, D.Fits, D.Need, D.WorkBlock;
    DirThere(itab, stat, img, count, gs, ipg, dnod, nod);
  }

  lemma MadeMode(itab: seq<Node>, itab': seq<Node>, parent: nat, nod: nat, name: D.Chars, mode: nat, dev: nat)
    requires Made(itab, itab', parent, nod, name, mode, dev)
    ensures nod < |itab'| == |itab| && itab'[nod].mode == mode && itab'[nod].data == []
    ensures IsDir(mode) && parent != nod ==> |itab'[nod].dir| == 1
    ensures forall d :: 0 <= d < |itab| && d != nod ==> SameData(itab[d], itab'[d]) && (d != parent ==> itab'[d].size == itab[d].size)
  {
    hide Entered, IsDir, IsDevice;
    var t := itab[nod := Blank().(mode := mode)];
    if IsDir(mode) {
      var a, b :| Entered(t, a, parent, nod, name) && Entered(a, b, nod, nod, DOT) && Entered(b, itab', nod, parent, DOTDOT);
      EnteredTables(t, a, parent, nod, name);
      EnteredTables(a, b, nod, nod, DOT);
      EnteredTables(b, itab', nod, parent, DOTDOT);
      if parent != nod {
        NothingFits(D.Need(|DOT|));
        EnteredSize(a, b, nod, nod, DOT);
        FirstEntry(a, b, nod, nod);
        EnteredSize(b, itab', nod, parent, DOTDOT);
      }
    } else if IsDevice(mode) {
      var a :| Entered(t, a, parent, nod, name) && itab' == WithDev(a, nod, dev);
      EnteredTables(t, a, parent, nod, name);
    } else {
      EnteredTables(t, itab', parent, nod, name);
    }
  }

  lemma EnteredSize(itab: seq<Node>, itab': seq<Node>, dnod: nat, nod: nat, name: D.Chars)
    requires Entered(itab, itab', dnod, nod, name)
    ensures dnod < |itab'| && |itab'[dnod].dir| == |itab[dnod].dir| + if D.Fits(itab[dnod].dir, D.Need(|name|)) then 0 else 1
  {
    hide D.Flat, D.DirOk, D.Added, D.Fits, D.Need, D.WorkBlock;
    var dir, at, grew :| EnteredBy(itab, itab', dnod, nod, name, dir, at, grew);
  }

  // ---- Runs keep files ----

  // An operation that can be done changes no inode in use but for its links and, in a directory, its
  // entries.
  lemma DidKeeps(s: Snap, s': Snap, op: Op, n: nat)
    requires CanDo(s, op) && Did(s, s', op) && InUse(s, n)
    ensures InUse(s', n) && SameFile(s.itab[n], s'.itab[n])
  {
    hide Made, Entered, IsDir, Cost, V.Needs, V.Fits, B.Chunks, B.BlockCount, OrDir, FileMode, DevNumber, Affordable, NameOk;
    match op {
      case Mknod(parent, name, mode, major, minor) =>
        MakeKeeps(s, s', parent, name, mode, DevNumber(major, minor), n);
      case Mkdir(parent, name, mode) =>
        MakeKeeps(s, s', parent, name, OrDir(mode), 0, n);
      case Mkfile(parent, name, perm, size, bytes) =>
        var nod, mid :| Made(s.itab, mid, parent, nod, name, FileMode(perm), 0) && s'.itab == WithData(mid, nod, size, bytes);
        MadeMode(s.itab, mid, parent, nod, name, FileMode(perm), 0);
        MadeFresh(s.itab, mid, parent, nod, name, FileMode(perm), 0);
      case Link(parent, nod, name) =>
        EnteredTables(s.itab, s'.itab, parent, nod, name);
    }
  }

  lemma MakeKeeps(s: Snap, s': Snap, parent: nat, name: D.Chars, mode: nat, dev: nat, n: nat)
    requires DidMake(s, s', parent, name, mode, dev) && InUse(s, n) && parent < |s.itab| && IsDir(s.itab[parent].mode)
    ensures InUse(s', n) && SameFile(s.itab[n], s'.itab[n])
  {
    hide Made, IsDir, Cost;
    var nod :| Made(s.itab, s'.itab, parent, nod, name, mode, dev);
    MadeMode(s.itab, s'.itab, parent, nod, name, mode, dev);
    MadeFresh(s.itab, s'.itab, parent, nod, name, mode, dev);
  }

  lemma MadeFresh(itab: seq<Node>, itab': seq<Node>, parent: nat, nod: nat, name: D.Chars, mode: nat, dev: nat)
    requires Made(itab, itab', parent, nod, name, mode, dev)
    ensures EXT2_FIRST_INO <= nod < |itab| && itab[nod].mode == 0
  {
    hide Entered, IsDir, IsDevice;
  }

  // In every run, files keep what they hold and devices their numbers.
  lemma {:induction false} FilesPersist(run: seq<Snap>, ops: seq<Op>, j: nat, k: nat, n: nat)
    requires IsRun(run, ops) && j <= k < |run| && InUse(run[j], n)
    ensures InUse(run[k], n) && SameFile(run[j].itab[n], run[k].itab[n])
    decreases k
  {
    hide Did, CanDo, IsDir;
    if j < k {
      FilesPersist(run, ops, j, k - 1, n);
      DidKeeps(run[k - 1], run[k], ops[k - 1], n);
    }
  }

  // The contents of a file made in a run come back from write_blocks in every later state of it,
  // exactly if their size is an int.
  lemma FileSaved(run: seq<Snap>, ops: seq<Op>, j: nat, k: nat) returns (nod: nat)
    requires IsRun(run, ops) && j < k < |run| && ops[j].Mkfile?
    ensures InUse(run[k], nod) && !InUse(run[j], nod) && run[k].itab[nod].mode == FileMode(ops[j].perm)
    ensures Restorable(run[k].itab[nod], ops[j].size, ops[j].bytes)
  {
    hide Did, CanDo, IsDir, Restorable, FileMode, B.Chunks;
    nod := FileMade(run[j], run[j + 1], ops[j]);
    FilesPersist(run, ops, j + 1, k, nod);
    FileModeLaw(ops[j].perm);
    Restores(run[k].itab[nod], ops[j].size, ops[j].bytes);
  }

  // write_blocks saves the file, exactly if its size is an int, and then its bytes.
  ghost predicate Restorable(x: Node, size: nat, bytes: seq<byte>) {
    && B.Blocky(x.data) && (B.Savable(|x.data|, x.size) <==> size <= INT_MAX)
    && (size <= INT_MAX && |bytes| == size ==> B.Spilled(x.data, B.SavedLength(|x.data|, x.size)) == bytes)
  }

  lemma Restores(x: Node, size: nat, bytes: seq<byte>)
    requires x.data == B.Chunks(bytes, size) && x.size == Size32(size)
    ensures Restorable(x, size, bytes)
  {
    hide B.Spilled, B.Savable, B.SavedLength, B.Chunks, B.BlockCount;
    B.FileRoundTrip(bytes, size);
  }

  lemma FileMade(s: Snap, s': Snap, op: Op) returns (nod: nat)
    requires op.Mkfile? && Did(s, s', op)
    ensures InUse(s', nod) && !InUse(s, nod) && s'.itab[nod].mode == FileMode(op.perm)
    ensures s'.itab[nod].data == B.Chunks(op.bytes, op.size) && s'.itab[nod].size == Size32(op.size)
  {
    hide Made, Cost, V.Needs, B.Chunks, B.BlockCount;
    var n, mid :| Made(s.itab, mid, op.parent, n, op.name, FileMode(op.perm), 0) && s'.itab == WithData(mid, n, op.size, op.bytes);
    MadeMode(s.itab, mid, op.parent, n, op.name, FileMode(op.perm), 0);
    MadeFresh(s.itab, mid, op.parent, n, op.name, FileMode(op.perm), 0);
    nod := n;
  }

  // FM_IRWXU | FM_IFDIR.
  lemma OwnerOnly()
    ensures IsDir(OrDir(0x1C0))
  {
  }

  // "lost+found".
  const LOST_FOUND: D.Chars := [108, 111, 115, 116, 43, 102, 111, 117, 110, 100]

  // How many blocks lost+found gets.
  ghost function Reservation(geo: Geometry, nbresrvd: nat): nat {
    if nbresrvd > geo.nbblocks * 25 / 100 then geo.nbblocks * 25 / 100 else nbresrvd
  }

  lemma ReservationIs(geo: Geometry, nbresrvd: nat)
    ensures Reservation(geo, nbresrvd) == if nbresrvd > geo.nbblocks / 4 then geo.nbblocks / 4 else nbresrvd
  {
  }

  // What init_fs leaves: the root directory alone, or with lost+found.
  ghost predicate Initial(s: Snap, geo: Geometry, nbresrvd: nat) {
    && EXT2_ROOT_INO < geo.ipg * geo.nbgroups + 1
    && var root := seq(geo.ipg * geo.nbgroups + 1, _ => Blank())[EXT2_ROOT_INO := RootNode()];
       var free, inodes := geo.nbblocks - geo.overhead * geo.nbgroups - 1, geo.ipg * geo.nbgroups - (EXT2_FIRST_INO - 1);
       if nbresrvd == 0 then s.itab == root && s.freeBlocks == free - 1 && s.freeInodes == inodes
       else
         && s.freeBlocks == free - 2 - ReserveCost(1, Reservation(geo, nbresrvd)) && s.freeInodes == inodes - 1
         && exists nod, t :: LostFound(root, nod, t) && s.itab == WithReserve(t, nod, Reservation(geo, nbresrvd))
  }

  // Its directory, with the one block that the two dots take.
  ghost predicate LostFound(root: seq<Node>, nod: nat, t: seq<Node>) {
    && Made(root, t, EXT2_ROOT_INO, nod, LOST_FOUND, OrDir(0x1C0), 0)
    && nod < |t| && IsDir(t[nod].mode) && |t[nod].dir| == 1
  }

  /** init_fs behind the layout of the groups: the root directory and, if blocks are to be reserved,
      lost+found with as many blocks, at most a quarter of all.  It needs one block for either, and what
      the further blocks of lost+found take. */
  method InitFs(geo: Geometry, nbresrvd: nat) returns (ok: bool, t: Tree)
    requires geo.Sane() && geo.LastGroupRoom()
    ensures ok ==> t.Valid() && fresh(t) && fresh(t.vol) && fresh(t.vol.alloc)
    ensures ok ==> Initial(t.Look(), geo, nbresrvd)
    ensures var free := geo.nbblocks - geo.overhead * geo.nbgroups - 1;
      var n := Reservation(geo, nbresrvd);
      ok <==> if nbresrvd == 0 then free >= 1 else free >= 2 && (n <= 1 || V.Fits(1, n - 1, free - 2))
  {
    hide V.Volume.Valid, Means, V.Fits, CanMake, DidMake, Made, Reserved, IsDir, RootNode, Blank, OrDir, Reservation, WithReserve, ReserveCost;
    t := new Tree(geo);
    ok := t.MakeRoot();
    if ok && nbresrvd > 0 {
      RootIsDir();
      ghost var s0 := t.Look();
      MulMono(geo.ipg, 1, geo.nbgroups);
      LostFoundFits(s0);
      var r, nod := t.MkdirFs(EXT2_ROOT_INO, LOST_FOUND, 0x1C0);
      if r != Done {
        return false, t;
      }
      LostFoundMade(s0, t.Look(), nod);
      assert LostFound(s0.itab, nod, t.itab);
      var n := nbresrvd;
      if n > geo.nbblocks / 4 {
        n := geo.nbblocks / 4;
      }
      ReservationIs(geo, nbresrvd);
      ok := t.Reserve(nod, n);
    }
  }

  // The root directory has room for the name, so that lost+found costs one block.
  lemma LostFoundFits(s: Snap)
    requires EXT2_ROOT_INO < |s.itab| && s.itab[EXT2_ROOT_INO] == RootNode() && s.freeInodes > 0
    ensures CanMake(s, EXT2_ROOT_INO, LOST_FOUND, OrDir(0x1C0)) <==> s.freeBlocks >= 1
    ensures Cost(s.itab[EXT2_ROOT_INO].dir, LOST_FOUND) == 0 && s.itab[EXT2_ROOT_INO].mode != 0
  {
    RootIsDir();
    OwnerOnly();
    var d := s.itab[EXT2_ROOT_INO].dir;
    assert D.Splittable(d[0][1], D.Need(|LOST_FOUND|));
  }

  lemma LostFoundMade(s: Snap, s': Snap, nod: nat)
    requires EXT2_ROOT_INO < |s.itab| && s.itab[EXT2_ROOT_INO] == RootNode() && s.freeInodes > 0 && nod >= EXT2_FIRST_INO
    requires DidMake(s, s', EXT2_ROOT_INO, LOST_FOUND, OrDir(0x1C0), 0) && Made(s.itab, s'.itab, EXT2_ROOT_INO, nod, LOST_FOUND, OrDir(0x1C0), 0)
    ensures nod < |s'.itab| && IsDir(s'.itab[nod].mode) && |s'.itab[nod].dir| == 1
    ensures s'.freeBlocks == s.freeBlocks - 1 && s'.freeInodes == s.freeInodes - 1
  {
    hide Made, Cost, IsDir, OrDir, RootNode;
    LostFoundFits(s);
    OwnerOnly();
    MadeMode(s.itab, s'.itab, EXT2_ROOT_INO, nod, LOST_FOUND, OrDir(0x1C0), 0);
  }
}
