/**
 What the operations of external/genext2fs/genext2fs.c leave behind, field by field
 and name by name, in every run (mknod_fs, mkdir_fs, mkfile_fs and hard links, lines
 1376-1452; init_fs, lines 2073-2117).
*/
module Ext2Meaning {
  import opened Basics
  import opened Ext2Alloc
  import opened Ext2Links
  import D = Ext2Dir
  import V = Ext2Volume
  import B = Ext2Bytes

  // What find_dir finds in a directory.
  ghost function Names(x: Node): map<D.Chars, nat> {
    if D.AllOk(D.Flat(x.dir)) then D.Table(D.Flat(x.dir)) else map[]
  }

  ghost predicate Ascii(s: string) {
    forall i :: 0 <= i < |s| ==> s[i] < 128 as char
  }

  ghost function Codes(s: string): D.Chars
    requires Ascii(s)
  {
    seq(|s|, i requires 0 <= i < |s| => s[i] as int)
  }

  lemma Dots()
    ensures Ascii(".") && Ascii("..") && DOT == Codes(".") && DOTDOT == Codes("..") && DOT != DOTDOT
  {
    assert DOT == Codes(".");
    assert |DOT| == 1 && |DOTDOT| == 2;
    assert DOTDOT == Codes("..");
  }

  // ---- One entry ----

  // add2dir of `name` for `nod` in `dnod`, inode by inode.
  lemma EntryMeans(itab: seq<Node>, itab': seq<Node>, dnod: nat, nod: nat, name: D.Chars)
    requires Entered(itab, itab', dnod, nod, name)
    ensures |itab'| == |itab| && dnod < |itab| && nod < |itab|
    ensures forall d :: 0 <= d < |itab| && d != dnod && d != nod ==> itab'[d] == itab[d]
    ensures forall d :: 0 <= d < |itab| ==> SameData(itab[d], itab'[d]) && (d != dnod ==> itab'[d].dir == itab[d].dir && itab'[d].size == itab[d].size)
    ensures forall d :: 0 <= d < |itab| && d != nod ==> itab'[d].links == itab[d].links
    ensures itab'[nod].links == (itab[nod].links + 1) % 0x1_0000
    ensures itab'[dnod].size == (itab[dnod].size + if D.Fits(itab[dnod].dir, D.Need(|name|)) then 0 else 1024) % 0x1_0000_0000
    ensures name !in Names(itab[dnod]) ==> Names(itab'[dnod]) == Names(itab[dnod])[name := nod]
  {
    hide D.Flat, D.Table, D.DirOk, D.AllOk, D.Named, D.Fits, D.Need, D.WorkBlock, D.FirstFit;
    EnteredTables(itab, itab', dnod, nod, name);
    var dir, at, grew :| EnteredBy(itab, itab', dnod, nod, name, dir, at, grew);
  }

  lemma NoNames(x: Node)
    requires x.dir == []
    ensures Names(x) == map[]
  {
    D.TableNone();
  }

  // ---- A new inode ----

  // The inode `nod` was blank; now it has the mode, `links` links and, named `name`, an entry in
  // `parent`.  Nothing else but the parent changed.
  ghost predicate NewNode(itab: seq<Node>, itab': seq<Node>, parent: nat, nod: nat, name: D.Chars, mode: nat, links: nat) {
    && 11 <= nod < |itab| == |itab'| && parent < |itab| && parent != nod && itab[nod] == Node(0, 0, 0, [], [], 0)
    && itab'[nod].mode == mode && itab'[nod].links == links
    && (forall d :: 0 <= d < |itab| && d != nod && d != parent ==> itab'[d] == itab[d])
    && (name !in Names(itab[parent]) ==> Names(itab'[parent]) == Names(itab[parent])[name := nod])
  }

  // A directory has its own two entries, and the second is one more link to the parent.
  ghost predicate NewDir(itab: seq<Node>, itab': seq<Node>, parent: nat, nod: nat) {
    && nod < |itab'| == |itab| && parent < |itab|
    && Ascii(".") && Ascii("..") && Names(itab'[nod]) == map[Codes(".") := nod, Codes("..") := parent]
    && itab'[nod].size == 1024 && itab'[nod].data == [] && itab'[nod].dev == 0
    && itab'[parent].links == (itab[parent].links + 1) % 0x1_0000
  }

  ghost predicate NewPlain(itab: seq<Node>, itab': seq<Node>, parent: nat, nod: nat) {
    && nod < |itab'| == |itab| && parent < |itab|
    && itab'[nod].dir == [] && itab'[parent].links == itab[parent].links
  }

  lemma DirMade(itab: seq<Node>, itab': seq<Node>, parent: nat, nod: nat, name: D.Chars, mode: nat, dev: nat)
    requires Made(itab, itab', parent, nod, name, mode, dev) && parent != nod && parent < |itab| && IsDir(mode)
    ensures NewNode(itab, itab', parent, nod, name, mode, 2) && NewDir(itab, itab', parent, nod)
  {
    hide Entered, IsDir, D.Fits, D.Need, Names;
    var t := itab[nod := Blank().(mode := mode)];
    var a, b :| Entered(t, a, parent, nod, name) && Entered(a, b, nod, nod, DOT) && Entered(b, itab', nod, parent, DOTDOT);
    EntryMeans(t, a, parent, nod, name);
    EntryMeans(a, b, nod, nod, DOT);
    EntryMeans(b, itab', nod, parent, DOTDOT);
    Dots();
    NoNames(a[nod]);
    NothingFits(D.Need(|DOT|));
    FirstEntry(a, b, nod, nod);
    SameNames(itab[parent], t[parent]);
    SameNames(a[parent], itab'[parent]);
  }

  lemma SameNames(x: Node, y: Node)
    requires x.dir == y.dir
    ensures Names(x) == Names(y)
  {
  }

  lemma PlainMade(itab: seq<Node>, itab': seq<Node>, parent: nat, nod: nat, name: D.Chars, mode: nat, dev: nat)
    requires Made(itab, itab', parent, nod, name, mode, dev) && parent != nod && parent < |itab| && !IsDir(mode)
    ensures NewNode(itab, itab', parent, nod, name, mode, 1) && NewPlain(itab, itab', parent, nod)
    ensures itab'[nod].size == 0 && itab'[nod].data == [] && itab'[nod].dev == if IsDevice(mode) then dev else 0
  {
    hide Entered, IsDir, IsDevice, D.Fits, D.Need, Names;
    var t := itab[nod := Blank().(mode := mode)];
    if IsDevice(mode) {
      var a :| Entered(t, a, parent, nod, name) && itab' == WithDev(a, nod, dev);
      EntryMeans(t, a, parent, nod, name);
      SameNames(a[parent], itab'[parent]);
    } else {
      EntryMeans(t, itab', parent, nod, name);
    }
    SameNames(itab[parent], t[parent]);
  }

  // ---- Steps of a run ----

  // mknod_fs.  A character or block device has its number in i_block; nothing else has.
  lemma MknodStep(run: seq<Snap>, ops: seq<Op>, j: nat) returns (nod: nat)
    requires IsRun(run, ops) && j + 1 < |run| && ops[j].Mknod? && ops[j].mode < 0x1_0000
    ensures var op, was, now := ops[j], run[j].itab, run[j + 1].itab;
      if 0x4000 <= op.mode < 0x5000 then NewNode(was, now, op.parent, nod, op.name, op.mode, 2) && NewDir(was, now, op.parent, nod)
      else
        && NewNode(was, now, op.parent, nod, op.name, op.mode, 1) && NewPlain(was, now, op.parent, nod) && now[nod].data == [] && now[nod].size == 0
        && now[nod].dev == if 0x2000 <= op.mode < 0x3000 || 0x6000 <= op.mode < 0x7000 then op.minor + 256 * op.major else 0
  {
    hide Made, Cost, IsDir, IsDevice, NewNode, NewDir, NewPlain, NameOk, Affordable;
    var op, s, s' := ops[j], run[j], run[j + 1];
    assert CanDo(s, op) && Did(s, s', op);
    Format(op.mode);
    nod := Maker(s, s', op.parent, op.name, op.mode, DevNumber(op.major, op.minor));
    if IsDir(op.mode) {
      DirMade(s.itab, s'.itab, op.parent, nod, op.name, op.mode, DevNumber(op.major, op.minor));
    } else {
      PlainMade(s.itab, s'.itab, op.parent, nod, op.name, op.mode, DevNumber(op.major, op.minor));
    }
  }

  lemma Maker(s: Snap, s': Snap, parent: nat, name: D.Chars, mode: nat, dev: nat) returns (nod: nat)
    requires InUse(s, parent) && DidMake(s, s', parent, name, mode, dev)
    ensures Made(s.itab, s'.itab, parent, nod, name, mode, dev) && parent != nod
  {
    hide Made, Cost, IsDir;
    var n :| Made(s.itab, s'.itab, parent, n, name, mode, dev);
    MadeFresh(s.itab, s'.itab, parent, n, name, mode, dev);
    nod := n;
  }

  // mode | FM_IFDIR.
  lemma DirBit(mode: nat)
    ensures OrDir(mode) % 0x4000 == mode % 0x4000 && OrDir(mode) / 0x8000 == mode / 0x8000 && OrDir(mode) / 0x4000 % 2 == 1
  {
  }

  // mkdir_fs with permissions: a directory.
  lemma MkdirStep(run: seq<Snap>, ops: seq<Op>, j: nat) returns (nod: nat)
    requires IsRun(run, ops) && j + 1 < |run| && ops[j].Mkdir? && ops[j].mode < 0x1000
    ensures var op, was, now := ops[j], run[j].itab, run[j + 1].itab;
      NewNode(was, now, op.parent, nod, op.name, 0x4000 + op.mode, 2) && NewDir(was, now, op.parent, nod)
  {
    hide Made, Cost, IsDir, NewNode, NewDir, NameOk, Affordable;
    var op, s, s' := ops[j], run[j], run[j + 1];
    assert CanDo(s, op) && Did(s, s', op);
    assert OrDir(op.mode) == 0x4000 + op.mode;
    Format(OrDir(op.mode));
    nod := Maker(s, s', op.parent, op.name, OrDir(op.mode), 0);
    DirMade(s.itab, s'.itab, op.parent, nod, op.name, OrDir(op.mode), 0);
  }

  // mkfile_fs: a regular file with the permissions, the size and the bytes read.
  lemma MkfileStep(run: seq<Snap>, ops: seq<Op>, j: nat) returns (nod: nat)
    requires IsRun(run, ops) && j + 1 < |run| && ops[j].Mkfile?
    ensures var op, was, now := ops[j], run[j].itab, run[j + 1].itab;
      && NewNode(was, now, op.parent, nod, op.name, 0x8000 + op.perm % 0x1000, 1) && NewPlain(was, now, op.parent, nod)
      && now[nod].size == op.size % 0x1_0000_0000 && now[nod].data == B.Chunks(op.bytes, op.size) && now[nod].dev == 0
  {
    hide Made, Cost, IsDir, IsDevice, NameOk, Affordable, V.Needs, V.Fits, B.Chunks, B.BlockCount, Names, FileMode;
    var op, s, s' := ops[j], run[j], run[j + 1];
    assert CanDo(s, op) && Did(s, s', op);
    FileModeLaw(op.perm);
    FileModeIs(op.perm);
    var n, mid :| Made(s.itab, mid, op.parent, n, op.name, FileMode(op.perm), 0) && s'.itab == WithData(mid, n, op.size, op.bytes);
    MadeFresh(s.itab, mid, op.parent, n, op.name, FileMode(op.perm), 0);
    PlainMade(s.itab, mid, op.parent, n, op.name, FileMode(op.perm), 0);
    nod := n;
    SameNames(mid[op.parent], s'.itab[op.parent]);
  }

  // A hard link: one name and one link more.
  lemma LinkStep(run: seq<Snap>, ops: seq<Op>, j: nat)
    requires IsRun(run, ops) && j + 1 < |run| && ops[j].Link?
    ensures var op, was, now := ops[j], run[j].itab, run[j + 1].itab;
      && op.nod < |was| == |now| && op.parent < |was|
      && now[op.nod].links == (was[op.nod].links + 1) % 0x1_0000
      && (forall d :: 0 <= d < |was| && d != op.nod && d != op.parent ==> now[d] == was[d])
      && (op.name !in Names(was[op.parent]) ==> Names(now[op.parent]) == Names(was[op.parent])[op.name := op.nod])
  {
    hide Entered, Cost, IsDir, NameOk, Affordable, Names, D.Fits, D.Need;
    var op, s, s' := ops[j], run[j], run[j + 1];
    assert CanDo(s, op) && Did(s, s', op);
    EntryMeans(s.itab, s'.itab, op.parent, op.nod, op.name);
  }

  // ---- init_fs ----

  lemma RootNames()
    ensures Ascii(".") && Ascii("..") && Names(RootNode()) == map[Codes(".") := 2, Codes("..") := 2]
    ensures RootNode().mode == 0x41ED && RootNode().links == 2 && RootNode().size == 1024 && RootNode().data == [] && RootNode().dev == 0
  {
    hide D.Flat, D.Table;
    Dots();
    var b := RootBlock();
    RootBlockLaw();
    D.FlatOne(b);
    D.One(b[0]);
    D.One(b[1]);
    assert b == [b[0]] + [b[1]];
    D.TableAppend([b[0]], [b[1]]);
    assert D.Name(b[0]) == DOT && D.Name(b[1]) == DOTDOT;
  }

  // New directory blocks are zero behind the names, and spare ones altogether.
  ghost predicate ZeroBehind(r: D.Record) {
    r.nameLen <= |r.space| && forall i :: r.nameLen <= i < |r.space| ==> r.space[i] == 0
  }

  lemma BlocksZeroed(nod: nat, name: D.Chars)
    requires |name| <= 1016
    ensures |RootBlock()| == 2 && ZeroBehind(RootBlock()[0]) && ZeroBehind(RootBlock()[1])
    ensures |SpareBlock()| == 1 && SpareBlock()[0].nameLen == 0 && ZeroBehind(SpareBlock()[0])
    ensures |D.WorkBlock(nod, name)| == 1 && ZeroBehind(D.WorkBlock(nod, name)[0])
  {
  }

  lemma LostFoundName()
    ensures Ascii("lost+found") && LOST_FOUND == Codes("lost+found")
  {
    assert Ascii("lost+found");
    assert LOST_FOUND == Codes("lost+found");
  }

  // lost+found gets as many blocks as asked for, but at most a quarter of all.
  lemma ReservationMeans(geo: Geometry, nbresrvd: nat)
    ensures Reservation(geo, nbresrvd) <= nbresrvd && 4 * Reservation(geo, nbresrvd) <= geo.nbblocks
    ensures Reservation(geo, nbresrvd) == nbresrvd || 4 * (Reservation(geo, nbresrvd) + 1) > geo.nbblocks
  {
  }

  lemma SpareNames(x: Node, y: Node, n: nat)
    requires D.DirOk(x.dir) && y.dir == x.dir + seq(n, _ => SpareBlock())
    ensures Names(y) == Names(x)
    decreases n
  {
    hide SpareBlock;
    if n == 0 {
      assert y.dir == x.dir;
    } else {
      var z := x.(dir := x.dir + seq(n - 1, _ => SpareBlock()));
      assert y.dir == z.dir + [SpareBlock()];
      SparesOk(x.dir, n - 1);
      SpareNames(x, z, n - 1);
      OneSpare(z.dir);
    }
  }

  lemma {:induction false} SparesOk(dir: seq<D.DirBlock>, n: nat)
    requires D.DirOk(dir)
    ensures D.DirOk(dir + seq(n, _ => SpareBlock()))
  {
    hide SpareBlock, D.Tiled;
    SpareTiled();
  }

  lemma OneSpare(dir: seq<D.DirBlock>)
    requires D.DirOk(dir)
    ensures D.AllOk(D.Flat(dir)) && D.AllOk(D.Flat(dir + [SpareBlock()])) && D.Table(D.Flat(dir + [SpareBlock()])) == D.Table(D.Flat(dir))
  {
    hide D.Flat, D.Table, D.Span;
    var b := SpareBlock();
    SpareLaw(dir, 0);
    D.FlatOk(dir);
    D.FlatAppend(dir, [b]);
    D.FlatOne(b);
    D.One(b[0]);
    D.TableAppend(D.Flat(dir), b);
    D.FlatOk(dir + [b]);
  }

  // The root directory is inode 2 and names itself twice; with blocks reserved it also names
  // lost+found, an empty directory of mode 0700 with their size.  Every other inode is blank.
  lemma InitialMeans(s: Snap, geo: Geometry, nbresrvd: nat) returns (nod: nat)
    requires Initial(s, geo, nbresrvd)
    ensures 2 < |s.itab| && s.itab[2].mode == 0x41ED && s.itab[2].data == [] && s.itab[2].dev == 0 && Ascii(".") && Ascii("..") && Ascii("lost+found")
    ensures nbresrvd == 0 ==> s.itab[2].links == 2 && Names(s.itab[2]) == map[Codes(".") := 2, Codes("..") := 2]
    ensures nbresrvd > 0 ==>
      && 11 <= nod < |s.itab| && s.itab[nod].mode == 0x41C0 && s.itab[2].links == 3 && s.itab[nod].links == 2
      && Names(s.itab[2]) == map[Codes(".") := 2, Codes("..") := 2, Codes("lost+found") := nod]
      && Names(s.itab[nod]) == map[Codes(".") := nod, Codes("..") := 2]
      && s.itab[nod].size == 1024 * Reservation(geo, nbresrvd) % 0x1_0000_0000
    ensures forall d :: 0 <= d < |s.itab| && d != 2 && (nbresrvd > 0 ==> d != nod) ==> s.itab[d] == Node(0, 0, 0, [], [], 0)
  {
    hide Made, Reservation, Reserved, ReserveCost, Names, RootNode, IsDir;
    RootNames();
    LostFoundName();
    var root := seq(geo.ipg * geo.nbgroups + 1, _ => Blank())[EXT2_ROOT_INO := RootNode()];
    nod := 0;
    if nbresrvd > 0 {
      var n, t :| LostFound(root, n, t) && s.itab == WithReserve(t, n, Reservation(geo, nbresrvd));
      nod := n;
      InitialDir(root, t, n, Reservation(geo, nbresrvd));
    }
  }

  lemma InitialDir(root: seq<Node>, t: seq<Node>, nod: nat, n: nat)
    requires 2 < |root| && root[2] == RootNode() && LostFound(root, nod, t)
    ensures var r := WithReserve(t, nod, n);
      && |r| == |root| && 11 <= nod < |root| && r[2].mode == 0x41ED && r[2].links == 3 && r[2].data == [] && r[2].dev == 0
      && r[nod].mode == 0x41C0 && r[nod].links == 2 && r[nod].size == 1024 * n % 0x1_0000_0000
      && Ascii(".") && Ascii("..") && Ascii("lost+found")
      && Names(r[2]) == map[Codes(".") := 2, Codes("..") := 2, Codes("lost+found") := nod]
      && Names(r[nod]) == map[Codes(".") := nod, Codes("..") := 2]
      && forall d :: 0 <= d < |root| && d != 2 && d != nod ==> r[d] == root[d]
  {
    hide Made, Names, IsDir, RootNode, SpareBlock;
    MadeFresh(root, t, 2, nod, LOST_FOUND, OrDir(0x1C0), 0);
    RootNames();
    LostFoundName();
    DirMade(root, t, 2, nod, LOST_FOUND, OrDir(0x1C0), 0) by { OwnerOnly(); }
    assert OrDir(0x1C0) == 0x41C0;
    var r := WithReserve(t, nod, n);
    SameNames(t[2], r[2]);
    assert Names(r[2]) == Names(t[2]);
    assert Codes("lost+found")[0] == 108 && Codes(".")[0] == 46 && Codes("..")[0] == 46;
    MadeDirOk(root, t, 2, nod, LOST_FOUND, OrDir(0x1C0), 0) by { OwnerOnly(); }
    SpareNames(t[nod], r[nod], if n > 0 then n - 1 else 0);
    LostFoundMode(t, root, nod);
  }

  lemma LostFoundMode(t: seq<Node>, root: seq<Node>, nod: nat)
    requires |t| == |root| && 2 < |t| && Made(root, t, 2, nod, LOST_FOUND, OrDir(0x1C0), 0)
    ensures nod != 2 ==> SameData(root[2], t[2])
  {
    hide Made, SameData;
    MadeMode(root, t, 2, nod, LOST_FOUND, OrDir(0x1C0), 0);
  }

  lemma MadeDirOk(itab: seq<Node>, itab': seq<Node>, parent: nat, nod: nat, name: D.Chars, mode: nat, dev: nat)
    requires Made(itab, itab', parent, nod, name, mode, dev) && IsDir(mode)
    ensures nod < |itab'| && D.DirOk(itab'[nod].dir)
  {
    hide Entered, IsDir;
    var t := itab[nod := Blank().(mode := mode)];
    var a, b :| Entered(t, a, parent, nod, name) && Entered(a, b, nod, nod, DOT) && Entered(b, itab', nod, parent, DOTDOT);
    EnteredOk(b, itab', nod, parent, DOTDOT);
  }

  lemma EnteredOk(itab: seq<Node>, itab': seq<Node>, dnod: nat, nod: nat, name: D.Chars)
    requires Entered(itab, itab', dnod, nod, name)
    ensures dnod < |itab'| && D.DirOk(itab'[dnod].dir)
  {
    hide D.Flat, D.Added, D.Fits, D.Need, D.WorkBlock, D.FirstFit, D.DirOk;
    var dir, at, grew :| EnteredBy(itab, itab', dnod, nod, name, dir, at, grew);
  }
}
