/**
 Directories of external/genext2fs/genext2fs.c: add2dir and find_dir (lines
 1247-1336).

 A directory block is the sequence of its records.  A record carries the bytes
 behind its 8-byte header, all of them: the name is at the front, the rest is
 whatever was there before.  `Words` lays the records out as the 256 words of a
 block, `Decode` reads them back.
*/
module Ext2Dir {
  import opened Basics
  import B = Ext2Bytes

  const HEADER := 8

  type Chars = seq<byte>

  datatype Record = Record(inode: nat, recLen: nat, nameLen: nat, space: Chars)

  type DirBlock = seq<Record>

  // sizeof(directory) + rndup(n, 4).
  function Need(n: nat): nat {
    HEADER + (n + 3) / 4 * 4
  }

  // The least multiple of four that holds an 8-byte header and the name.
  lemma NeedMeans(n: nat)
    ensures Need(n) % 4 == 0 && 8 + n <= Need(n) < 8 + n + 4
  {
  }

  // The record is aligned and has room for its name.
  ghost predicate RecOk(r: Record) {
    && r.recLen % 4 == 0 && HEADER + 4 <= r.recLen && |r.space| == r.recLen - HEADER
    && Need(r.nameLen) <= r.recLen && (r.inode != 0 ==> r.nameLen > 0)
  }

  function Name(r: Record): Chars
    requires RecOk(r)
  {
    r.space[..r.nameLen]
  }

  ghost predicate AllOk(s: seq<Record>) {
    forall i :: 0 <= i < |s| ==> RecOk(s[i])
  }

  // The bytes that records take.
  ghost function Span(s: seq<Record>): nat {
    if s == [] then 0 else s[0].recLen + Span(s[1..])
  }

  // The block is exactly tiled.
  ghost predicate Tiled(b: DirBlock) {
    AllOk(b) && Span(b) == BLOCKSIZE
  }

  lemma {:induction false} SpanAppend(a: seq<Record>, b: seq<Record>)
    ensures Span(a + b) == Span(a) + Span(b)
  {
    if a == [] {
      assert a + b == b;
    } else {
      assert (a + b)[1..] == a[1..] + b;
      SpanAppend(a[1..], b);
    }
  }

  // ---- The finite map a directory stands for ----

  // What find_dir looks names up in; of equal names the first counts.
  ghost function Table(s: seq<Record>): map<Chars, nat>
    requires AllOk(s)
  {
    if s == [] then map[]
    else if s[0].inode != 0 then Table(s[1..])[Name(s[0]) := s[0].inode]
    else Table(s[1..])
  }

  ghost function Flat(d: seq<DirBlock>): seq<Record> {
    if d == [] then [] else d[0] + Flat(d[1..])
  }

  ghost predicate DirOk(d: seq<DirBlock>) {
    forall i :: 0 <= i < |d| ==> Tiled(d[i])
  }

  lemma {:induction false} FlatOk(d: seq<DirBlock>)
    requires DirOk(d)
    ensures AllOk(Flat(d))
  {
    if d != [] {
      FlatOk(d[1..]);
      AllOkAppend(d[0], Flat(d[1..]));
    }
  }

  lemma AllOkAppend(a: seq<Record>, b: seq<Record>)
    ensures AllOk(a + b) <==> AllOk(a) && AllOk(b)
  {
    if AllOk(a + b) {
      assert forall i :: 0 <= i < |a| ==> a[i] == (a + b)[i];
      assert forall i :: 0 <= i < |b| ==> b[i] == (a + b)[|a| + i];
    }
  }

  lemma {:induction false} FlatAppend(a: seq<DirBlock>, b: seq<DirBlock>)
    ensures Flat(a + b) == Flat(a) + Flat(b)
  {
    if a == [] {
      assert a + b == b;
    } else {
      assert (a + b)[1..] == a[1..] + b;
      FlatAppend(a[1..], b);
    }
  }

  lemma {:induction false} TableAppend(a: seq<Record>, b: seq<Record>)
    requires AllOk(a) && AllOk(b)
    ensures AllOk(a + b) && Table(a + b) == Table(b) + Table(a)
  {
    AllOkAppend(a, b);
    if a == [] {
      assert a + b == b;
    } else {
      assert (a + b)[1..] == a[1..] + b && (a + b)[0] == a[0];
      TableAppend(a[1..], b);
    }
  }

  // The records that name inode `n`.
  ghost function Named(s: seq<Record>, n: nat): nat {
    if s == [] then 0 else Named(s[1..], n) + if s[0].inode == n then 1 else 0
  }

  lemma {:induction false} NamedAppend(a: seq<Record>, b: seq<Record>, n: nat)
    ensures Named(a + b, n) == Named(a, n) + Named(b, n)
  {
    if a == [] {
      assert a + b == b;
    } else {
      assert (a + b)[1..] == a[1..] + b;
      NamedAppend(a[1..], b, n);
    }
  }

  // ---- The new record ----

  // Into an unused record: the header is filled in and the name copied over what was there.
  ghost function Put(r: Record, nod: nat, name: Chars): Record
    requires |name| <= |r.space|
  {
    Record(nod, r.recLen, |name|, name + r.space[|name|..])
  }

  // Behind the name of a record: it is cut to the room it needs, and the rest becomes a record.
  ghost function Cut(r: Record): Record
    requires Need(r.nameLen) - HEADER <= |r.space|
  {
    Record(r.inode, Need(r.nameLen), r.nameLen, r.space[..Need(r.nameLen) - HEADER])
  }

  ghost function Rest(r: Record, nod: nat, name: Chars): Record
    requires Need(r.nameLen) + |name| <= |r.space| && Need(r.nameLen) <= r.recLen
  {
    Record(nod, r.recLen - Need(r.nameLen), |name|, name + r.space[Need(r.nameLen) + |name|..])
  }

  ghost predicate Reusable(r: Record, reclen: nat) {
    r.inode == 0 && r.recLen >= reclen
  }

  ghost predicate Splittable(r: Record, reclen: nat) {
    r.recLen >= Need(r.nameLen) + reclen
  }

  // What takes the place of `r`.
  ghost function Fill(r: Record, nod: nat, name: Chars): seq<Record>
    requires RecOk(r) && (Reusable(r, Need(|name|)) || Splittable(r, Need(|name|)))
  {
    if Reusable(r, Need(|name|)) then [Put(r, nod, name)] else [Cut(r), Rest(r, nod, name)]
  }

  // Adding the entry: tiling, the map and the counts.
  ghost predicate Added(s: seq<Record>, s': seq<Record>, nod: nat, name: Chars)
  {
    && AllOk(s) && AllOk(s')
    && (name !in Table(s) ==> Table(s') == Table(s)[name := nod])
    && forall n: nat :: n != 0 ==> Named(s', n) == Named(s, n) + if n == nod then 1 else 0
  }

  lemma One(r: Record)
    requires RecOk(r)
    ensures AllOk([r]) && Span([r]) == r.recLen
    ensures Table([r]) == if r.inode != 0 then map[Name(r) := r.inode] else map[]
    ensures forall n: nat :: Named([r], n) == if r.inode == n then 1 else 0
  {
  }

  lemma OnlyUsedSplit(r: Record, reclen: nat)
    requires RecOk(r) && Splittable(r, reclen) && !Reusable(r, reclen)
    ensures r.inode != 0
  {
  }

  lemma CutOk(r: Record, nod: nat, name: Chars)
    requires RecOk(r) && name != [] && Splittable(r, Need(|name|)) && r.inode != 0
    ensures Need(r.nameLen) - HEADER <= |r.space| && Need(r.nameLen) + |name| <= |r.space| && Need(r.nameLen) <= r.recLen
    ensures RecOk(Cut(r)) && Name(Cut(r)) == Name(r)
    ensures RecOk(Rest(r, nod, name)) && Name(Rest(r, nod, name)) == name
    ensures Cut(r).recLen + Rest(r, nod, name).recLen == r.recLen
  {
  }

  lemma FillLaw(r: Record, nod: nat, name: Chars)
    requires RecOk(r) && name != [] && nod != 0 && (Reusable(r, Need(|name|)) || Splittable(r, Need(|name|)))
    ensures Added([r], Fill(r, nod, name), nod, name) && Span(Fill(r, nod, name)) == Span([r])
  {
    hide Table, Named, Span;
    One(r);
    if Reusable(r, Need(|name|)) {
      assert Name(Put(r, nod, name)) == name;
      One(Put(r, nod, name));
    } else {
      SplitLaw(r, nod, name);
    }
  }

  lemma SplitLaw(r: Record, nod: nat, name: Chars)
    requires RecOk(r) && name != [] && nod != 0 && Splittable(r, Need(|name|)) && !Reusable(r, Need(|name|))
    ensures Added([r], Fill(r, nod, name), nod, name) && Span(Fill(r, nod, name)) == Span([r])
  {
    hide RecOk, Name, Table, Named, Span, Need;
    assert r.inode != 0 by { OnlyUsedSplit(r, Need(|name|)); }
    CutOk(r, nod, name);
    var x, y := Cut(r), Rest(r, nod, name);
    One(r);
    One(x);
    One(y);
    assert Fill(r, nod, name) == [x] + [y];
    SpanAppend([x], [y]);
    TableAppend([x], [y]);
    forall n: nat ensures Named([x] + [y], n) == Named([x], n) + Named([y], n) {
      NamedAppend([x], [y], n);
    }
  }

  // ---- add2dir, in one block ----

  // Record `i` of `b` made room.
  ghost predicate Made(b: DirBlock, b': DirBlock, i: nat, nod: nat, name: Chars) {
    && i < |b| && RecOk(b[i]) && (Reusable(b[i], Need(|name|)) || Splittable(b[i], Need(|name|)))
    && b' == b[..i] + Fill(b[i], nod, name) + b[i + 1..]
  }

  lemma AddedInside(a: seq<Record>, x: seq<Record>, x': seq<Record>, c: seq<Record>, nod: nat, name: Chars)
    requires AllOk(a) && AllOk(c) && Added(x, x', nod, name)
    ensures Added(a + x + c, a + x' + c, nod, name)
  {
    AddedCounts(a, x, x', c, nod, name);
    AddedTables(a, x, x', c, nod, name);
    AllOkAppend(a, x);
    AllOkAppend(a + x, c);
    AllOkAppend(a, x');
    AllOkAppend(a + x', c);
  }

  lemma AddedCounts(a: seq<Record>, x: seq<Record>, x': seq<Record>, c: seq<Record>, nod: nat, name: Chars)
    requires Added(x, x', nod, name)
    ensures forall n: nat :: n != 0 ==> Named(a + x' + c, n) == Named(a + x + c, n) + if n == nod then 1 else 0
  {
    forall n: nat | n != 0 ensures Named(a + x' + c, n) == Named(a + x + c, n) + if n == nod then 1 else 0 {
      NamedAppend(a + x, c, n);
      NamedAppend(a, x, n);
      NamedAppend(a + x', c, n);
      NamedAppend(a, x', n);
    }
  }

  lemma AddedTables(a: seq<Record>, x: seq<Record>, x': seq<Record>, c: seq<Record>, nod: nat, name: Chars)
    requires AllOk(a) && AllOk(c) && Added(x, x', nod, name)
    ensures AllOk(a + x + c) && AllOk(a + x' + c)
    ensures name !in Table(a + x + c) ==> Table(a + x' + c) == Table(a + x + c)[name := nod]
  {
    hide Table, RecOk;
    TableAppend(a, x);
    TableAppend(a + x, c);
    TableAppend(a, x');
    TableAppend(a + x', c);
  }

  lemma MadeLaw(b: DirBlock, b': DirBlock, i: nat, nod: nat, name: Chars)
    requires Tiled(b) && Made(b, b', i, nod, name) && name != [] && nod != 0
    ensures Tiled(b') && Added(b, b', nod, name)
  {
    hide Fill, RecOk, Table, Named;
    FillLaw(b[i], nod, name);
    var x := Fill(b[i], nod, name);
    assert b == b[..i] + [b[i]] + b[i + 1..];
    AddedInside(b[..i], [b[i]], x, b[i + 1..], nod, name);
    SpanAppend(b[..i] + [b[i]], b[i + 1..]);
    SpanAppend(b[..i], [b[i]]);
    SpanAppend(b[..i] + x, b[i + 1..]);
    SpanAppend(b[..i], x);
  }

  // In a tiled block the loop condition `d + sizeof(*d) < b + BLOCKSIZE` holds exactly at records.
  lemma AtRecord(b: DirBlock, i: nat)
    requires Tiled(b) && i <= |b|
    ensures Span(b[..i]) + HEADER < BLOCKSIZE <==> i < |b|
    ensures i < |b| ==> Span(b[..i + 1]) == Span(b[..i]) + b[i].recLen
  {
    assert b == b[..i] + b[i..];
    SpanAppend(b[..i], b[i..]);
    if i < |b| {
      assert b[..i + 1] == b[..i] + [b[i]];
      SpanAppend(b[..i], [b[i]]);
      assert Span([b[i]]) == b[i].recLen;
      assert b[i..][0] == b[i];
    } else {
      assert b[..i] == b;
    }
  }

  method AddToBlock(b: DirBlock, nod: nat, name: Chars, reclen: nat) returns (b': DirBlock, done: bool, ghost at: nat)
    requires Tiled(b) && reclen == Need(|name|)
    ensures done ==> Made(b, b', at, nod, name) && forall i :: 0 <= i < at ==> !Reusable(b[i], reclen) && !Splittable(b[i], reclen)
    ensures !done ==> b' == b
    ensures !done <==> forall i :: 0 <= i < |b| ==> !Reusable(b[i], reclen) && !Splittable(b[i], reclen)
  {
    hide Span;
    var off, i := 0, 0;
    assert b[..0] == [];
    SpanNone();
    b', done, at := b, false, 0;
    while off + HEADER < BLOCKSIZE
      invariant i <= |b| && off == Span(b[..i]) && !done && b' == b
      invariant forall k :: 0 <= k < i ==> !Reusable(b[k], reclen) && !Splittable(b[k], reclen)
      decreases |b| - i
    {
      AtRecord(b, i);
      var d := b[i];
      if d.inode == 0 && d.recLen >= reclen {
        return b[..i] + [d.(inode := nod, nameLen := |name|, space := name + d.space[|name|..])] + b[i + 1..], true, i;
      }
      var own := HEADER + (d.nameLen + 3) / 4 * 4;
      if d.recLen >= own + reclen {
        var first := d.(recLen := own, space := d.space[..own - HEADER]);
        var second := Record(nod, d.recLen - own, |name|, name + d.space[own + |name|..]);
        return b[..i] + [first, second] + b[i + 1..], true, i;
      }
      off := off + d.recLen;
      i := i + 1;
    }
    AtRecord(b, i);
  }

  lemma SpanNone()
    ensures Span([]) == 0
  {
  }

  // ---- find_dir ----

  lemma {:induction false} TableSkips(a: seq<Record>, name: Chars)
    requires AllOk(a) && forall i :: 0 <= i < |a| ==> a[i].inode == 0 || Name(a[i]) != name
    ensures name !in Table(a)
  {
    if a != [] {
      assert forall i :: 0 <= i < |a[1..]| ==> a[1..][i] == a[i + 1];
      TableSkips(a[1..], name);
    }
  }

  lemma TableFinds(s: seq<Record>, i: nat, name: Chars)
    requires AllOk(s) && i < |s| && s[i].inode != 0 && Name(s[i]) == name
    requires forall k :: 0 <= k < i ==> s[k].inode == 0 || Name(s[k]) != name
    ensures name in Table(s) && Table(s)[name] == s[i].inode
  {
    hide RecOk, Name;
    assert s == s[..i] + s[i..];
    AllOkAppend(s[..i], s[i..]);
    TableAppend(s[..i], s[i..]);
    TableSkips(s[..i], name);
    assert s[i..][0] == s[i];
  }

  // The loop over one block.
  method FindInBlock(b: DirBlock, name: Chars) returns (nod: nat)
    requires Tiled(b)
    ensures nod == if name in Table(b) then Table(b)[name] else 0
    ensures name in Table(b) ==> nod != 0
  {
    hide Span, Table, RecOk;
    var off, i := 0, 0;
    assert b[..0] == [];
    SpanNone();
    while off + HEADER < BLOCKSIZE
      invariant i <= |b| && off == Span(b[..i])
      invariant forall k :: 0 <= k < i ==> b[k].inode == 0 || Name(b[k]) != name
      decreases |b| - i
    {
      AtRecord(b, i);
      var d := b[i];
      if d.inode != 0 && |name| == d.nameLen && Name(d) == name {
        TableFinds(b, i, name);
        return d.inode;
      }
      NameLength(d);
      off := off + d.recLen;
      i := i + 1;
    }
    AtRecord(b, i);
    TableSkips(b, name);
    nod := 0;
  }

  lemma NameLength(r: Record)
    requires RecOk(r)
    ensures |Name(r)| == r.nameLen
  {
  }

  // find_dir over the blocks the walk returns.
  method FindDir(d: seq<DirBlock>, name: Chars) returns (nod: nat)
    requires DirOk(d)
    ensures AllOk(Flat(d)) && nod == if name in Table(Flat(d)) then Table(Flat(d))[name] else 0
  {
    hide Table, RecOk, Tiled;
    FlatOk(d);
    var i := 0;
    assert d[0..] == d;
    while i < |d|
      invariant i <= |d| && DirOk(d[i..]) && AllOk(Flat(d[i..]))
      invariant name in Table(Flat(d)) <==> name in Table(Flat(d[i..]))
      invariant name in Table(Flat(d)) ==> Table(Flat(d))[name] == Table(Flat(d[i..]))[name]
    {
      var rest := d[i..];
      assert rest[1..] == d[i + 1..] && DirOk(rest[1..]);
      FlatOk(rest[1..]);
      TiledOk(d[i]);
      TableAppend(rest[0], Flat(rest[1..]));
      nod := FindInBlock(d[i], name);
      if nod != 0 {
        return;
      }
      i := i + 1;
    }
    assert d[i..] == [];
    TableNone();
    nod := 0;
  }

  lemma TiledOk(b: DirBlock)
    requires Tiled(b)
    ensures AllOk(b)
  {
  }

  lemma TableNone()
    ensures AllOk([]) && Table([]) == map[]
  {
  }

  // ---- add2dir, over the whole directory ----

  // get_workblk: a zeroed block, with one record in it.
  ghost function WorkBlock(nod: nat, name: Chars): DirBlock
    requires |name| <= BLOCKSIZE - HEADER
  {
    [Record(nod, BLOCKSIZE, |name|, name + seq(BLOCKSIZE - HEADER - |name|, _ => 0))]
  }

  ghost predicate Fits(d: seq<DirBlock>, reclen: nat) {
    exists i, j :: 0 <= i < |d| && 0 <= j < |d[i]| && (Reusable(d[i][j], reclen) || Splittable(d[i][j], reclen))
  }

  lemma WorkBlockLaw(nod: nat, name: Chars)
    requires name != [] && nod != 0 && Need(|name|) <= BLOCKSIZE
    ensures Tiled(WorkBlock(nod, name)) && Added([], WorkBlock(nod, name), nod, name)
  {
    hide Table, Named, Span;
    var r := WorkBlock(nod, name)[0];
    assert Name(r) == name;
    One(r);
    TableNone();
    NamedNone();
    SpanNone();
  }

  lemma NamedNone()
    ensures forall n: nat :: Named([], n) == 0
  {
  }

  // What adding an entry makes of a directory: block `at` changes, or a block is added.
  ghost predicate Grew(d: seq<DirBlock>, d': seq<DirBlock>, at: nat, grew: bool, nod: nat, name: Chars) {
    && DirOk(d') && Added(Flat(d), Flat(d'), nod, name) && Need(|name|) <= BLOCKSIZE
    && (grew <==> !Fits(d, Need(|name|)))
    && (if grew then at == |d| && |name| <= BLOCKSIZE - HEADER && d' == d + [WorkBlock(nod, name)]
        else at < |d| && |d'| == |d| && (forall i :: 0 <= i < |d| && i != at ==> d'[i] == d[i]) && FirstFit(d, d'[at], at, nod, name))
  }

  ghost predicate NoRoom(b: DirBlock, n: nat, reclen: nat)
    requires n <= |b|
  {
    forall j :: 0 <= j < n ==> !Reusable(b[j], reclen) && !Splittable(b[j], reclen)
  }

  // No record before the one that is used has room.
  ghost predicate FirstFit(d: seq<DirBlock>, b: DirBlock, at: nat, nod: nat, name: Chars)
    requires at < |d|
  {
    && (forall k :: 0 <= k < at ==> NoRoom(d[k], |d[k]|, Need(|name|)))
    && exists i :: Made(d[at], b, i, nod, name) && NoRoom(d[at], i, Need(|name|))
  }

  // The entry goes into the first record that has room, or into a new block.
  method AddEntry(d: seq<DirBlock>, nod: nat, name: Chars) returns (d': seq<DirBlock>, at: nat, grew: bool)
    requires DirOk(d) && name != [] && nod != 0 && Need(|name|) <= BLOCKSIZE
    ensures Grew(d, d', at, grew, nod, name)
  {
    hide Tiled, Added, Reusable, Splittable, RecOk, Need, WorkBlock, Flat;
    var reclen := Need(|name|);
    var i := 0;
    while i < |d|
      invariant i <= |d|
      invariant forall k, j :: 0 <= k < i && 0 <= j < |d[k]| ==> !Reusable(d[k][j], reclen) && !Splittable(d[k][j], reclen)
    {
      var b, done;
      ghost var at;
      b, done, at := AddToBlock(d[i], nod, name, reclen);
      if done {
        MadeLaw(d[i], b, at, nod, name);
        Nested(d, i, b, nod, name);
        assert FirstFit(d, b, i, nod, name);
        return d[..i] + [b] + d[i + 1..], i, false;
      }
      i := i + 1;
    }
    RoomInBlock(|name|);
    WorkBlockLaw(nod, name);
    Extended(d, WorkBlock(nod, name), nod, name);
    WorkBlockIs(nod, name);
    return d + [[Record(nod, BLOCKSIZE, |name|, name + seq(BLOCKSIZE - HEADER - |name|, _ => 0))]], |d|, true;
  }

  lemma WorkBlockIs(nod: nat, name: Chars)
    requires |name| <= BLOCKSIZE - HEADER
    ensures WorkBlock(nod, name) == [Record(nod, BLOCKSIZE, |name|, name + seq(BLOCKSIZE - HEADER - |name|, _ => 0))]
  {
  }

  // Behind "." there is room for "..".
  lemma DotLeavesRoom(nod: nat)
    ensures Fits([WorkBlock(nod, [46])], Need(2))
  {
    var d := [WorkBlock(nod, [46])];
    assert Splittable(d[0][0], Need(2));
  }

  lemma RoomInBlock(n: nat)
    requires Need(n) <= BLOCKSIZE
    ensures n <= BLOCKSIZE - HEADER
  {
  }

  lemma FlatOne(b: DirBlock)
    ensures Flat([b]) == b
  {
    assert Flat([b]) == b + Flat([b][1..]);
  }

  lemma FlatThree(a: seq<DirBlock>, b: DirBlock, c: seq<DirBlock>)
    ensures Flat(a + [b] + c) == Flat(a) + b + Flat(c)
  {
    FlatAppend(a + [b], c);
    FlatAppend(a, [b]);
    FlatOne(b);
  }

  lemma Nested(d: seq<DirBlock>, i: nat, b: DirBlock, nod: nat, name: Chars)
    requires DirOk(d) && i < |d| && Tiled(b) && Added(d[i], b, nod, name)
    ensures var d' := d[..i] + [b] + d[i + 1..]; DirOk(d') && |d'| == |d| && Added(Flat(d), Flat(d'), nod, name)
  {
    hide Tiled, Added, Flat;
    assert d == d[..i] + [d[i]] + d[i + 1..];
    FlatThree(d[..i], d[i], d[i + 1..]);
    FlatThree(d[..i], b, d[i + 1..]);
    FlatOk(d[..i]);
    FlatOk(d[i + 1..]);
    AddedInside(Flat(d[..i]), d[i], b, Flat(d[i + 1..]), nod, name);
  }

  lemma Extended(d: seq<DirBlock>, b: DirBlock, nod: nat, name: Chars)
    requires DirOk(d) && Tiled(b) && Added([], b, nod, name)
    ensures DirOk(d + [b]) && Added(Flat(d), Flat(d + [b]), nod, name)
  {
    hide Tiled, Added, Flat;
    FlatAppend(d, [b]);
    FlatOne(b);
    FlatOk(d);
    AddedInside(Flat(d), [], b, [], nod, name);
    assert Flat(d) + [] + [] == Flat(d) && Flat(d) + b + [] == Flat(d) + b;
  }

  // ---- Records as words ----

  // Four bytes to a word, the lowest first.
  function Word(a: nat, b: nat, c: nat, d: nat): nat {
    a + 256 * b + 0x1_0000 * c + 0x100_0000 * d
  }

  function Pack(s: Chars): (r: seq<nat>)
    requires |s| % 4 == 0
    ensures |r| == |s| / 4
  {
    if s == [] then []
    else [Word(s[0], s[1], s[2], s[3])] + Pack(s[4..])
  }

  function Split(v: nat): (r: Chars)
    ensures |r| == 4
  {
    [v % 256, v / 256 % 256, v / 0x1_0000 % 256, v / 0x100_0000 % 256]
  }

  function Unpack(w: seq<nat>): (r: Chars)
    ensures |r| == 4 * |w|
  {
    if w == [] then [] else Split(w[0]) + Unpack(w[1..])
  }

  lemma SplitOf(a: byte, b: byte, c: byte, d: byte)
    ensures Split(Word(a, b, c, d)) == [a, b, c, d]
  {
    var v := Word(a, b, c, d);
    assert v / 256 == b + 256 * c + 0x1_0000 * d;
    assert v / 0x1_0000 == c + 256 * d;
    assert v / 0x100_0000 == d;
  }

  lemma {:induction false} UnpackPack(s: Chars)
    requires |s| % 4 == 0
    ensures Unpack(Pack(s)) == s
  {
    hide Split, Word;
    if s != [] {
      SplitOf(s[0], s[1], s[2], s[3]);
      UnpackPack(s[4..]);
      assert Pack(s)[1..] == Pack(s[4..]);
      assert s == [s[0], s[1], s[2], s[3]] + s[4..];
    }
  }

  // d_inode; d_rec_len and d_name_len; the name and what follows it.
  function RecWords(r: Record): (w: seq<nat>)
    requires RecOk(r)
    ensures |w| == r.recLen / 4
  {
    [r.inode, r.recLen + 0x1_0000 * r.nameLen] + Pack(r.space)
  }

  lemma {:induction false} PackAt(s: Chars, k: nat)
    requires |s| % 4 == 0 && k < |s| / 4
    ensures Pack(s)[k] == Word(s[4 * k], s[4 * k + 1], s[4 * k + 2], s[4 * k + 3])
    decreases k
  {
    hide Word;
    if k > 0 { PackAt(s[4..], k - 1); }
  }

  // A record on the disk: four bytes of d_inode, two each of d_rec_len and d_name_len, all with the low
  // byte first, and the name.
  lemma RecordBytes(r: Record, i: nat)
    requires RecOk(r) && r.recLen < 0x1_0000 && r.nameLen < 0x1_0000 && i < r.recLen
    ensures B.ByteOf(RecWords(r)[i / 4], i % 4) ==
      if i < 4 then B.ByteOf(r.inode, i) else if i < 6 then B.ByteOf(r.recLen, i - 4) else if i < 8 then B.ByteOf(r.nameLen, i - 6) else r.space[i - 8]
  {
    hide Pack;
    if i >= 8 {
      var k := i / 4 - 2;
      hide B.ByteOf;
      PackAt(r.space, k);
      B.FourBytes(r.space[4 * k], r.space[4 * k + 1], r.space[4 * k + 2], r.space[4 * k + 3]);
      assert i % 4 == 0 || i % 4 == 1 || i % 4 == 2 || i % 4 == 3;
    } else if i >= 4 {
      LensBytes(r.recLen, r.nameLen, i - 4);
    }
  }

  lemma LensBytes(recLen: nat, nameLen: nat, i: nat)
    requires recLen < 0x1_0000 && nameLen < 0x1_0000 && i < 4
    ensures B.ByteOf(recLen + 0x1_0000 * nameLen, i) == if i < 2 then B.ByteOf(recLen, i) else B.ByteOf(nameLen, i - 2)
  {
    hide B.ByteOf;
    var a, b, c, d := recLen % 256, recLen / 256, nameLen % 256, nameLen / 256;
    assert recLen + 0x1_0000 * nameLen == a + 256 * b + 0x1_0000 * c + 0x100_0000 * d;
    B.FourBytes(a, b, c, d);
    B.FourBytes(a, b, 0, 0);
    B.FourBytes(c, d, 0, 0);
  }

  function Words(s: seq<Record>): (w: seq<nat>)
    requires AllOk(s)
    ensures 4 * |w| == Span(s)
  {
    if s == [] then [] else RecWords(s[0]) + Words(s[1..])
  }

  function Decode(w: seq<nat>): DirBlock {
    if |w| < 2 then []
    else
      var recLen := w[1] % 0x1_0000;
      if recLen < HEADER || recLen / 4 > |w| then []
      else [Record(w[0], recLen, w[1] / 0x1_0000, Unpack(w[2..recLen / 4]))] + Decode(w[recLen / 4..])
  }

  lemma LensOf(recLen: nat, nameLen: nat)
    requires recLen < 0x1_0000
    ensures (recLen + 0x1_0000 * nameLen) % 0x1_0000 == recLen && (recLen + 0x1_0000 * nameLen) / 0x1_0000 == nameLen
  {
  }

  lemma DecodeStep(r: Record, w: seq<nat>)
    requires RecOk(r) && r.recLen < 0x1_0000
    ensures Decode(RecWords(r) + w) == [r] + Decode(w)
  {
    hide Unpack;
    var v := RecWords(r) + w;
    var n := r.recLen / 4;
    LensOf(r.recLen, r.nameLen);
    assert v[0] == r.inode && v[1] == r.recLen + 0x1_0000 * r.nameLen;
    assert v[2..n] == Pack(r.space) && v[n..] == w;
    UnpackPack(r.space);
  }

  // A block is read back as it was laid out.
  lemma {:induction false} DecodeWords(s: seq<Record>)
    requires AllOk(s) && Span(s) < 0x1_0000
    ensures Decode(Words(s)) == s
  {
    hide RecOk, RecWords, Decode;
    if s != [] {
      DecodeWords(s[1..]);
      DecodeStep(s[0], Words(s[1..]));
      assert s == [s[0]] + s[1..];
    } else {
      DecodeNone();
    }
  }

  lemma DecodeNone()
    ensures Decode([]) == []
  {
  }
}
