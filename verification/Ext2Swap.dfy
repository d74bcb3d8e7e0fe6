/**
 The change of byte order in external/genext2fs/genext2fs.c: swap_goodfs, which
 turns a filesystem in memory into the foreign byte order before it is written,
 and swap_badfs, which turns it back (lines 1796-1955, called by dump_fs, lines
 2415-2426).

 Blocks are sequences of 256 words.  The two directions visit index blocks and
 directory records in different orders, because either may only follow pointers
 and record lengths that are in native order at that moment.
*/
module Ext2Swap {
  import opened Arith
  import opened Ext2Alloc
  import opened Ext2Paths
  import opened Ext2Volume
  import D = Ext2Dir
  import L = Ext2Links

  // ---- Words ----

  // Halves are below 2^16 and words below 2^32; larger numbers, which no image holds, stay.
  function Swab16(v: nat): nat {
    if v < 0x1_0000 then v % 256 * 256 + v / 256 else v
  }

  function Swab32(v: nat): nat {
    if v < 0x1_0000_0000 then
      v / 0x100_0000 + v / 0x1_0000 % 256 * 256 + v / 256 % 256 * 0x1_0000 + v % 256 * 0x100_0000
    else v
  }

  lemma Swab16Twice(v: nat)
    ensures Swab16(Swab16(v)) == v
  {
  }

  lemma Swab16Bytes(a: nat, b: nat)
    requires a < 256 && b < 256
    ensures Swab16(a + 256 * b) == b + 256 * a
  {
    assert (a + 256 * b) / 256 == b;
  }

  lemma Swab32Bytes(a: nat, b: nat, c: nat, d: nat)
    requires a < 256 && b < 256 && c < 256 && d < 256
    ensures Swab32(a + 256 * b + 0x1_0000 * c + 0x100_0000 * d) == d + 256 * c + 0x1_0000 * b + 0x100_0000 * a
  {
    var v := a + 256 * b + 0x1_0000 * c + 0x100_0000 * d;
    assert v / 256 == b + 256 * c + 0x1_0000 * d;
    assert v / 0x1_0000 == c + 256 * d;
    assert v / 0x100_0000 == d;
  }

  lemma Bytes(v: nat) returns (a: nat, b: nat, c: nat, d: nat)
    requires v < 0x1_0000_0000
    ensures a < 256 && b < 256 && c < 256 && d < 256
    ensures v == a + 256 * b + 0x1_0000 * c + 0x100_0000 * d
  {
    a, b, c, d := v % 256, v / 256 % 256, v / 256 / 256 % 256, v / 256 / 256 / 256;
  }

  lemma Swab32Twice(v: nat)
    ensures Swab32(Swab32(v)) == v
  {
    if v < 0x1_0000_0000 {
      Swab32TwiceWord(v);
    }
  }

  lemma Swab32TwiceWord(v: nat)
    requires v < 0x1_0000_0000
    ensures Swab32(Swab32(v)) == v
  {
    hide Swab32;
    var a, b, c, d := Bytes(v);
    Swab32Bytes(a, b, c, d);
    Swab32Bytes(d, c, b, a);
  }

  function SwapWords(b: seq<nat>): (r: seq<nat>)
    ensures |r| == |b|
  {
    seq(|b|, i requires 0 <= i < |b| => Swab32(b[i]))
  }

  lemma SwapWordsTwice(b: seq<nat>)
    ensures SwapWords(SwapWords(b)) == b
  {
    hide Swab32;
    forall i | 0 <= i < |b| ensures SwapWords(SwapWords(b))[i] == b[i] {
      Swab32Twice(b[i]);
    }
  }

  lemma SwapZero()
    ensures SwapWords(ZeroBlock()) == ZeroBlock()
  {
  }

  function SwapHalves(b: seq<nat>): (r: seq<nat>)
    ensures |r| == |b|
  {
    seq(|b|, i requires 0 <= i < |b| => Swab16(b[i]))
  }

  lemma SwapHalvesTwice(b: seq<nat>)
    ensures SwapHalves(SwapHalves(b)) == b
  {
    hide Swab16;
    forall i | 0 <= i < |b| ensures SwapHalves(SwapHalves(b))[i] == b[i] {
      Swab16Twice(b[i]);
    }
  }

  // swap_block.
  method SwapBlock(b: seq<nat>) returns (r: seq<nat>)
    ensures r == SwapWords(b)
  {
    hide Swab32;
    r := b;
    var i := 0;
    while i < |b|
      invariant i <= |b| == |r|
      invariant forall k :: 0 <= k < i ==> r[k] == Swab32(b[k])
      invariant forall k :: i <= k < |b| ==> r[k] == b[k]
    {
      r := r[i := Swab32(r[i])];
      i := i + 1;
    }
  }

  // ---- Directory records ----

  // The second word of a record: d_rec_len and d_name_len.
  function RecLen(w: nat): nat {
    w % 0x1_0000
  }

  function SwapLens(w: nat): nat {
    Swab16(w % 0x1_0000) + 0x1_0000 * Swab16(w / 0x1_0000)
  }

  lemma Halves(lo: nat, hi: nat)
    requires lo < 0x1_0000
    ensures RecLen(lo + 0x1_0000 * hi) == lo && SwapLens(lo + 0x1_0000 * hi) == Swab16(lo) + 0x1_0000 * Swab16(hi)
  {
    assert (lo + 0x1_0000 * hi) / 0x1_0000 == hi;
  }

  lemma Swab16Below(v: nat)
    requires v < 0x1_0000
    ensures Swab16(v) < 0x1_0000
  {
  }

  lemma SwapLensTwice(w: nat)
    ensures SwapLens(SwapLens(w)) == w && Swab16(RecLen(SwapLens(w))) == RecLen(w)
  {
    hide Swab16, SwapLens, RecLen;
    var lo, hi := w % 0x1_0000, w / 0x1_0000;
    Halves(lo, hi);
    Swab16Below(lo);
    Halves(Swab16(lo), Swab16(hi));
    Swab16Twice(lo);
    Swab16Twice(hi);
  }

  // swap_dir on the record at word `o`.
  function SwapDir(b: seq<nat>, o: nat): (r: seq<nat>)
    requires o + 1 < |b|
    ensures |r| == |b|
  {
    b[o := Swab32(b[o])][o + 1 := SwapLens(b[o + 1])]
  }

  lemma SwapDirTwice(b: seq<nat>, o: nat)
    requires o + 1 < |b|
    ensures SwapDir(SwapDir(b, o), o) == b
  {
    hide Swab32, SwapLens;
    Swab32Twice(b[o]);
    SwapLensTwice(b[o + 1]);
  }

  // From word `o` on the block is cut into records of whole words.
  ghost predicate Tiled(b: seq<nat>, o: nat)
    decreases |b| - o
  {
    && |b| == WORDS && o <= WORDS
    && (4 * o + 8 < 1024 ==>
          && RecLen(b[o + 1]) >= 8 && RecLen(b[o + 1]) % 4 == 0
          && Tiled(b, o + RecLen(b[o + 1]) / 4))
  }

  lemma {:induction false} TiledLocal(b: seq<nat>, b': seq<nat>, o: nat)
    requires Tiled(b, o) && |b'| == WORDS && forall k :: o <= k < WORDS ==> b'[k] == b[k]
    ensures Tiled(b', o)
    decreases WORDS - o
  {
    hide RecLen;
    if 4 * o + 8 < 1024 { TiledLocal(b, b', o + RecLen(b[o + 1]) / 4); }
  }

  // The record behind the one at `o`.
  function NextRec(b: seq<nat>, o: nat): nat
    requires o + 1 < |b|
  {
    o + RecLen(b[o + 1]) / 4
  }

  lemma TiledStep(b: seq<nat>, o: nat)
    requires Tiled(b, o) && 4 * o + 8 < 1024
    ensures |b| == WORDS && o + 2 <= NextRec(b, o) <= WORDS && Tiled(b, NextRec(b, o)) && Tiled(SwapDir(b, o), NextRec(b, o))
  {
    TiledLocal(b, SwapDir(b, o), NextRec(b, o));
  }

  // The block in foreign order from word `o` on.
  ghost function Foreign(b: seq<nat>, o: nat): (r: seq<nat>)
    requires Tiled(b, o)
    ensures |r| == |b|
    decreases WORDS - o
  {
    if 4 * o + 8 < 1024 then
      TiledStep(b, o);
      Foreign(SwapDir(b, o), NextRec(b, o))
    else b
  }

  // The loop of swap_goodfs over one block: a record is swapped, then its length is swapped once
  // more to find the next one.
  method SwapGoodDir(b: seq<nat>) returns (r: seq<nat>)
    requires Tiled(b, 0)
    ensures r == Foreign(b, 0)
  {
    hide RecLen, SwapLens, Swab16, Swab32;
    r := b;
    var o := 0;
    while 4 * o + 8 < 1024
      invariant Tiled(r, o) && Foreign(r, o) == Foreign(b, 0)
      decreases WORDS - o
    {
      TiledStep(r, o);
      SwapLensTwice(r[o + 1]);
      r := SwapDir(r, o);
      o := o + Swab16(RecLen(r[o + 1])) / 4;
    }
  }

  // What happens to later records does not touch the one at `o`.
  lemma {:induction false} ForeignKeeps(b: seq<nat>, o: nat, p: nat)
    requires o + 2 <= p && Tiled(b, p)
    ensures Tiled(SwapDir(b, o), p) && Foreign(SwapDir(b, o), p) == SwapDir(Foreign(b, p), o)
    ensures Foreign(b, p)[..p] == b[..p]
    decreases WORDS - p
  {
    hide RecLen, SwapLens, Swab32;
    TiledLocal(b, SwapDir(b, o), p);
    if 4 * p + 8 < 1024 {
      TiledStep(b, p);
      TiledStep(SwapDir(b, o), p);
      SwapDirCommutes(b, o, p);
      ForeignKeeps(SwapDir(b, p), o, NextRec(b, p));
      var q := NextRec(b, p);
      assert Foreign(b, p)[..p] == Foreign(b, p)[..q][..p] == SwapDir(b, p)[..q][..p] == b[..p];
    }
  }

  lemma SwapDirCommutes(b: seq<nat>, o: nat, p: nat)
    requires o + 2 <= p && p + 1 < |b|
    ensures SwapDir(SwapDir(b, o), p) == SwapDir(SwapDir(b, p), o)
    ensures NextRec(SwapDir(b, o), p) == NextRec(b, p)
  {
    hide RecLen, SwapLens, Swab32;
  }

  // The loop of swap_badfs over one block: a swapped record has its length in native order.
  method SwapBadDir(b: seq<nat>, ghost was: seq<nat>) returns (r: seq<nat>)
    requires Tiled(was, 0) && b == Foreign(was, 0)
    ensures r == was
  {
    hide RecLen, SwapLens, Swab16, Swab32;
    r := b;
    var o := 0;
    while 4 * o + 8 < 1024
      invariant Tiled(was, o) && r == Foreign(was, o)
      decreases WORDS - o
    {
      TiledStep(was, o);
      Unwind(was, o);
      r := SwapDir(r, o);
      ForeignKeeps(was, o, NextRec(was, o));
      o := o + RecLen(r[o + 1]) / 4;
    }
  }

  lemma Unwind(b: seq<nat>, o: nat)
    requires Tiled(b, o) && 4 * o + 8 < 1024
    ensures |b| == WORDS && o + 2 <= NextRec(b, o) && Tiled(b, NextRec(b, o))
    ensures SwapDir(Foreign(b, o), o) == Foreign(b, NextRec(b, o))
    ensures Foreign(b, NextRec(b, o))[o + 1] == b[o + 1]
  {
    hide RecLen, SwapLens, Swab32, SwapDir;
    TiledStep(b, o);
    var p := NextRec(b, o);
    ForeignKeeps(b, o, p);
    SwapDirTwice(Foreign(b, p), o);
    assert Foreign(b, p)[o + 1] == Foreign(b, p)[..p][o + 1] == b[..p][o + 1];
  }

  // ---- Index blocks ----

  /** The image in native order: `count` data blocks per inode, the block bitmaps, and the blocks
      that hold directory records. */
  datatype Plan = Plan(img: Image, count: map<nat, nat>, gs: seq<Group>, bpg: nat, dirs: set<nat>)

  ghost predicate Plain(c: Plan) {
    && Tidy(c.img, c.count, c.gs, c.bpg)
    && 0 in c.img.mem && c.img.mem[0] == ZeroBlock()
    && (forall n, p :: n in c.count && c.count[n] > IND_START && IsIndex(p) && p !in UsedSet(c.count[n]) ==> Get(c.img, n, p) == 0)
    && (forall n, p :: Owned(OwnOf(c.count), n, p) && IsIndex(p) ==> Get(c.img, n, p) !in c.dirs)
    && (forall b :: b in c.dirs ==> b in c.img.mem && b != 0 && Tiled(c.img.mem[b], 0))
  }

  ghost function Turn(c: Plan, b: nat): Block
    requires Plain(c) && b in c.img.mem
  {
    if b in c.dirs then Foreign(c.img.mem[b], 0) else SwapWords(c.img.mem[b])
  }

  // Exactly the blocks in one of `s` and `x` are in foreign order.
  ghost predicate Turned(c: Plan, s: set<nat>, x: set<nat>, mem: map<nat, Block>) {
    && Plain(c) && mem.Keys == c.img.mem.Keys && 0 !in s && 0 !in x
    && forall b :: b in c.img.mem ==> mem[b] == if (b in s) != (b in x) then Turn(c, b) else c.img.mem[b]
  }

  // The blocks behind those of the slots `v` that are in use.
  ghost function Behind(c: Plan, n: nat, v: set<Path>): set<nat>
    requires n in c.count
  {
    set p | p in v && p in UsedSet(c.count[n]) :: Get(c.img, n, p)
  }

  lemma UsedIndex(c: Plan, n: nat, p: Path)
    requires Plain(c) && n in c.count && IsIndex(p)
    ensures Get(c.img, n, p) in c.img.mem
    ensures p in UsedSet(c.count[n]) ==> Get(c.img, n, p) != 0 && Get(c.img, n, p) !in c.dirs
    ensures p !in UsedSet(c.count[n]) && c.count[n] > IND_START ==> Get(c.img, n, p) == 0
    ensures |c.img.mem[Get(c.img, n, p)]| == WORDS
    requires c.count[n] > IND_START
  {
    if p in UsedSet(c.count[n]) {
      assert Owned(OwnOf(c.count), n, p);
      assert SlotOk(c.img, OwnOf(c.count), c.gs, c.bpg, n, p);
    }
  }

  // Different slots in use point to different blocks.
  lemma UsedApart(c: Plan, n: nat, p: Path, n': nat, q: Path)
    requires Plain(c) && n in c.count && n' in c.count && p in UsedSet(c.count[n]) && q in UsedSet(c.count[n'])
    requires Get(c.img, n, p) == Get(c.img, n', q)
    ensures n == n' && p == q
  {
    assert Owned(OwnOf(c.count), n, p) && Owned(OwnOf(c.count), n', q);
  }

  lemma BehindStep(c: Plan, n: nat, v: set<Path>, p: Path)
    requires Plain(c) && n in c.count && c.count[n] > IND_START && IsIndex(p) && p !in v
    ensures var x := Get(c.img, n, p);
      if p in UsedSet(c.count[n]) then x != 0 && x !in Behind(c, n, v) && Behind(c, n, v + {p}) == Behind(c, n, v) + {x}
      else x == 0 && Behind(c, n, v + {p}) == Behind(c, n, v)
  {
    hide Plain, Get, UsedSet, IsIndex;
    UsedIndex(c, n, p);
    var x := Get(c.img, n, p);
    if p in UsedSet(c.count[n]) {
      if x in Behind(c, n, v) {
        var q :| q in v && q in UsedSet(c.count[n]) && Get(c.img, n, q) == x;
        UsedApart(c, n, p, n, q);
      }
    }
  }

  function SwapAt(mem: map<nat, Block>, b: nat): map<nat, Block>
    requires b in mem
  {
    mem[b := SwapWords(mem[b])]
  }

  lemma SwapTurns(c: Plan, s: set<nat>, x: set<nat>, mem: map<nat, Block>, b: nat)
    requires Turned(c, s, x, mem) && b in c.img.mem && b !in c.dirs && b !in x
    ensures b != 0 ==> Turned(c, s, x + {b}, SwapAt(mem, b))
    ensures b == 0 ==> SwapAt(mem, b) == mem
  {
    hide Plain, SwapWords;
    SwapWordsTwice(c.img.mem[b]);
    if b == 0 { ZeroIs(c); SwapZero(); }
  }

  lemma ZeroIs(c: Plan)
    requires Plain(c)
    ensures 0 in c.img.mem && c.img.mem[0] == ZeroBlock() && 0 !in c.dirs
  {
  }

  // Swapping the block behind index slot `p`, in either direction.
  lemma Visit(c: Plan, s: set<nat>, n: nat, v: set<Path>, mem: map<nat, Block>, p: Path)
    requires Plain(c) && n in c.count && c.count[n] > IND_START && IsIndex(p) && p !in v
    requires Turned(c, s, Behind(c, n, v), mem)
    ensures Get(c.img, n, p) in mem && Turned(c, s, Behind(c, n, v + {p}), SwapAt(mem, Get(c.img, n, p)))
  {
    hide Plain, Get, UsedSet, IsIndex, Behind, Turn;
    UsedIndex(c, n, p);
    BehindStep(c, n, v, p);
    if p !in UsedSet(c.count[n]) { ZeroIs(c); }
    SwapTurns(c, s, Behind(c, n, v), mem, Get(c.img, n, p));
  }

  // A slot that is not in use can be passed over.
  lemma Skip(c: Plan, s: set<nat>, n: nat, v: set<Path>, mem: map<nat, Block>, p: Path)
    requires Plain(c) && n in c.count && c.count[n] > IND_START && IsIndex(p) && p !in v
    requires FirstUse(p) >= c.count[n]
    requires Turned(c, s, Behind(c, n, v), mem)
    ensures Turned(c, s, Behind(c, n, v + {p}), mem)
  {
    hide Plain, Get, UsedSet, IsIndex, Behind, Turn, FirstUse, Turned;
    CountBound(c, n);
    if p in UsedSet(c.count[n]) { UsedBelow(c.count[n], p); }
    BehindStep(c, n, v, p);
  }

  lemma CountBound(c: Plan, n: nat)
    requires Plain(c) && n in c.count
    ensures n in c.img.inode && c.count[n] <= MAX_DATA && c.img.inode[n].blocks == 2 * Total(c.count[n])
    ensures |c.img.inode[n].block| == 15
  {
  }

  // The block behind `up` is in native order when it is in both sets or in neither.
  ghost predicate Readable(c: Plan, s: set<nat>, n: nat, v: set<Path>, up: Path)
    requires n in c.count
  {
    up in UsedSet(c.count[n]) ==> (Get(c.img, n, up) in s <==> up in v)
  }

  lemma ReadKid(c: Plan, s: set<nat>, n: nat, v: set<Path>, mem: map<nat, Block>, up: Path, k: nat)
    requires Plain(c) && n in c.count && c.count[n] > IND_START && IsIndex(up) && k < WORDS
    requires Turned(c, s, Behind(c, n, v), mem) && Readable(c, s, n, v, up)
    ensures Get(c.img, n, up) in mem && |mem[Get(c.img, n, up)]| == WORDS
    ensures mem[Get(c.img, n, up)][k] == Get(c.img, n, Sub(up, k))
  {
    hide Plain, UsedSet, IsIndex;
    UsedIndex(c, n, up);
    var x := Get(c.img, n, up);
    if up in UsedSet(c.count[n]) {
      if x in Behind(c, n, v) && up !in v {
        var q :| q in v && q in UsedSet(c.count[n]) && Get(c.img, n, q) == x;
        UsedApart(c, n, up, n, q);
      }
    }
  }

  // The first `k` slots of the block behind `up`.
  ghost function Kids(up: Path, k: nat): set<Path> {
    set i: nat | i < k :: Sub(up, i)
  }

  lemma KidsAre(up: Path, k: nat, p: Path)
    ensures p in Kids(up, k) <==> p.Sub? && p.up == up && p.i < k
  {
  }

  // `v` and the first `i` slots, and one more.
  lemma KidsStep(v: set<Path>, up: Path, i: nat)
    requires i < WORDS && forall p :: p in Kids(up, WORDS) ==> p !in v
    ensures Sub(up, i) !in v + Kids(up, i) && v + Kids(up, i + 1) == v + Kids(up, i) + {Sub(up, i)}
  {
    assert Sub(up, i) in Kids(up, WORDS);
  }

  // The slots of an index block whose words point to index blocks.
  ghost predicate HasKids(up: Path) {
    up == Dind() || (up.Sub? && up.up == Tind() && up.i < WORDS)
  }

  lemma KidFacts(up: Path, k: nat)
    requires HasKids(up) && k < WORDS
    ensures IsIndex(up) && IsIndex(Sub(up, k)) && FirstUse(Sub(up, k)) == FirstUse(Sub(up, 0)) + 256 * k
  {
  }

  lemma TotalAtLeast(c: nat)
    ensures Total(c) >= c
  {
  }

  // The loop over a double indirect block: `if(nblk > base + 256 * i) swap_block(...)`.
  method SwapKids(mem0: map<nat, Block>, b: nat, nblk: nat, base: nat,
                  ghost c: Plan, ghost s: set<nat>, ghost n: nat, ghost v: set<Path>, ghost up: Path)
    returns (mem: map<nat, Block>)
    requires Plain(c) && n in c.count && c.count[n] > IND_START && nblk == Total(c.count[n]) && HasKids(up)
    requires b == Get(c.img, n, up) && base == FirstUse(Sub(up, 0))
    requires Turned(c, s, Behind(c, n, v), mem0) && Readable(c, s, n, v, up)
    requires forall p :: p in Kids(up, WORDS) ==> p !in v
    ensures Turned(c, s, Behind(c, n, v + Kids(up, WORDS)), mem)
  {
    hide Plain, Turned, Behind, Kids, HasKids, Readable, FirstUse, Total, Get, SwapAt, UsedSet;
    mem := mem0;
    var i := 0;
    KidsStart(v, up);
    while i < 256
      invariant i <= 256 && Turned(c, s, Behind(c, n, v + Kids(up, i)), mem)
    {
      KidStep(c, s, n, v, mem, up, i);
      TotalAtLeast(c.count[n]);
      if nblk > base + 256 * i {
        mem := SwapAt(mem, mem[b][i]);
      }
      i := i + 1;
    }
  }

  lemma KidsStart(v: set<Path>, up: Path)
    ensures v + Kids(up, 0) == v
  {
  }

  // One more word of an index block: it names block `Get(Sub(up, i))`, to swap or to pass over.
  lemma KidStep(c: Plan, s: set<nat>, n: nat, v: set<Path>, mem: map<nat, Block>, up: Path, i: nat)
    requires Plain(c) && n in c.count && c.count[n] > IND_START && HasKids(up) && i < WORDS
    requires Readable(c, s, n, v, up)
    requires forall p :: p in Kids(up, WORDS) ==> p !in v
    requires Turned(c, s, Behind(c, n, v + Kids(up, i)), mem)
    ensures Get(c.img, n, up) in mem && i < |mem[Get(c.img, n, up)]| && mem[Get(c.img, n, up)][i] in mem
    ensures Turned(c, s, Behind(c, n, v + Kids(up, i + 1)), SwapAt(mem, mem[Get(c.img, n, up)][i]))
    ensures c.count[n] <= FirstUse(Sub(up, 0)) + 256 * i ==> Turned(c, s, Behind(c, n, v + Kids(up, i + 1)), mem)
  {
    hide Plain, Get, UsedSet, IsIndex, Behind, FirstUse, Turned, Kids, HasKids, SwapAt;
    var v' := v + Kids(up, i);
    KidFacts(up, i);
    KidsStep(v, up, i);
    KidsAre(up, i, up);
    ReadKid(c, s, n, v', mem, up, i);
    TurnedKeys(c, s, Behind(c, n, v'), mem);
    Visit(c, s, n, v', mem, Sub(up, i));
    if c.count[n] <= FirstUse(Sub(up, 0)) + 256 * i { Skip(c, s, n, v', mem, Sub(up, i)); }
  }

  lemma TurnedKeys(c: Plan, s: set<nat>, x: set<nat>, mem: map<nat, Block>)
    requires Turned(c, s, x, mem)
    ensures mem.Keys == c.img.mem.Keys
  {
  }

  // The rest of an index block can be passed over.
  lemma {:induction false} SkipKids(c: Plan, s: set<nat>, n: nat, v: set<Path>, mem: map<nat, Block>, up: Path, i: nat)
    requires Plain(c) && n in c.count && c.count[n] > IND_START && HasKids(up) && i <= WORDS
    requires forall p :: p in Kids(up, WORDS) ==> p !in v
    requires Turned(c, s, Behind(c, n, v + Kids(up, i)), mem)
    requires c.count[n] <= FirstUse(Sub(up, 0)) + 256 * i
    ensures Turned(c, s, Behind(c, n, v + Kids(up, WORDS)), mem)
    decreases WORDS - i
  {
    hide Plain, Get, UsedSet, IsIndex, Behind, FirstUse, Turned, Kids, HasKids, SwapAt;
    if i < WORDS {
      var v' := v + Kids(up, i);
      KidFacts(up, i);
      KidsStep(v, up, i);
      Skip(c, s, n, v', mem, Sub(up, i));
      SkipKids(c, s, n, v, mem, up, i + 1);
    }
  }

  // The inner loop under a triple indirect block: it stops at the first word that is not needed.
  method SwapKidsUntil(mem0: map<nat, Block>, b: nat, nblk: nat, base: nat,
                       ghost c: Plan, ghost s: set<nat>, ghost n: nat, ghost v: set<Path>, ghost up: Path)
    returns (mem: map<nat, Block>, done: bool)
    requires Plain(c) && n in c.count && c.count[n] > IND_START && nblk == Total(c.count[n]) && HasKids(up)
    requires b == Get(c.img, n, up) && base == FirstUse(Sub(up, 0))
    requires Turned(c, s, Behind(c, n, v), mem0) && Readable(c, s, n, v, up)
    requires forall p :: p in Kids(up, WORDS) ==> p !in v
    ensures Turned(c, s, Behind(c, n, v + Kids(up, WORDS)), mem)
    ensures done ==> nblk <= base + 256 * 255
  {
    hide Plain, Turned, Behind, Kids, HasKids, Readable, FirstUse, Total, Get, SwapAt, UsedSet;
    mem, done := mem0, false;
    var j := 0;
    KidsStart(v, up);
    while j < 256
      invariant j <= 256 && !done && Turned(c, s, Behind(c, n, v + Kids(up, j)), mem)
    {
      KidStep(c, s, n, v, mem, up, j);
      TotalAtLeast(c.count[n]);
      if nblk > base + 256 * j {
        mem := SwapAt(mem, mem[b][j]);
      } else {
        done := true;
        SkipKids(c, s, n, v, mem, up, j);
        return;
      }
      j := j + 1;
    }
  }

  // The slots under the first `i` words of a triple indirect block.
  ghost function Branches(i: nat): set<Path> {
    (set a: nat | a < i :: Sub(Tind(), a)) + (set a: nat, j: nat | a < i && j < WORDS :: Sub(Sub(Tind(), a), j))
  }

  lemma BranchesAre(i: nat, p: Path)
    ensures p in Branches(i) <==> p.Sub? && if p.up == Tind() then p.i < i else p.up.Sub? && p.up.up == Tind() && p.up.i < i && p.i < WORDS
  {
    if p in set a: nat, j: nat | a < i && j < WORDS :: Sub(Sub(Tind(), a), j) {
      assert p.Sub?;
    }
  }

  // Whether the index blocks of `n` are in foreign order to begin with.
  ghost predicate Uniform(c: Plan, s: set<nat>, n: nat, inside: bool)
    requires n in c.count
  {
    forall p :: IsIndex(p) && p in UsedSet(c.count[n]) ==> (Get(c.img, n, p) in s <==> inside)
  }

  ghost function IndexOf(c: Plan, n: nat): set<nat>
    requires n in c.count
  {
    set p | p in UsedSet(c.count[n]) && IsIndex(p) :: Get(c.img, n, p)
  }

  lemma AllVisited(c: Plan, n: nat, v: set<Path>)
    requires Plain(c) && n in c.count
    requires forall p :: p in v ==> IsIndex(p)
    requires forall p :: IsIndex(p) && p !in v ==> FirstUse(p) >= c.count[n]
    ensures Behind(c, n, v) == IndexOf(c, n)
  {
    hide Plain, Get, UsedSet, IsIndex, FirstUse;
    CountBound(c, n);
    forall p | p in UsedSet(c.count[n]) && IsIndex(p) ensures p in v {
      UsedBelow(c.count[n], p);
    }
  }

  lemma BranchFacts(i: nat)
    requires i < WORDS
    ensures HasKids(Sub(Tind(), i)) && IsIndex(Tind()) && IsIndex(Sub(Tind(), i))
    ensures FirstUse(Sub(Sub(Tind(), i), 0)) == FirstUse(Sub(Tind(), i)) == TIND_START + 65536 * i
  {
  }

  lemma {:induction false} SkipBranches(c: Plan, s: set<nat>, n: nat, v: set<Path>, mem: map<nat, Block>, i: nat)
    requires Plain(c) && n in c.count && c.count[n] > IND_START && i <= WORDS
    requires forall p :: p in Branches(WORDS) ==> p !in v
    requires Turned(c, s, Behind(c, n, v + Branches(i)), mem)
    requires c.count[n] <= TIND_START + 65536 * i
    ensures Turned(c, s, Behind(c, n, v + Branches(WORDS)), mem)
    decreases WORDS - i
  {
    hide Plain, Get, UsedSet, IsIndex, Behind, FirstUse, Turned, Kids, HasKids, SwapAt, Branches;
    if i < WORDS {
      BranchFacts(i);
      var up, v' := Sub(Tind(), i), v + Branches(i);
      BranchApart(v, i);
      KidsStart(v', up);
      SkipKids(c, s, n, v', mem, up, 0);
      Skip(c, s, n, v' + Kids(up, WORDS), mem, up);
      BranchJoin(v, i);
      SkipBranches(c, s, n, v, mem, i + 1);
    }
  }

  lemma BranchApart(v: set<Path>, i: nat)
    requires i < WORDS && forall p :: p in Branches(WORDS) ==> p !in v
    ensures forall p :: p in Kids(Sub(Tind(), i), WORDS) ==> p !in v + Branches(i)
    ensures Sub(Tind(), i) !in v + Branches(i) + Kids(Sub(Tind(), i), WORDS)
    ensures forall p :: p in Kids(Sub(Tind(), i), WORDS) ==> p !in v + Branches(i) + {Sub(Tind(), i)}
  {
    hide Kids, Branches;
    var up := Sub(Tind(), i);
    forall p | p in Kids(up, WORDS) ensures p !in v + Branches(i) && p != up {
      KidsAre(up, WORDS, p);
      BranchesAre(i, p);
      BranchesAre(WORDS, p);
    }
    BranchesAre(i, up);
    BranchesAre(WORDS, up);
  }

  lemma BranchJoin(v: set<Path>, i: nat)
    ensures v + Branches(i + 1) == v + Branches(i) + Kids(Sub(Tind(), i), WORDS) + {Sub(Tind(), i)}
    ensures v + Branches(i + 1) == v + Branches(i) + {Sub(Tind(), i)} + Kids(Sub(Tind(), i), WORDS)
  {
    hide Kids, Branches;
    var up := Sub(Tind(), i);
    forall p ensures p in Branches(i + 1) <==> p in Branches(i) || p in Kids(up, WORDS) || p == up {
      KidsAre(up, WORDS, p);
      BranchesAre(i, p);
      BranchesAre(i + 1, p);
    }
  }

  // The triple indirect loops; `first` tells whether a block is swapped before or after those
  // its words name.
  method SwapBranches(mem0: map<nat, Block>, b: nat, nblk: nat, first: bool,
                      ghost c: Plan, ghost s: set<nat>, ghost n: nat, ghost v: set<Path>)
    returns (mem: map<nat, Block>)
    requires Plain(c) && n in c.count && c.count[n] > IND_START && nblk == Total(c.count[n])
    requires b == Get(c.img, n, Tind()) && Uniform(c, s, n, first) && (Tind() in v <==> first)
    requires Turned(c, s, Behind(c, n, v), mem0)
    requires forall p :: p in Branches(WORDS) ==> p !in v
    ensures Turned(c, s, Behind(c, n, v + Branches(WORDS)), mem)
  {
    hide Plain, Turned, Behind, Kids, HasKids, Readable, FirstUse, Total, Get, SwapAt, UsedSet, Branches, Uniform, IsIndex;
    mem := mem0;
    var i, done := 0, false;
    NoBranches(v);
    while i < 256 && !done
      invariant i <= 256 && Turned(c, s, Behind(c, n, v + Branches(i)), mem)
      invariant done ==> nblk <= TIND_START + 65536 * i
    {
      ghost var up, v' := Sub(Tind(), i), v + Branches(i);
      BranchRead(c, s, n, v, mem, i, first);
      BranchFacts(i);
      BranchApart(v, i);
      BranchJoin(v, i);
      var b2 := mem[b][i];
      if first {
        Visit(c, s, n, v', mem, up);
        mem := SwapAt(mem, b2);
        v' := v' + {up};
      }
      UniformReads(c, s, n, v', up, first);
      mem, done := SwapKidsUntil(mem, b2, nblk, 65804 + 65536 * i, c, s, n, v', up);
      if !first {
        Visit(c, s, n, v' + Kids(up, WORDS), mem, up);
        mem := SwapAt(mem, b2);
      }
      i := i + 1;
    }
    TotalAtLeast(c.count[n]);
    if done { SkipBranches(c, s, n, v, mem, i); }
  }

  lemma NoBranches(v: set<Path>)
    ensures v + Branches(0) == v
  {
  }

  lemma UniformReads(c: Plan, s: set<nat>, n: nat, v: set<Path>, up: Path, inside: bool)
    requires n in c.count && IsIndex(up) && Uniform(c, s, n, inside) && (up in v <==> inside)
    ensures Readable(c, s, n, v, up)
  {
  }

  lemma BranchRead(c: Plan, s: set<nat>, n: nat, v: set<Path>, mem: map<nat, Block>, i: nat, first: bool)
    requires Plain(c) && n in c.count && c.count[n] > IND_START && i < WORDS
    requires Uniform(c, s, n, first) && (Tind() in v <==> first)
    requires Turned(c, s, Behind(c, n, v + Branches(i)), mem)
    ensures var b := Get(c.img, n, Tind()); b in mem && i < |mem[b]| && mem[b][i] == Get(c.img, n, Sub(Tind(), i))
  {
    hide Plain, Get, UsedSet, Behind, FirstUse, Turned, Branches, Readable;
    BranchesAre(i, Tind());
    UniformReads(c, s, n, v + Branches(i), Tind(), first);
    ReadKid(c, s, n, v + Branches(i), mem, Tind(), i);
  }

  // The index slots that can be in use up to the end of each indirection.
  ghost function Single(): set<Path> { {Ind()} }
  ghost function Double(): set<Path> { {Ind()} + Kids(Dind(), WORDS) + {Dind()} }
  ghost function Triple(): set<Path> { Double() + Branches(WORDS) + {Tind()} }

  lemma SingleCovers(p: Path)
    ensures p in Single() ==> IsIndex(p)
    ensures IsIndex(p) && p !in Single() ==> FirstUse(p) >= DIND_START
    ensures p in Kids(Dind(), WORDS) ==> p !in Single() && p !in Single() + {Dind()}
    ensures Dind() !in Single() + Kids(Dind(), WORDS)
    ensures Single() + {Dind()} + Kids(Dind(), WORDS) == Double()
  {
    hide Kids;
    KidsAre(Dind(), WORDS, p);
    KidsAre(Dind(), WORDS, Dind());
  }

  lemma DoubleCovers(p: Path)
    ensures p in Double() ==> IsIndex(p)
    ensures IsIndex(p) && p !in Double() ==> FirstUse(p) >= TIND_START
    ensures p in Branches(WORDS) ==> p !in Double() && p !in Double() + {Tind()}
    ensures Tind() !in Double() + Branches(WORDS)
    ensures Double() + {Tind()} + Branches(WORDS) == Triple()
  {
    hide Kids, Branches;
    KidsAre(Dind(), WORDS, p);
    KidsAre(Dind(), WORDS, Tind());
    BranchesAre(WORDS, p);
    BranchesAre(WORDS, Tind());
  }

  lemma TripleCovers(p: Path)
    ensures p in Triple() <==> IsIndex(p)
  {
    hide Kids, Branches;
    KidsAre(Dind(), WORDS, p);
    BranchesAre(WORDS, p);
  }

  lemma Thresholds(c: nat)
    ensures Total(c) <= 12 <==> c <= IND_START
    ensures Total(c) <= 269 <==> c <= DIND_START
    ensures Total(c) <= 65804 ==> c <= TIND_START
  {
  }

  // With so few blocks that nothing else can be in use, the visit is over.
  lemma DoneNone(c: Plan, n: nat)
    requires Plain(c) && n in c.count && c.count[n] <= IND_START
    ensures IndexOf(c, n) == {}
  {
    hide Plain, Get, UsedSet;
    CountBound(c, n);
    forall p | p in UsedSet(c.count[n]) ensures !IsIndex(p) {
      UsedBelow(c.count[n], p);
    }
  }

  lemma DoneSingle(c: Plan, n: nat)
    requires Plain(c) && n in c.count && c.count[n] <= DIND_START
    ensures Behind(c, n, Single()) == IndexOf(c, n)
  {
    hide *;
    forall p ensures p in Single() ==> IsIndex(p)
      ensures IsIndex(p) && p !in Single() ==> FirstUse(p) >= c.count[n]
    {
      SingleCovers(p);
    }
    AllVisited(c, n, Single());
  }

  lemma DoneDouble(c: Plan, n: nat)
    requires Plain(c) && n in c.count && c.count[n] <= TIND_START
    ensures Behind(c, n, Double()) == IndexOf(c, n)
  {
    hide *;
    forall p ensures p in Double() ==> IsIndex(p)
      ensures IsIndex(p) && p !in Double() ==> FirstUse(p) >= c.count[n]
    {
      DoubleCovers(p);
    }
    AllVisited(c, n, Double());
  }

  lemma DoneTriple(c: Plan, n: nat)
    requires Plain(c) && n in c.count
    ensures Behind(c, n, Triple()) == IndexOf(c, n)
  {
    hide *;
    forall p ensures p in Triple() <==> IsIndex(p) {
      TripleCovers(p);
    }
    AllVisited(c, n, Triple());
  }

  lemma Tables(c: Plan, n: nat)
    requires Plain(c) && n in c.count
    ensures n in c.img.inode && |c.img.inode[n].block| == 15
    ensures var blk := c.img.inode[n].block;
      Get(c.img, n, Ind()) == blk[12] && Get(c.img, n, Dind()) == blk[13] && Get(c.img, n, Tind()) == blk[14]
    ensures c.count[n] > DIND_START ==> Get(c.img, n, Dind()) != 0
    ensures IsIndex(Ind()) && IsIndex(Dind()) && IsIndex(Tind()) && HasKids(Dind())
    ensures FirstUse(Sub(Dind(), 0)) == DIND_START
    ensures Behind(c, n, {}) == {} && {} + {Ind()} == Single()
  {
    hide Plain, UsedSet;
    CountBound(c, n);
    if c.count[n] > DIND_START {
      IndexUsed(c.count[n], Dind());
      UsedIndex(c, n, Dind());
    }
  }

  // swap_goodblocks on the index blocks: a block is swapped after the blocks its words name.
  method SwapGoodIndex(mem0: map<nat, Block>, blk: seq<nat>, nblk: nat, ghost c: Plan, ghost s: set<nat>, ghost n: nat)
    returns (mem: map<nat, Block>)
    requires Plain(c) && n in c.count && nblk == Total(c.count[n]) && |blk| == 15
    requires c.count[n] > IND_START ==> n in c.img.inode && blk == c.img.inode[n].block
    requires Turned(c, s, {}, mem0) && Uniform(c, s, n, false)
    ensures Turned(c, s, IndexOf(c, n), mem)
  {
    hide Plain, Turned, Behind, Kids, HasKids, Readable, FirstUse, Total, Get, SwapAt, UsedSet, Branches, Uniform, IsIndex,
         Single, Double, Triple, IndexOf, Ind, Dind, Tind;
    mem := mem0;
    Thresholds(c.count[n]);
    if nblk <= EXT2_IND_BLOCK {
      DoneNone(c, n);
      return;
    }
    Tables(c, n);
    SinglePhase();
    Visit(c, s, n, {}, mem, Ind());
    mem := SwapAt(mem, blk[EXT2_IND_BLOCK]);
    if nblk <= EXT2_DIND_BLOCK + 256 {
      DoneSingle(c, n);
      return;
    }
    assert blk[EXT2_DIND_BLOCK] != 0;
    UniformReads(c, s, n, Single(), Dind(), false);
    mem := SwapKids(mem, blk[EXT2_DIND_BLOCK], nblk, EXT2_IND_BLOCK + 256, c, s, n, Single(), Dind());
    Visit(c, s, n, Single() + Kids(Dind(), WORDS), mem, Dind());
    mem := SwapAt(mem, blk[EXT2_DIND_BLOCK]);
    if nblk <= EXT2_IND_BLOCK + 256 + 256 * 256 {
      DoneDouble(c, n);
      return;
    }
    DoublePhase();
    mem := SwapBranches(mem, blk[EXT2_TIND_BLOCK], nblk, false, c, s, n, Double());
    Visit(c, s, n, Double() + Branches(WORDS), mem, Tind());
    mem := SwapAt(mem, blk[EXT2_TIND_BLOCK]);
    DoneTriple(c, n);
  }

  // swap_badblocks on the index blocks: a block is swapped before its words are followed.
  method SwapBadIndex(mem0: map<nat, Block>, blk: seq<nat>, nblk: nat, ghost c: Plan, ghost s: set<nat>, ghost n: nat)
    returns (mem: map<nat, Block>)
    requires Plain(c) && n in c.count && nblk == Total(c.count[n]) && |blk| == 15
    requires c.count[n] > IND_START ==> n in c.img.inode && blk == c.img.inode[n].block
    requires Turned(c, s, {}, mem0) && Uniform(c, s, n, true)
    ensures Turned(c, s, IndexOf(c, n), mem)
  {
    hide Plain, Turned, Behind, Kids, HasKids, Readable, FirstUse, Total, Get, SwapAt, UsedSet, Branches, Uniform, IsIndex,
         Single, Double, Triple, IndexOf, Ind, Dind, Tind;
    mem := mem0;
    Thresholds(c.count[n]);
    if nblk <= EXT2_IND_BLOCK {
      DoneNone(c, n);
      return;
    }
    Tables(c, n);
    SinglePhase();
    Visit(c, s, n, {}, mem, Ind());
    mem := SwapAt(mem, blk[EXT2_IND_BLOCK]);
    if nblk <= EXT2_DIND_BLOCK + 256 {
      DoneSingle(c, n);
      return;
    }
    assert blk[EXT2_DIND_BLOCK] != 0;
    Visit(c, s, n, Single(), mem, Dind());
    mem := SwapAt(mem, blk[EXT2_DIND_BLOCK]);
    UniformReads(c, s, n, Single() + {Dind()}, Dind(), true);
    mem := SwapKids(mem, blk[EXT2_DIND_BLOCK], nblk, EXT2_IND_BLOCK + 256, c, s, n, Single() + {Dind()}, Dind());
    if nblk <= EXT2_IND_BLOCK + 256 + 256 * 256 {
      DoneDouble(c, n);
      return;
    }
    DoublePhase();
    Visit(c, s, n, Double(), mem, Tind());
    mem := SwapAt(mem, blk[EXT2_TIND_BLOCK]);
    mem := SwapBranches(mem, blk[EXT2_TIND_BLOCK], nblk, true, c, s, n, Double() + {Tind()});
    DoneTriple(c, n);
  }

  lemma SinglePhase()
    ensures forall p :: p in Kids(Dind(), WORDS) ==> p !in Single() && p !in Single() + {Dind()}
    ensures Dind() !in Single() + Kids(Dind(), WORDS) && Dind() !in Single()
    ensures Single() + {Dind()} + Kids(Dind(), WORDS) == Double() == Single() + Kids(Dind(), WORDS) + {Dind()}
  {
    hide Kids;
    forall p ensures p in Kids(Dind(), WORDS) ==> p !in Single() && p !in Single() + {Dind()} {
      SingleCovers(p);
    }
    SingleCovers(Ind());
  }

  lemma DoublePhase()
    ensures forall p :: p in Branches(WORDS) ==> p !in Double() && p !in Double() + {Tind()}
    ensures Tind() !in Double() + Branches(WORDS) && Tind() !in Double()
    ensures Double() + {Tind()} + Branches(WORDS) == Triple() == Double() + Branches(WORDS) + {Tind()}
  {
    hide Kids, Branches, Double;
    forall p ensures p in Branches(WORDS) ==> p !in Double() && p !in Double() + {Tind()} {
      DoubleCovers(p);
    }
    DoubleCovers(Ind());
  }

  // ---- Directory blocks ----

  ghost function DataBlock(c: Plan, n: nat, k: nat): nat {
    Get(c.img, n, LeafAt(k))
  }

  // The first `k` data blocks of an inode.
  ghost function DataOf(c: Plan, n: nat, k: nat): set<nat> {
    set j: nat | j < k :: DataBlock(c, n, j)
  }

  // The inode's data blocks hold directory records; they are all in foreign order, or none is.
  ghost predicate DirUniform(c: Plan, s: set<nat>, n: nat, inside: bool)
    requires n in c.count
  {
    forall k: nat :: k < c.count[n] ==> DataBlock(c, n, k) in c.dirs && (DataBlock(c, n, k) in s <==> inside)
  }

  lemma DataUsed(c: Plan, n: nat, k: nat)
    requires Plain(c) && n in c.count && k < c.count[n]
    ensures LeafAt(k) in UsedSet(c.count[n]) && !IsIndex(LeafAt(k))
    ensures DataBlock(c, n, k) != 0 && DataBlock(c, n, k) in c.img.mem && 0 < c.bpg && BlockUsed(c.gs, c.bpg, DataBlock(c, n, k))
  {
    hide Sound, LeafAt, IsIndex, UsedSet, Get, BlockUsed;
    TidyParts(c.img, c.count, c.gs, c.bpg);
    LeafPlaced(c.img, c.count, c.gs, c.bpg, n, k);
    LeafUsed(c.count[n], k);
  }

  lemma DataApart(c: Plan, n: nat, k: nat)
    requires Plain(c) && n in c.count && k < c.count[n]
    ensures DataBlock(c, n, k) !in DataOf(c, n, k) && DataOf(c, n, k + 1) == DataOf(c, n, k) + {DataBlock(c, n, k)}
    ensures forall p :: p in UsedSet(c.count[n]) && IsIndex(p) ==> Get(c.img, n, p) != DataBlock(c, n, k)
  {
    hide Plain, Get, UsedSet, IsIndex, LeafAt;
    CountBound(c, n);
    DataUsed(c, n, k);
    forall j: nat | j < k ensures DataBlock(c, n, j) != DataBlock(c, n, k) {
      DataUsed(c, n, j);
      if DataBlock(c, n, j) == DataBlock(c, n, k) {
        UsedApart(c, n, LeafAt(j), n, LeafAt(k));
        LeafFirstUse(j);
        LeafFirstUse(k);
      }
    }
    forall p | p in UsedSet(c.count[n]) && IsIndex(p) ensures Get(c.img, n, p) != DataBlock(c, n, k) {
      if Get(c.img, n, p) == DataBlock(c, n, k) { UsedApart(c, n, p, n, LeafAt(k)); }
    }
  }

  lemma IndexNotData(c: Plan, n: nat, p: Path, k: nat)
    requires Plain(c) && n in c.count && k <= c.count[n] && p in UsedSet(c.count[n]) && IsIndex(p)
    ensures Get(c.img, n, p) !in DataOf(c, n, k)
  {
    hide Plain, Get, UsedSet, IsIndex, DataBlock;
    forall j: nat | j < k ensures Get(c.img, n, p) != DataBlock(c, n, j) {
      DataApart(c, n, j);
    }
  }

  lemma UsedParent(c: Plan, n: nat, p: Path)
    requires Plain(c) && n in c.count && p in UsedSet(c.count[n]) && p.Sub?
    ensures p.up in UsedSet(c.count[n]) && IsIndex(p.up) && Get(c.img, n, p.up) in c.img.mem
  {
    hide IsIndex, UsedSet;
    assert Owned(OwnOf(c.count), n, p);
    assert SlotOk(c.img, OwnOf(c.count), c.gs, c.bpg, n, p);
    assert SlotOk(c.img, OwnOf(c.count), c.gs, c.bpg, n, p.up);
  }

  // Pointers are followed correctly while the inode and its index blocks are in native order.
  lemma {:induction false} GetNative(c: Plan, s: set<nat>, n: nat, k: nat, img: Image, p: Path)
    requires Plain(c) && n in c.count && k <= c.count[n] && p in UsedSet(c.count[n])
    requires n in c.img.inode && n in img.inode && img.inode[n] == c.img.inode[n]
    requires Turned(c, s, DataOf(c, n, k), img.mem) && Uniform(c, s, n, false)
    ensures Get(img, n, p) == Get(c.img, n, p)
    decreases p
  {
    hide Plain, UsedSet, IsIndex, DataOf;
    if p.Sub? {
      UsedParent(c, n, p);
      GetNative(c, s, n, k, img, p.up);
      IndexNotData(c, n, p.up, k);
    }
  }

  lemma WalkNative(c: Plan, s: set<nat>, n: nat, k: nat, img: Image, w: Walker)
    requires Plain(c) && n in c.count && k <= c.count[n]
    requires n in c.img.inode && n in img.inode && img.inode[n] == c.img.inode[n]
    requires Turned(c, s, DataOf(c, n, k), img.mem) && Uniform(c, s, n, false)
    ensures Walkable(img, c.gs, c.bpg, n, c.count[n])
    ensures k < c.count[n] ==> DataBlocks(img, n, c.count[n])[k] == DataBlock(c, n, k)
  {
    hide Plain, UsedSet, IsIndex, DataOf, Turned, Uniform, LeafAt, Get, BlockUsed, Total;
    CountBound(c, n);
    TidyParts(c.img, c.count, c.gs, c.bpg) by { PlainTidy(c); }
    forall j: nat | j < c.count[n] ensures Get(img, n, LeafAt(j)) == DataBlock(c, n, j) != 0 && BlockUsed(c.gs, c.bpg, DataBlock(c, n, j)) {
      DataUsed(c, n, j);
      GetNative(c, s, n, k, img, LeafAt(j));
    }
    if k < c.count[n] { DataBlockAt(img, n, c.count[n], k); }
  }

  lemma PlainTidy(c: Plan)
    requires Plain(c)
    ensures Tidy(c.img, c.count, c.gs, c.bpg)
  {
  }

  lemma DirTurns(c: Plan, s: set<nat>, x: set<nat>, mem: map<nat, Block>, b: nat, r: Block)
    requires Turned(c, s, x, mem) && b in c.dirs && b !in x
    requires r == if b in s then c.img.mem[b] else Foreign(c.img.mem[b], 0)
    ensures Turned(c, s, x + {b}, mem[b := r])
  {
    hide Foreign, Tiled;
  }

  lemma DirBlock(c: Plan, s: set<nat>, x: set<nat>, mem: map<nat, Block>, b: nat)
    requires Turned(c, s, x, mem) && b in c.dirs && b !in x
    ensures b in mem && b in c.img.mem && Tiled(c.img.mem[b], 0)
    ensures mem[b] == if b in s then Foreign(c.img.mem[b], 0) else c.img.mem[b]
  {
    hide Foreign, Tiled;
  }

  // The walk over a directory's blocks, with either loop over the records of a block.
  method SwapDirs(inode: map<nat, Inode>, mem0: map<nat, Block>, gs: seq<Group>, bpg: nat, n: nat, w: Walker, good: bool,
                  ghost c: Plan, ghost s: set<nat>)
    returns (mem: map<nat, Block>)
    requires Plain(c) && n in c.count && n in c.img.inode && n in inode && inode[n] == c.img.inode[n] && gs == c.gs && bpg == c.bpg && Fresh(w)
    requires Turned(c, s, {}, mem0) && Uniform(c, s, n, false) && DirUniform(c, s, n, !good)
    ensures Turned(c, s, DataOf(c, n, c.count[n]), mem)
  {
    hide Plain, Turned, UsedSet, IsIndex, Uniform, DirUniform, DataOf, DataBlock, Walkable, DataBlocks, Foreign, Tiled, Pos, Fresh;
    mem := mem0;
    var bw, r := w, End;
    ghost var k := 0;
    NoData(c, n, w);
    while true
      invariant k <= c.count[n] && bw == Pos(w, k) && Turned(c, s, DataOf(c, n, k), mem)
      decreases c.count[n] - k
    {
      ghost var img := Image(inode, mem);
      WalkNative(c, s, n, k, img, w);
      r, bw := WalkBw(Image(inode, mem), gs, bpg, n, bw, w, k, c.count[n], DataBlocks(img, n, c.count[n]));
      if !r.Found? {
        break;
      }
      DirStep(c, s, n, k, mem, !good);
      if good {
        var b := SwapGoodDir(mem[r.bk]);
        DirTurns(c, s, DataOf(c, n, k), mem, r.bk, b);
        mem := mem[r.bk := b];
      } else {
        var b := SwapBadDir(mem[r.bk], c.img.mem[r.bk]);
        DirTurns(c, s, DataOf(c, n, k), mem, r.bk, b);
        mem := mem[r.bk := b];
      }
      k := k + 1;
    }
  }

  lemma NoData(c: Plan, n: nat, w: Walker)
    ensures DataOf(c, n, 0) == {} && Pos(w, 0) == w
  {
  }

  lemma DirStep(c: Plan, s: set<nat>, n: nat, k: nat, mem: map<nat, Block>, inside: bool)
    requires Plain(c) && n in c.count && k < c.count[n] && DirUniform(c, s, n, inside)
    requires Turned(c, s, DataOf(c, n, k), mem)
    ensures var b := DataBlock(c, n, k);
      && b in c.dirs && b !in DataOf(c, n, k) && (b in s <==> inside) && DataOf(c, n, k + 1) == DataOf(c, n, k) + {b}
      && b in mem && b in c.img.mem && Tiled(c.img.mem[b], 0)
      && mem[b] == if inside then Foreign(c.img.mem[b], 0) else c.img.mem[b]
  {
    hide Plain, Turned, UsedSet, IsIndex, DataOf, Foreign, Tiled;
    DataApart(c, n, k);
    DirBlock(c, s, DataOf(c, n, k), mem, DataBlock(c, n, k));
  }

  // ---- The filesystem ----

  // The other inode fields: 16-bit ones besides i_mode, 32-bit ones besides i_size and i_blocks.
  datatype Meta = Meta(mode: nat, size: nat, halves: seq<nat>, words: seq<nat>)

  // Group descriptors and the superblock, whose s_inodes_count is `inodes`; `options` is the reserved
  // word in which the program keeps its own options, and which is not swapped.
  datatype Desc = Desc(halves: seq<nat>, words: seq<nat>)

  datatype Super = Super(inodes: nat, options: nat, rest: Desc)

  datatype State = State(img: Image, meta: map<nat, Meta>, gd: seq<Desc>, sb: Super)

  function SwapInode(i: Inode): Inode {
    Inode(SwapWords(i.block), Swab32(i.blocks))
  }

  function SwapMeta(m: Meta): Meta {
    Meta(Swab16(m.mode), Swab32(m.size), SwapHalves(m.halves), SwapWords(m.words))
  }

  function SwapDesc(d: Desc): Desc {
    Desc(SwapHalves(d.halves), SwapWords(d.words))
  }

  function SwapSuper(s: Super): Super {
    Super(Swab32(s.inodes), s.options, SwapDesc(s.rest))
  }

  // i_mode & FM_IFDIR.
  predicate IsDir(m: Meta) {
    m.mode / 0x4000 % 2 == 1
  }

  // The test for inodes whose i_block holds no block numbers.  FM_IFLNK contains FM_IFCHR, so every
  // symbolic link passes it.
  predicate Special(m: Meta, i: Inode) {
    || (m.size != 0 && i.blocks / 2 == 0)
    || (m.mode / 0x2000 % 2 == 1 && m.mode / 0x4000 % 2 == 1)
    || m.mode / 0x2000 % 2 == 1
  }

  // The inode as swap_goodfs leaves it: the block table of a special one is swapped twice.
  function TurnInode(m: Meta, i: Inode): Inode {
    Inode(if Special(m, i) then i.block else SwapWords(i.block), Swab32(i.blocks))
  }

  lemma SwapMetaTwice(m: Meta)
    ensures SwapMeta(SwapMeta(m)) == m
  {
    hide Swab16, Swab32, SwapWords, SwapHalves;
    Swab16Twice(m.mode);
    Swab32Twice(m.size);
    SwapHalvesTwice(m.halves);
    SwapWordsTwice(m.words);
  }

  lemma SwapDescTwice(d: Desc)
    ensures SwapDesc(SwapDesc(d)) == d
  {
    hide SwapWords, SwapHalves;
    SwapHalvesTwice(d.halves);
    SwapWordsTwice(d.words);
  }

  lemma SwapSuperTwice(s: Super)
    ensures SwapSuper(SwapSuper(s)) == s
  {
    hide Swab32, SwapDesc;
    Swab32Twice(s.inodes);
    SwapDescTwice(s.rest);
  }

  /** A well-formed image: `count` data blocks per inode, every block owned at most once, unused
      index slots and block 0 zero, directory blocks tiled. */
  ghost predicate WellFormed(st: State, count: map<nat, nat>, gs: seq<Group>, bpg: nat) {
    && Tidy(st.img, count, gs, bpg)
    && st.meta.Keys == st.img.inode.Keys && 1 <= st.sb.inodes && (forall i: nat :: 1 <= i < st.sb.inodes ==> i in st.img.inode)
    && 0 in st.img.mem && st.img.mem[0] == ZeroBlock()
    && (forall n, p :: n in count && count[n] > IND_START && IsIndex(p) && p !in UsedSet(count[n]) ==> Get(st.img, n, p) == 0)
    && (forall n, k: nat :: n in count && IsDir(st.meta[n]) && k < count[n] ==> DirTiled(st.img, n, k))
    && (forall n :: n in count && Special(st.meta[n], st.img.inode[n]) ==> count[n] <= IND_START)
  }

  ghost predicate DirTiled(img: Image, n: nat, k: nat) {
    Get(img, n, LeafAt(k)) in img.mem && Tiled(img.mem[Get(img, n, LeafAt(k))], 0)
  }

  ghost predicate HoldsRecords(st: State, count: map<nat, nat>, b: nat)
    requires count.Keys <= st.meta.Keys
  {
    exists n, k: nat :: n in count && IsDir(st.meta[n]) && k < count[n] && b == Get(st.img, n, LeafAt(k))
  }

  ghost function PlanOf(st: State, count: map<nat, nat>, gs: seq<Group>, bpg: nat): Plan
    requires count.Keys <= st.meta.Keys
  {
    Plan(st.img, count, gs, bpg, set b | b in st.img.mem && HoldsRecords(st, count, b))
  }

  lemma SameKeys(st: State, count: map<nat, nat>, gs: seq<Group>, bpg: nat)
    requires WellFormed(st, count, gs, bpg)
    ensures count.Keys == st.meta.Keys == st.img.inode.Keys && 1 <= st.sb.inodes
    ensures forall i: nat :: 1 <= i < st.sb.inodes ==> i in count
  {
  }

  lemma IndexHoldsNone(st: State, count: map<nat, nat>, gs: seq<Group>, bpg: nat, n: nat, p: Path)
    requires WellFormed(st, count, gs, bpg) && Owned(OwnOf(count), n, p) && IsIndex(p)
    ensures count.Keys <= st.meta.Keys && !HoldsRecords(st, count, Get(st.img, n, p))
  {
    hide IsIndex, UsedSet, LeafAt, Get, Tiled;
    if HoldsRecords(st, count, Get(st.img, n, p)) {
      var n', k: nat :| n' in count && IsDir(st.meta[n']) && k < count[n'] && Get(st.img, n, p) == Get(st.img, n', LeafAt(k));
      LeafPlaced(st.img, count, gs, bpg, n', k);
    }
  }

  lemma RecordsTiled(st: State, count: map<nat, nat>, gs: seq<Group>, bpg: nat, b: nat)
    requires WellFormed(st, count, gs, bpg) && count.Keys <= st.meta.Keys && HoldsRecords(st, count, b)
    ensures b in st.img.mem && b != 0 && Tiled(st.img.mem[b], 0)
  {
    hide IsIndex, UsedSet, LeafAt, Get, Tiled;
    var n, k: nat :| n in count && IsDir(st.meta[n]) && k < count[n] && b == Get(st.img, n, LeafAt(k));
    LeafPlaced(st.img, count, gs, bpg, n, k);
    assert DirTiled(st.img, n, k);
  }

  lemma PlanPlain(st: State, count: map<nat, nat>, gs: seq<Group>, bpg: nat)
    requires WellFormed(st, count, gs, bpg) && count.Keys <= st.meta.Keys
    ensures Plain(PlanOf(st, count, gs, bpg))
  {
    hide IsIndex, UsedSet, LeafAt, Get, Tiled, HoldsRecords, Sound;
    var c := PlanOf(st, count, gs, bpg);
    forall n, p | Owned(OwnOf(count), n, p) && IsIndex(p) ensures Get(st.img, n, p) !in c.dirs {
      IndexHoldsNone(st, count, gs, bpg, n, p);
    }
    forall b | b in c.dirs ensures b in st.img.mem && b != 0 && Tiled(st.img.mem[b], 0) {
      RecordsTiled(st, count, gs, bpg, b);
    }
  }

  // The blocks of an inode that change.
  ghost function BlocksOf(st: State, c: Plan, n: nat): set<nat>
    requires n in c.count && n in st.meta
  {
    IndexOf(c, n) + if IsDir(st.meta[n]) then DataOf(c, n, c.count[n]) else {}
  }

  // Those of the inodes below `k`.
  ghost function Upto(st: State, c: Plan, k: nat): set<nat>
    requires forall i: nat :: 1 <= i < k ==> i in c.count && i in st.meta
  {
    if k <= 1 then {} else Upto(st, c, k - 1) + BlocksOf(st, c, k - 1)
  }

  lemma BlocksApart(st: State, c: Plan, n: nat, n': nat)
    requires Plain(c) && n in c.count && n in st.meta && n' in c.count && n' in st.meta && n != n'
    ensures BlocksOf(st, c, n) !! BlocksOf(st, c, n')
  {
    hide Plain, Get, UsedSet, IsIndex, LeafAt;
    if b :| b in BlocksOf(st, c, n) && b in BlocksOf(st, c, n') {
      var p := OwnerSlot(st, c, n, b);
      var q := OwnerSlot(st, c, n', b);
      UsedApart(c, n, p, n', q);
    }
  }

  lemma OwnerSlot(st: State, c: Plan, n: nat, b: nat) returns (p: Path)
    requires Plain(c) && n in c.count && n in st.meta && b in BlocksOf(st, c, n)
    ensures p in UsedSet(c.count[n]) && Get(c.img, n, p) == b
  {
    hide Plain, Get, UsedSet, IsIndex, LeafAt;
    if b in IndexOf(c, n) {
      p :| p in UsedSet(c.count[n]) && IsIndex(p) && Get(c.img, n, p) == b;
    } else {
      var k: nat :| k < c.count[n] && DataBlock(c, n, k) == b;
      DataUsed(c, n, k);
      p := LeafAt(k);
    }
  }

  lemma {:induction false} UptoApart(st: State, c: Plan, k: nat, n: nat)
    requires Plain(c) && (forall i: nat :: 1 <= i < k ==> i in c.count && i in st.meta)
    requires n in c.count && n in st.meta && k <= n
    ensures BlocksOf(st, c, n) !! Upto(st, c, k)
  {
    hide BlocksOf, Plain;
    if k > 1 {
      UptoApart(st, c, k - 1, n);
      BlocksApart(st, c, k - 1, n);
    }
  }

  lemma {:induction false} UptoGrows(st: State, c: Plan, k: nat, n: nat)
    requires (forall i: nat :: 1 <= i < k ==> i in c.count && i in st.meta) && 1 <= n < k
    ensures BlocksOf(st, c, n) <= Upto(st, c, k)
  {
    hide BlocksOf;
    if n < k - 1 { UptoGrows(st, c, k - 1, n); }
  }

  lemma IndexApartData(st: State, c: Plan, n: nat)
    requires Plain(c) && n in c.count
    ensures IndexOf(c, n) !! DataOf(c, n, c.count[n])
  {
    hide Plain, Get, UsedSet, IsIndex, LeafAt, DataOf;
    forall p | p in UsedSet(c.count[n]) && IsIndex(p) ensures Get(c.img, n, p) !in DataOf(c, n, c.count[n]) {
      IndexNotData(c, n, p, c.count[n]);
    }
  }

  lemma Rebase(c: Plan, s: set<nat>, x: set<nat>, mem: map<nat, Block>)
    requires Turned(c, s, x, mem)
    ensures s !! x ==> Turned(c, s + x, {}, mem)
    ensures x <= s ==> Turned(c, s - x, {}, mem)
  {
    hide Plain, Turn;
  }

  lemma IndexUniform(c: Plan, s: set<nat>, n: nat, inside: bool)
    requires n in c.count && if inside then IndexOf(c, n) <= s else IndexOf(c, n) !! s
    ensures Uniform(c, s, n, inside)
  {
    hide IsIndex, UsedSet, Get;
    forall p | IsIndex(p) && p in UsedSet(c.count[n]) ensures Get(c.img, n, p) in s <==> inside {
      assert Get(c.img, n, p) in IndexOf(c, n);
    }
  }

  lemma DataUniform(st: State, c: Plan, s: set<nat>, n: nat, inside: bool, gs: seq<Group>, bpg: nat)
    requires n in c.count && n in st.meta && IsDir(st.meta[n]) && c.count.Keys <= st.meta.Keys
    requires c == PlanOf(st, c.count, gs, bpg) && Plain(c)
    requires if inside then DataOf(c, n, c.count[n]) <= s else DataOf(c, n, c.count[n]) !! s
    ensures DirUniform(c, s, n, inside)
  {
    hide Plain, LeafAt, Get;
    forall k: nat | k < c.count[n] ensures DataBlock(c, n, k) in c.dirs && (DataBlock(c, n, k) in s <==> inside) {
      DataUsed(c, n, k);
      assert DataBlock(c, n, k) in DataOf(c, n, c.count[n]);
      assert HoldsRecords(st, c.count, DataBlock(c, n, k));
    }
  }

  // The inodes from `lo` up to `hi` are in foreign order.
  ghost predicate Nodes(f: State, st: State, lo: nat, hi: nat) {
    && f.meta.Keys == f.img.inode.Keys == st.meta.Keys == st.img.inode.Keys
    && (forall n :: n in f.meta ==> NodeIs(f, st, n, lo <= n < hi))
  }

  ghost predicate NodeIs(f: State, st: State, n: nat, turned: bool)
    requires n in f.meta && n in f.img.inode && n in st.meta && n in st.img.inode
  {
    if turned then st.img.inode[n] == TurnInode(f.meta[n], f.img.inode[n]) && st.meta[n] == SwapMeta(f.meta[n])
    else st.img.inode[n] == f.img.inode[n] && st.meta[n] == f.meta[n]
  }

  ghost predicate Descs(f: State, st: State) {
    |st.gd| == |f.gd| && forall i :: 0 <= i < |f.gd| ==> st.gd[i] == SwapDesc(f.gd[i])
  }

  // What swap_goodfs makes of `f`: all inodes but the last are in foreign order, with their index
  // blocks and directory records, and so are the group descriptors and the superblock.
  ghost predicate Converted(f: State, c: Plan, st: State)
    requires forall i: nat :: 1 <= i < f.sb.inodes ==> i in c.count && i in f.meta
  {
    && Nodes(f, st, 1, f.sb.inodes) && Turned(c, Upto(f, c, f.sb.inodes), {}, st.img.mem)
    && Descs(f, st) && st.sb == SwapSuper(f.sb)
  }

  lemma NodeStep(f: State, st: State, i: nat, n: Inode, m: Meta, lo: nat, hi: nat, turned: bool)
    requires Nodes(f, st, lo, hi) && i in f.meta
    requires if turned then hi == i && lo <= i else lo == i < hi
    requires if turned then n == TurnInode(f.meta[i], f.img.inode[i]) && m == SwapMeta(f.meta[i])
             else n == f.img.inode[i] && m == f.meta[i]
    ensures Nodes(f, st.(img := st.img.(inode := st.img.inode[i := n]), meta := st.meta[i := m]),
                  if turned then lo else i + 1, if turned then i + 1 else hi)
  {
    hide TurnInode, SwapMeta;
    var st' := st.(img := st.img.(inode := st.img.inode[i := n]), meta := st.meta[i := m]);
    forall k | k in f.meta ensures NodeIs(f, st', k, if turned then lo <= k < i + 1 else i + 1 <= k < hi) {
      assert NodeIs(f, st, k, lo <= k < hi);
    }
  }

  lemma NodesMem(f: State, st: State, lo: nat, hi: nat, mem: map<nat, Block>)
    requires Nodes(f, st, lo, hi)
    ensures Nodes(f, st.(img := st.img.(mem := mem)), lo, hi)
  {
    hide TurnInode, SwapMeta;
    var st' := st.(img := st.img.(mem := mem));
    forall k | k in f.meta ensures NodeIs(f, st', k, lo <= k < hi) {
      assert NodeIs(f, st, k, lo <= k < hi);
    }
  }

  lemma NodeAt(f: State, st: State, lo: nat, hi: nat, i: nat)
    requires Nodes(f, st, lo, hi) && i in f.meta
    ensures i in f.img.inode && i in st.meta && i in st.img.inode && NodeIs(f, st, i, lo <= i < hi)
  {
  }

  // What a well-formed image gives for inode `i`.
  lemma InodeFacts(f: State, c: Plan, i: nat)
    requires WellFormed(f, c.count, c.gs, c.bpg) && c.count.Keys <= f.meta.Keys && c == PlanOf(f, c.count, c.gs, c.bpg) && 1 <= i < f.sb.inodes
    ensures Plain(c) && i in c.count && i in f.meta && i in c.img.inode && c.img == f.img
    ensures c.img.inode[i].blocks / 2 == Total(c.count[i]) && |c.img.inode[i].block| == 15
    ensures Special(f.meta[i], f.img.inode[i]) ==> c.count[i] <= IND_START
  {
    hide IsIndex, UsedSet, LeafAt, Get, Tiled, HoldsRecords, Sound, Special, Total;
    PlanPlain(f, c.count, c.gs, c.bpg);
    CountBound(c, i);
  }

  // The sets around inode `i` when the inodes below it are done.
  lemma GoodSets(f: State, c: Plan, i: nat)
    requires Plain(c) && (forall k: nat :: 1 <= k < f.sb.inodes ==> k in c.count && k in f.meta) && 1 <= i < f.sb.inodes
    requires c.count.Keys <= f.meta.Keys && c == PlanOf(f, c.count, c.gs, c.bpg)
    ensures var s, d := Upto(f, c, i), if IsDir(f.meta[i]) then DataOf(c, i, c.count[i]) else {};
      && s !! d && s + d !! IndexOf(c, i) && s + d + IndexOf(c, i) == Upto(f, c, i + 1)
      && Uniform(c, s, i, false) && Uniform(c, s + d, i, false)
      && (IsDir(f.meta[i]) ==> DirUniform(c, s, i, false))
  {
    hide Plain, IndexOf, DataOf, IsDir, Uniform, DirUniform;
    var s, d := Upto(f, c, i), if IsDir(f.meta[i]) then DataOf(c, i, c.count[i]) else {};
    UptoApart(f, c, i, i);
    IndexApartData(f, c, i);
    IndexUniform(c, s, i, false);
    IndexUniform(c, s + d, i, false);
    if IsDir(f.meta[i]) { DataUniform(f, c, s, i, false, c.gs, c.bpg); }
  }

  lemma BadSets(f: State, c: Plan, i: nat)
    requires Plain(c) && (forall k: nat :: 1 <= k < f.sb.inodes ==> k in c.count && k in f.meta) && 1 <= i < f.sb.inodes
    requires c.count.Keys <= f.meta.Keys && c == PlanOf(f, c.count, c.gs, c.bpg)
    ensures var s, d := Upto(f, c, f.sb.inodes) - Upto(f, c, i), if IsDir(f.meta[i]) then DataOf(c, i, c.count[i]) else {};
      && IndexOf(c, i) <= s && d <= s - IndexOf(c, i) && s - IndexOf(c, i) - d == Upto(f, c, f.sb.inodes) - Upto(f, c, i + 1)
      && Uniform(c, s, i, true) && Uniform(c, s - IndexOf(c, i), i, false)
      && (IsDir(f.meta[i]) ==> DirUniform(c, s - IndexOf(c, i), i, true))
  {
    hide Plain, IndexOf, DataOf, IsDir, Uniform, DirUniform;
    var s, d := Upto(f, c, f.sb.inodes) - Upto(f, c, i), if IsDir(f.meta[i]) then DataOf(c, i, c.count[i]) else {};
    UptoApart(f, c, i, i);
    UptoGrows(f, c, f.sb.inodes, i);
    IndexApartData(f, c, i);
    IndexUniform(c, s, i, true);
    IndexUniform(c, s - IndexOf(c, i), i, false);
    if IsDir(f.meta[i]) { DataUniform(f, c, s - IndexOf(c, i), i, true, c.gs, c.bpg); }
  }

  /** The filesystem being written; the block bitmaps are bytes and are not swapped. */
  class FileSystem {
    const gs: seq<Group>
    const bpg: nat
    var st: State

    constructor (gs: seq<Group>, bpg: nat, st: State)
      ensures this.gs == gs && this.bpg == bpg && this.st == st
    {
      this.gs, this.bpg, this.st := gs, bpg, st;
    }

    ghost predicate Planned(f: State, c: Plan)
    {
      && c.gs == gs && c.bpg == bpg && c.img == f.img && 1 <= f.sb.inodes
      && WellFormed(f, c.count, gs, bpg) && c.count.Keys <= f.meta.Keys && c == PlanOf(f, c.count, gs, bpg)
      && forall k: nat :: 1 <= k < f.sb.inodes ==> k in c.count && k in f.meta
    }

    // One round of the loop in swap_goodfs.
    method GoodInode(i: nat, w: Walker, ghost f: State, ghost c: Plan)
      requires Planned(f, c) && Fresh(w) && 1 <= i < f.sb.inodes
      requires Nodes(f, st, 1, i) && Turned(c, Upto(f, c, i), {}, st.img.mem)
      modifies this
      ensures Nodes(f, st, 1, i + 1) && Turned(c, Upto(f, c, i + 1), {}, st.img.mem)
      ensures st.gd == old(st.gd) && st.sb == old(st.sb)
    {
      hide Plain, WellFormed, Nodes, Turned, Upto, Uniform, DirUniform, IndexOf, DataOf, PlanOf, Special, IsDir, SwapWords, Swab32, SwapMeta, Total, Fresh;
      InodeFacts(f, c, i);
      NodeAt(f, st, 1, i, i);
      GoodSets(f, c, i);
      ghost var s := Upto(f, c, i);
      var nod, meta, mem := st.img.inode[i], st.meta[i], st.img.mem;
      if IsDir(meta) {
        mem := SwapDirs(st.img.inode, mem, gs, bpg, i, w, true, c, s);
        Rebase(c, s, DataOf(c, i, c.count[i]), mem);
        s := s + DataOf(c, i, c.count[i]);
      } else {
        assert s + {} == s;
      }
      var blk := nod.block;
      if Special(meta, nod) {
        blk := SwapBlock(blk);
        SwapWordsTwice(nod.block);
      }
      mem := SwapGoodIndex(mem, blk, nod.blocks / 2, c, s, i);
      Rebase(c, s, IndexOf(c, i), mem);
      nod := SwapInode(nod.(block := blk));
      NodeStep(f, st, i, nod, SwapMeta(meta), 1, i, true);
      st := st.(img := st.img.(inode := st.img.inode[i := nod]), meta := st.meta[i := SwapMeta(meta)]);
      NodesMem(f, st, 1, i + 1, mem);
      st := st.(img := st.img.(mem := mem));
    }

    // One round of the loop in swap_badfs.
    method BadInode(i: nat, w: Walker, ghost f: State, ghost c: Plan)
      requires Planned(f, c) && Fresh(w) && 1 <= i < f.sb.inodes
      requires Nodes(f, st, i, f.sb.inodes) && Turned(c, Upto(f, c, f.sb.inodes) - Upto(f, c, i), {}, st.img.mem)
      modifies this
      ensures Nodes(f, st, i + 1, f.sb.inodes) && Turned(c, Upto(f, c, f.sb.inodes) - Upto(f, c, i + 1), {}, st.img.mem)
      ensures st.gd == old(st.gd) && st.sb == old(st.sb)
    {
      hide Plain, WellFormed, Nodes, Turned, Upto, Uniform, DirUniform, IndexOf, DataOf, PlanOf, Special, IsDir, SwapWords, Swab32, SwapMeta, Total, Fresh;
      InodeFacts(f, c, i);
      NodeAt(f, st, i, f.sb.inodes, i);
      BadSets(f, c, i);
      ghost var s := Upto(f, c, f.sb.inodes) - Upto(f, c, i);
      SwapMetaTwice(f.meta[i]);
      SwapWordsTwice(f.img.inode[i].block);
      Swab32Twice(f.img.inode[i].blocks);
      var nod, meta, mem := SwapInode(st.img.inode[i]), SwapMeta(st.meta[i]), st.img.mem;
      SpecialIgnoresTable(meta, nod, f.img.inode[i]);
      if Special(meta, nod) {
        var blk := SwapBlock(nod.block);
        nod := nod.(block := blk);
      }
      NodeStep(f, st, i, nod, meta, i, f.sb.inodes, false);
      mem := SwapBadIndex(mem, nod.block, nod.blocks / 2, c, s, i);
      Rebase(c, s, IndexOf(c, i), mem);
      s := s - IndexOf(c, i);
      st := st.(img := st.img.(inode := st.img.inode[i := nod]), meta := st.meta[i := meta]);
      if IsDir(meta) {
        mem := SwapDirs(st.img.inode, mem, gs, bpg, i, w, false, c, s);
        Rebase(c, s, DataOf(c, i, c.count[i]), mem);
      } else {
        assert s - {} == s;
      }
      NodesMem(f, st, i + 1, f.sb.inodes, mem);
      st := st.(img := st.img.(mem := mem));
    }

    // swap_gd on every group.
    method SwapGroups()
      modifies this
      ensures st == old(st).(gd := st.gd) && Descs(old(st), st)
    {
      hide SwapDesc;
      var i := 0;
      while i < |st.gd|
        invariant st == old(st).(gd := st.gd) && |st.gd| == |old(st).gd| && i <= |st.gd|
        invariant forall k :: 0 <= k < i ==> st.gd[k] == SwapDesc(old(st).gd[k])
        invariant forall k :: i <= k < |st.gd| ==> st.gd[k] == old(st).gd[k]
      {
        st := st.(gd := st.gd[i := SwapDesc(st.gd[i])]);
        i := i + 1;
      }
    }

    method SwapGoodFs(w: Walker, ghost c: Plan)
      requires Planned(st, c) && Fresh(w)
      modifies this
      ensures Planned(old(st), c) && Converted(old(st), c, st)
    {
      hide Plain, WellFormed, Nodes, Turned, Upto, PlanOf, SwapSuper, Fresh, Descs;
      ghost var f := st;
      var i := 1;
      GoodStart(f, c);
      while i < st.sb.inodes
        invariant 1 <= i <= f.sb.inodes && Nodes(f, st, 1, i) && Turned(c, Upto(f, c, i), {}, st.img.mem)
        invariant st.gd == f.gd && st.sb == f.sb
      {
        GoodInode(i, w, f, c);
        i := i + 1;
      }
      ghost var mid := st;
      SwapGroups();
      st := st.(sb := SwapSuper(st.sb));
      GoodEnd(f, mid, st, i);
    }

    method SwapBadFs(w: Walker, ghost f: State, ghost c: Plan)
      requires Planned(f, c) && Converted(f, c, st) && Fresh(w)
      modifies this
      ensures st == f
    {
      hide Plain, WellFormed, Nodes, Turned, Upto, PlanOf, SwapSuper, Fresh, Descs;
      SwapSuperTwice(f.sb);
      ghost var was := st;
      st := st.(sb := SwapSuper(st.sb));
      SwapGroups();
      BadStart(f, c, was, st);
      var i := 1;
      while i < st.sb.inodes
        invariant 1 <= i <= f.sb.inodes && Nodes(f, st, i, f.sb.inodes)
        invariant Turned(c, Upto(f, c, f.sb.inodes) - Upto(f, c, i), {}, st.img.mem)
        invariant st.gd == f.gd && st.sb == f.sb
      {
        BadInode(i, w, f, c);
        i := i + 1;
      }
      BadEnd(f, c, st);
    }

    // dump_fs with swapping: what is written is the converted image without the program's options,
    // and but for those the filesystem in memory is what it was.
    method DumpFs(w: Walker, ghost count: map<nat, nat>) returns (written: State)
      requires WellFormed(st, count, gs, bpg) && Fresh(w)
      modifies this
      ensures st == old(st).(sb := old(st).sb.(options := 0))
      ensures count.Keys <= st.meta.Keys && Planned(st, PlanOf(st, count, gs, bpg))
      ensures Converted(st, PlanOf(st, count, gs, bpg), written)
    {
      hide WellFormed, PlanOf, Converted, Fresh;
      OptionsDoNotMatter(st, count, gs, bpg);
      st := st.(sb := st.sb.(options := 0));
      SameKeys(st, count, gs, bpg);
      PlanCount(st, count, gs, bpg);
      ghost var f, c := st, PlanOf(st, count, gs, bpg);
      SwapGoodFs(w, c);
      written := st;
      SwapBadFs(w, f, c);
    }
  }

  // fs->sb.s_reserved[200] = 0.
  ghost function WithoutOptions(st: State): State {
    st.(sb := st.sb.(options := 0))
  }

  lemma OptionsDoNotMatter(st: State, count: map<nat, nat>, gs: seq<Group>, bpg: nat)
    requires WellFormed(st, count, gs, bpg)
    ensures WellFormed(WithoutOptions(st), count, gs, bpg)
  {
    hide Sound, IsIndex, UsedSet, Get, Special, IsDir, DirTiled;
  }

  lemma PlanCount(st: State, count: map<nat, nat>, gs: seq<Group>, bpg: nat)
    requires count.Keys <= st.meta.Keys
    ensures var c := PlanOf(st, count, gs, bpg); c.count == count && c.gs == gs && c.bpg == bpg && c.img == st.img
  {
  }

  lemma SpecialIgnoresTable(m: Meta, i: Inode, i': Inode)
    requires i.blocks == i'.blocks
    ensures Special(m, i) == Special(m, i')
  {
  }

  lemma GoodStart(f: State, c: Plan)
    requires WellFormed(f, c.count, c.gs, c.bpg) && c.count.Keys <= f.meta.Keys && c == PlanOf(f, c.count, c.gs, c.bpg)
    ensures 1 <= f.sb.inodes && Nodes(f, f, 1, 1) && Turned(c, Upto(f, c, 1), {}, f.img.mem)
  {
    hide Tidy, Tiled, Get, IsIndex, UsedSet, Plain;
    PlanPlain(f, c.count, c.gs, c.bpg);
  }

  lemma GoodEnd(f: State, mid: State, st: State, i: nat)
    requires Nodes(f, mid, 1, i) && mid.gd == f.gd && mid.sb == f.sb
    requires Descs(mid, st.(sb := mid.sb)) && st.img == mid.img && st.meta == mid.meta
    ensures Nodes(f, st, 1, i) && Descs(f, st)
  {
    hide SwapDesc, TurnInode, SwapMeta;
    forall k | k in f.meta ensures NodeIs(f, st, k, 1 <= k < i) {
      assert NodeIs(f, mid, k, 1 <= k < i);
    }
  }

  lemma BadStart(f: State, c: Plan, was: State, st: State)
    requires forall k: nat :: 1 <= k < f.sb.inodes ==> k in c.count && k in f.meta
    requires Converted(f, c, was) && st.img == was.img && st.meta == was.meta && Descs(was.(sb := st.sb), st)
    requires 1 <= f.sb.inodes
    ensures Nodes(f, st, 1, f.sb.inodes) && Turned(c, Upto(f, c, f.sb.inodes) - Upto(f, c, 1), {}, st.img.mem)
    ensures st.gd == f.gd
  {
    hide SwapDesc, TurnInode, SwapMeta, Turned;
    forall k | k in f.meta ensures NodeIs(f, st, k, 1 <= k < f.sb.inodes) {
      assert NodeIs(f, was, k, 1 <= k < f.sb.inodes);
    }
    forall k | 0 <= k < |f.gd| ensures st.gd[k] == f.gd[k] {
      SwapDescTwice(f.gd[k]);
    }
    assert Upto(f, c, f.sb.inodes) - Upto(f, c, 1) == Upto(f, c, f.sb.inodes);
  }

  lemma BadEnd(f: State, c: Plan, st: State)
    requires forall k: nat :: 1 <= k < f.sb.inodes ==> k in c.count && k in f.meta
    requires Nodes(f, st, f.sb.inodes, f.sb.inodes) && st.gd == f.gd && st.sb == f.sb && c.img == f.img
    requires Turned(c, Upto(f, c, f.sb.inodes) - Upto(f, c, f.sb.inodes), {}, st.img.mem)
    ensures st == f
  {
    hide TurnInode, SwapMeta, Turn, Plain, Upto;
    forall k | k in f.meta ensures st.img.inode[k] == f.img.inode[k] && st.meta[k] == f.meta[k] {
      assert NodeIs(f, st, k, false);
    }
    assert st.img.inode == f.img.inode && st.meta == f.meta;
    assert st.img.mem == f.img.mem;
  }

  // An image that extend_blk has built from a fresh one is well-formed as far as its blocks go: what
  // remains to be seen to are the directory records and the special inodes.
  lemma BuiltIsWellFormed(v: Volume, st: State)
    requires v.Valid() && st.img == v.img && st.meta.Keys == st.img.inode.Keys == v.count.Keys
    requires 1 <= st.sb.inodes && forall i: nat :: 1 <= i < st.sb.inodes ==> i in st.img.inode
    requires forall n, k: nat :: n in v.count && IsDir(st.meta[n]) && k < v.count[n] ==> DirTiled(st.img, n, k)
    requires forall n :: n in v.count && Special(st.meta[n], st.img.inode[n]) ==> v.count[n] <= IND_START
    ensures WellFormed(st, v.count, v.alloc.groups, v.alloc.bpg)
  {
    hide Sound, IsIndex, UsedSet, Get, Special, IsDir, DirTiled;
    v.IsTidy();
    forall n, p | n in v.count && IsIndex(p) && p !in UsedSet(v.count[n]) ensures Get(st.img, n, p) == 0 {
      assert OwnOf(v.count)[n] == UsedSet(v.count[n]);
    }
  }

  // ---- Trees ----

  // A directory block laid out in words is tiled in the sense of the swapping loops.
  lemma {:induction false} WordsTiled(pre: seq<nat>, s: seq<D.Record>, w: seq<nat>)
    requires D.AllOk(s) && w == pre + D.Words(s) && |w| == WORDS
    ensures Tiled(w, |pre|)
    decreases |s|
  {
    hide D.RecOk, D.Span;
    var o := |pre|;
    if s != [] {
      FirstWords(s);
      var n := |D.RecWords(s[0])|;
      assert w[o + 1] == D.RecWords(s[0])[1];
      D.LensOf(s[0].recLen, s[0].nameLen);
      var pre' := pre + D.RecWords(s[0]);
      assert w == pre' + D.Words(s[1..]);
      WordsTiled(pre', s[1..], w);
    }
  }

  lemma FirstWords(s: seq<D.Record>)
    requires D.AllOk(s) && s != [] && |D.Words(s)| <= WORDS
    ensures D.RecOk(s[0]) && D.AllOk(s[1..]) && D.Words(s) == D.RecWords(s[0]) + D.Words(s[1..])
    ensures |D.RecWords(s[0])| == s[0].recLen / 4 && s[0].recLen % 4 == 0 && 12 <= s[0].recLen <= 1024
    ensures D.RecWords(s[0])[1] == s[0].recLen + 0x1_0000 * s[0].nameLen
  {
  }

  // The image of every tree of directories, files and devices that can be built is well-formed, so that
  // dump_fs gives it back unchanged.
  lemma TreeIsWellFormed(t: L.Tree, st: State)
    requires t.Valid() && st.img == t.vol.img && st.meta.Keys == st.img.inode.Keys && st.sb.inodes == |t.stat| - 1
    requires forall n :: n in st.meta && n < |t.stat| ==> st.meta[n].mode == t.stat[n].mode
    requires forall n :: n in st.meta ==> n < |t.stat| && n in t.vol.count
    ensures WellFormed(st, t.vol.count, t.vol.alloc.groups, t.vol.alloc.bpg)
  {
    hide Volume.Valid, L.Means, Special, IsDir, DirTiled, WellFormed, L.IsDir;
    t.vol.IsTidy();
    SizesOf(t.itab, t.stat, t.vol.img, t.vol.count, t.vol.alloc.groups, t.vol.alloc.ipg, t.vol.alloc.bpg);
    forall n, k: nat | n in t.vol.count && n in st.meta && IsDir(st.meta[n]) && k < t.vol.count[n] ensures DirTiled(st.img, n, k) {
      TreeDir(t.itab, t.stat, t.vol.img, t.vol.count, t.vol.alloc.groups, t.vol.alloc.ipg, t.vol.alloc.bpg, n, k, st.meta[n]);
    }
    forall n | n in t.vol.count && n in st.meta && n in st.img.inode && Special(st.meta[n], st.img.inode[n]) ensures t.vol.count[n] <= IND_START {
      TreeSpecial(t.itab, t.stat, t.vol.img, t.vol.count, t.vol.alloc.groups, t.vol.alloc.ipg, t.vol.alloc.bpg, n, st.meta[n]);
    }
    BuiltIsWellFormed(t.vol, st);
  }

  lemma SizesOf(itab: seq<L.Node>, stat: seq<L.Stat>, img: Image, count: map<nat, nat>, gs: seq<Group>, ipg: nat, bpg: nat)
    requires L.Means(itab, stat, img, count, gs, ipg) && Tidy(img, count, gs, bpg)
    ensures 2 < |stat| == |itab| && count.Keys == img.inode.Keys && forall i: nat :: 1 <= i < |stat| ==> i in img.inode
  {
    hide L.Linked, L.Holds, Sound;
    L.TwoInTable(itab, gs, ipg);
    forall i: nat | 1 <= i < |stat| ensures i in count {
      assert L.StoredAt(img, count, i, itab[i]);
    }
  }

  // In a tree only directories and regular files have blocks.
  lemma TreeDir(itab: seq<L.Node>, stat: seq<L.Stat>, img: Image, count: map<nat, nat>, gs: seq<Group>, ipg: nat, bpg: nat, n: nat, k: nat, m: Meta)
    requires L.Means(itab, stat, img, count, gs, ipg) && Tidy(img, count, gs, bpg) && 1 <= n < |itab| == |stat| && n in count && k < count[n]
    requires m.mode == stat[n].mode && IsDir(m)
    ensures DirTiled(img, n, k)
  {
    hide L.Linked, Sound, Get, LeafAt, D.Words, Tiled, L.IsDir, L.IsRegular, IsDir, Contents;
    assert L.StoredAt(img, count, n, itab[n]);
    if !L.IsDir(itab[n].mode) { FileIsNoDir(m); }
    var b := itab[n].dir[k];
    assert L.BlockHolds(img, n, k, b) && D.Tiled(b);
    LeafPlaced(img, count, gs, bpg, n, k);
    L.WordsFit(b);
    assert [] + D.Words(b) == D.Words(b);
    WordsTiled([], b, D.Words(b));
  }

  lemma TreeSpecial(itab: seq<L.Node>, stat: seq<L.Stat>, img: Image, count: map<nat, nat>, gs: seq<Group>, ipg: nat, bpg: nat, n: nat, m: Meta)
    requires L.Means(itab, stat, img, count, gs, ipg) && Tidy(img, count, gs, bpg) && 1 <= n < |itab| == |stat| && n in img.inode && n in count
    requires m.mode == stat[n].mode && Special(m, img.inode[n])
    ensures count[n] <= IND_START
  {
    hide L.Linked, Sound, L.Holds, L.IsDir, L.IsRegular, Contents;
    assert L.StoredAt(img, count, n, itab[n]);
    if count[n] > IND_START {
      assert L.IsDir(itab[n].mode) || L.IsRegular(itab[n].mode);
      Plainly(m.mode);
    }
  }

  lemma FileIsNoDir(m: Meta)
    requires L.IsRegular(m.mode)
    ensures !IsDir(m)
  {
    FormatBits(m.mode, 4);
    Sixteens(m.mode / 0x1000);
  }

  // The formats of directories and files have one format bit.
  lemma Plainly(mode: nat)
    requires L.IsDir(mode) || L.IsRegular(mode)
    ensures mode / 0x2000 % 2 == 0
  {
    FormatBits(mode, 2);
    Sixteens(mode / 0x1000);
  }

  lemma FormatBits(mode: nat, d: nat)
    requires d == 2 || d == 4
    ensures mode / (0x1000 * d) == mode / 0x1000 / d
  {
    var h, r := mode / 0x1000, mode % 0x1000;
    DivUnique(mode, 0x1000 * d, h / d, 0x1000 * (h % d) + r);
  }

  lemma Sixteens(h: nat)
    ensures h % 16 == 8 ==> h / 4 % 2 == 0 && h / 2 % 2 == 0
    ensures h % 16 == 4 ==> h / 2 % 2 == 0
  {
    var q := h / 16;
    if h % 16 == 8 {
      DivUnique(h, 4, 4 * q + 2, 0);
      DivUnique(h, 2, 8 * q + 4, 0);
    } else if h % 16 == 4 {
      DivUnique(h, 2, 8 * q + 2, 0);
    }
  }
}
