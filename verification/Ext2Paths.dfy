/**
 The block walker of external/genext2fs/genext2fs.c (walk_bw, lines 966-1204)
 as a map of positions: which pointer slot the next call visits, which index
 blocks it enters for the first time, and how `bnum` counts them.

 A `Path` names a pointer slot of an inode: one of its 15 entries, or a word of
 the index block that another slot points to.
*/
module Ext2Paths {

  const WORDS := 256
  const EXT2_NDIR_BLOCKS := 11
  const EXT2_IND_BLOCK := 12
  const EXT2_DIND_BLOCK := 13
  const EXT2_TIND_BLOCK := 14
  const EXT2_INIT_BLOCK := 0xFFFFFFFF

  // The first data block reached through each indirection, and the end of the map.
  const IND_START := 12
  const DIND_START := 268
  const TIND_START := 65804
  const MAX_DATA := 16843020

  datatype Path = Slot(i: nat) | Sub(up: Path, i: nat)

  datatype Walker = Walker(bnum: nat, bpdir: nat, bpind: nat, bpdind: nat, bptind: nat)

  // One call of walk_bw: the walker it leaves (before the data block is counted), the index
  // slots it enters for the first time, and the data slot.
  datatype Move = Move(bw: Walker, index: seq<Path>, leaf: Path) | TooBig

  function Advance(bw: Walker): Move {
    if bw.bpdir == EXT2_INIT_BLOCK then
      Move(bw.(bpdir := 0), [], Slot(0))
    else if bw.bpdir < EXT2_NDIR_BLOCKS then
      Move(bw.(bpdir := bw.bpdir + 1), [], Slot(bw.bpdir + 1))
    else if bw.bpdir == EXT2_NDIR_BLOCKS then
      Move(bw.(bnum := bw.bnum + 1, bpdir := EXT2_IND_BLOCK, bpind := 0), [Ind()], Sub(Ind(), 0))
    else if bw.bpdir == EXT2_IND_BLOCK && bw.bpind < WORDS - 1 then
      Move(bw.(bpind := bw.bpind + 1), [], Sub(Ind(), bw.bpind + 1))
    else if bw.bpdir == EXT2_IND_BLOCK then
      Move(bw.(bnum := bw.bnum + 2, bpdir := EXT2_DIND_BLOCK, bpind := 0, bpdind := 0),
           [Dind(), Sub(Dind(), 0)], Sub(Sub(Dind(), 0), 0))
    else if bw.bpdir == EXT2_DIND_BLOCK && bw.bpdind < WORDS - 1 then
      Move(bw.(bpdind := bw.bpdind + 1), [], Sub(Sub(Dind(), bw.bpind), bw.bpdind + 1))
    else if bw.bpdir == EXT2_DIND_BLOCK && bw.bpind < WORDS - 1 then
      Move(bw.(bnum := bw.bnum + 1, bpdind := 0, bpind := bw.bpind + 1),
           [Sub(Dind(), bw.bpind + 1)], Sub(Sub(Dind(), bw.bpind + 1), 0))
    else if bw.bpdir == EXT2_DIND_BLOCK then
      Move(bw.(bnum := bw.bnum + 3, bpdir := EXT2_TIND_BLOCK, bpind := 0, bpdind := 0, bptind := 0),
           [Tind(), Sub(Tind(), 0), Sub(Sub(Tind(), 0), 0)], Sub(Sub(Sub(Tind(), 0), 0), 0))
    else if bw.bpdir == EXT2_TIND_BLOCK && bw.bptind < WORDS - 1 then
      Move(bw.(bptind := bw.bptind + 1), [], Sub(Sub(Sub(Tind(), bw.bpind), bw.bpdind), bw.bptind + 1))
    else if bw.bpdir == EXT2_TIND_BLOCK && bw.bpdind < WORDS - 1 then
      Move(bw.(bnum := bw.bnum + 1, bptind := 0, bpdind := bw.bpdind + 1),
           [Sub(Sub(Tind(), bw.bpind), bw.bpdind + 1)], Sub(Sub(Sub(Tind(), bw.bpind), bw.bpdind + 1), 0))
    else if bw.bpdir == EXT2_TIND_BLOCK && bw.bpind < WORDS - 1 then
      Move(bw.(bnum := bw.bnum + 2, bpdind := 0, bptind := 0, bpind := bw.bpind + 1),
           [Sub(Tind(), bw.bpind + 1), Sub(Sub(Tind(), bw.bpind + 1), 0)],
           Sub(Sub(Sub(Tind(), bw.bpind + 1), 0), 0))
    else TooBig
  }

  function Ind(): Path { Slot(EXT2_IND_BLOCK) }
  function Dind(): Path { Slot(EXT2_DIND_BLOCK) }
  function Tind(): Path { Slot(EXT2_TIND_BLOCK) }

  // ---- The closed form ----

  // The slot of the k-th data block.
  ghost function LeafAt(k: nat): Path {
    if k < IND_START then Slot(k)
    else if k < DIND_START then Sub(Ind(), k - IND_START)
    else if k < TIND_START then
      var j := k - DIND_START;
      Sub(Sub(Dind(), j / WORDS), j % WORDS)
    else
      var j := k - TIND_START;
      Sub(Sub(Sub(Tind(), j / 65536), j / WORDS % WORDS), j % WORDS)
  }

  // The index slots first needed for the k-th data block.
  ghost function FreshAt(k: nat): seq<Path> {
    if k == IND_START then [Ind()]
    else if k == DIND_START then [Dind(), Sub(Dind(), 0)]
    else if DIND_START < k < TIND_START && (k - DIND_START) % WORDS == 0 then [Sub(Dind(), (k - DIND_START) / WORDS)]
    else if k == TIND_START then [Tind(), Sub(Tind(), 0), Sub(Sub(Tind(), 0), 0)]
    else if TIND_START < k && (k - TIND_START) % 65536 == 0 then
      var i := (k - TIND_START) / 65536;
      [Sub(Tind(), i), Sub(Sub(Tind(), i), 0)]
    else if TIND_START < k && (k - TIND_START) % WORDS == 0 then
      var j := k - TIND_START;
      [Sub(Sub(Tind(), j / 65536), j / WORDS % WORDS)]
    else []
  }

  // Index blocks in use when `k` data blocks are: rounded up per level.
  ghost function IndexBlocks(k: nat): nat {
    (if k > IND_START then 1 else 0)
    + (if k > TIND_START then 1 + WORDS else if k > DIND_START then 1 + (k - DIND_START + WORDS - 1) / WORDS else 0)
    + (if k > TIND_START then 1 + (k - TIND_START + 65535) / 65536 + (k - TIND_START + WORDS - 1) / WORDS else 0)
  }

  ghost function Total(k: nat): nat {
    k + IndexBlocks(k)
  }

  // The walker after `k` data blocks.
  ghost predicate At(bw: Walker, k: nat) {
    && k <= MAX_DATA && bw.bnum == Total(k)
    && if k == 0 then bw.bpdir == EXT2_INIT_BLOCK
       else if k <= IND_START then bw.bpdir == k - 1
       else if k <= DIND_START then bw.bpdir == EXT2_IND_BLOCK && bw.bpind == k - 1 - IND_START
       else if k <= TIND_START then
         var j := k - 1 - DIND_START;
         bw.bpdir == EXT2_DIND_BLOCK && bw.bpind == j / WORDS && bw.bpdind == j % WORDS
       else
         var j := k - 1 - TIND_START;
         bw.bpdir == EXT2_TIND_BLOCK && bw.bpind == j / 65536 && bw.bpdind == j / WORDS % WORDS && bw.bptind == j % WORDS
  }

  // walk_bw visits the slots in the order of the closed form and counts as it says.
  lemma AdvanceIsClosedForm(bw: Walker, k: nat)
    requires At(bw, k)
    ensures k == MAX_DATA <==> Advance(bw).TooBig?
    ensures k < MAX_DATA ==>
      var m := Advance(bw);
      m.leaf == LeafAt(k) && m.index == FreshAt(k) && At(m.bw.(bnum := m.bw.bnum + 1), k + 1)
  {
    if k <= DIND_START {
    } else if k <= TIND_START {
      AdvanceDouble(bw, k);
    } else {
      AdvanceTriple(bw, k);
    }
  }

  lemma AdvanceDouble(bw: Walker, k: nat)
    requires At(bw, k) && DIND_START < k <= TIND_START
    ensures Advance(bw).Move?
    ensures var m := Advance(bw);
      m.leaf == LeafAt(k) && m.index == FreshAt(k) && At(m.bw.(bnum := m.bw.bnum + 1), k + 1)
  {
    TotalDouble(k);
    var j := k - 1 - DIND_START;
    assert j == 256 * (j / 256) + j % 256;
    if k < TIND_START {
      if j % 256 < 255 {
        assert (j + 1) / 256 == j / 256 && (j + 1) % 256 == j % 256 + 1;
      } else {
        assert (j + 1) / 256 == j / 256 + 1 && (j + 1) % 256 == 0;
      }
    }
  }

  lemma TotalDouble(k: nat)
    requires DIND_START < k <= TIND_START
    ensures Total(k + 1) == Total(k) + 1 + if k == TIND_START then 3 else if (k - DIND_START) % 256 == 0 then 1 else 0
  {
    var j := k - DIND_START;
    assert Total(k) == k + 2 + (j + 255) / 256;
    if k < TIND_START {
      assert Total(k + 1) == k + 3 + (j + 256) / 256;
    }
  }

  // Counting in base 256, three digits.
  lemma Digits(j: nat, a: nat, b: nat, c: nat)
    requires j == 65536 * a + 256 * b + c && b < 256 && c < 256
    ensures j / 65536 == a && j / WORDS % WORDS == b && j % WORDS == c
    ensures j / WORDS == 256 * a + b
    ensures j % 65536 == 0 <==> b == 0 && c == 0
  {
    assert j / 256 == 256 * a + b;
  }

  lemma Ceilings(j: nat, a: nat, b: nat, c: nat)
    requires j == 65536 * a + 256 * b + c && b < 256 && c < 256
    ensures (j + 65535) / 65536 == if b == 0 && c == 0 then a else a + 1
    ensures (j + WORDS - 1) / WORDS == 256 * a + b + if c == 0 then 0 else 1
  {
  }

  lemma Carry(j: nat) returns (a: nat, b: nat, c: nat, a': nat, b': nat, c': nat)
    ensures j == 65536 * a + 256 * b + c && b < 256 && c < 256
    ensures j + 1 == 65536 * a' + 256 * b' + c' && b' < 256 && c' < 256
    ensures if c < 255 then a' == a && b' == b && c' == c + 1
            else if b < 255 then a' == a && b' == b + 1 && c' == 0
            else a' == a + 1 && b' == 0 && c' == 0
  {
    a, b, c := j / 65536, j / 256 % 256, j % 256;
    if c < 255 {
      a', b', c' := a, b, c + 1;
    } else if b < 255 {
      a', b', c' := a, b + 1, 0;
    } else {
      a', b', c' := a + 1, 0, 0;
    }
  }

  lemma AdvanceTriple(bw: Walker, k: nat)
    requires At(bw, k) && TIND_START < k
    ensures k == MAX_DATA <==> Advance(bw).TooBig?
    ensures k < MAX_DATA ==>
      var m := Advance(bw);
      m.leaf == LeafAt(k) && m.index == FreshAt(k) && At(m.bw.(bnum := m.bw.bnum + 1), k + 1)
  {
    hide At, LeafAt, FreshAt, Total;
    AtMost(bw, k);
    var a, b, c, a', b', c' := Carry(k - 1 - TIND_START);
    TripleAt(bw, k, a, b, c);
    TripleLeaf(k, a', b', c');
    TotalTriple(k, a, b, c, a', b', c');
    if k < MAX_DATA {
      var m := Advance(bw);
      TripleAt(m.bw.(bnum := m.bw.bnum + 1), k + 1, a', b', c');
    }
  }

  lemma AtMost(bw: Walker, k: nat)
    requires At(bw, k)
    ensures k <= MAX_DATA
  {
  }

  // The walker and the slots under the triple indirect block, in digits.
  lemma TripleAt(bw: Walker, k: nat, a: nat, b: nat, c: nat)
    requires TIND_START < k <= MAX_DATA && k - 1 - TIND_START == 65536 * a + 256 * b + c && b < 256 && c < 256
    ensures At(bw, k) <==>
      bw.bnum == Total(k) && bw.bpdir == EXT2_TIND_BLOCK && bw.bpind == a && bw.bpdind == b && bw.bptind == c
  {
    hide Total;
    Digits(k - 1 - TIND_START, a, b, c);
  }

  lemma TripleLeaf(k: nat, a: nat, b: nat, c: nat)
    requires TIND_START < k && k - TIND_START == 65536 * a + 256 * b + c && b < 256 && c < 256
    ensures LeafAt(k) == Sub(Sub(Sub(Tind(), a), b), c)
    ensures FreshAt(k) == if c != 0 then [] else if b != 0 then [Sub(Sub(Tind(), a), b)] else [Sub(Tind(), a), Sub(Sub(Tind(), a), 0)]
  {
    Digits(k - TIND_START, a, b, c);
  }

  lemma TotalTriple(k: nat, a: nat, b: nat, c: nat, a': nat, b': nat, c': nat)
    requires TIND_START < k
    requires k - 1 - TIND_START == 65536 * a + 256 * b + c && b < 256 && c < 256
    requires k - TIND_START == 65536 * a' + 256 * b' + c' && b' < 256 && c' < 256
    ensures Total(k + 1) == Total(k) + 1 + if c' != 0 then 0 else if b' != 0 then 1 else 2
  {
    var j := k - TIND_START;
    assert Total(k) == k + 2 + WORDS + 1 + (j + 65535) / 65536 + (j + WORDS - 1) / WORDS;
    Ceilings(j, a', b', c');
    var a1, b1, c1, a2, b2, c2 := Carry(j);
    Ceilings(j + 1, a2, b2, c2);
    Digits(j, a1, b1, c1);
    Digits(j, a', b', c');
  }

  // ---- Which slots are in use ----

  // The data block for which a slot is first needed.
  ghost function FirstUse(p: Path): nat {
    match p
    case Slot(i) => if i <= IND_START then i else if i == EXT2_DIND_BLOCK then DIND_START else TIND_START
    case Sub(Slot(a), i) =>
      if a == EXT2_IND_BLOCK then IND_START + i
      else if a == EXT2_DIND_BLOCK then DIND_START + 256 * i
      else TIND_START + 65536 * i
    case Sub(Sub(Slot(a), i), j) =>
      if a == EXT2_DIND_BLOCK then DIND_START + 256 * i + j else TIND_START + 65536 * i + 256 * j
    case Sub(Sub(Sub(_, i), j), l) => TIND_START + 65536 * i + 256 * j + l
  }

  // The slots that point to index blocks.
  ghost predicate IsIndex(p: Path) {
    match p
    case Slot(i) => i == EXT2_IND_BLOCK || i == EXT2_DIND_BLOCK || i == EXT2_TIND_BLOCK
    case Sub(Slot(a), i) => (a == EXT2_DIND_BLOCK || a == EXT2_TIND_BLOCK) && i < WORDS
    case Sub(Sub(Slot(a), i), j) => a == EXT2_TIND_BLOCK && i < WORDS && j < WORDS
    case _ => false
  }

  ghost function NewAt(k: nat): seq<Path> {
    FreshAt(k) + [LeafAt(k)]
  }

  ghost function Members(s: seq<Path>): set<Path> {
    set p | p in s
  }

  ghost function UsedSet(k: nat): set<Path> {
    if k == 0 then {} else UsedSet(k - 1) + Members(NewAt(k - 1))
  }

  lemma LeafFirstUse(k: nat)
    requires k < MAX_DATA
    ensures FirstUse(LeafAt(k)) == k && !IsIndex(LeafAt(k))
  {
    if TIND_START <= k {
      var a, b, c, _, _, _ := Carry(k - TIND_START);
      Digits(k - TIND_START, a, b, c);
    }
  }

  lemma FreshFirstUse(k: nat, t: nat)
    requires k < MAX_DATA && t < |FreshAt(k)|
    ensures FirstUse(FreshAt(k)[t]) == k && IsIndex(FreshAt(k)[t])
  {
    if TIND_START <= k {
      var a, b, c, _, _, _ := Carry(k - TIND_START);
      Digits(k - TIND_START, a, b, c);
    }
  }

  lemma NewFirstUse(k: nat, t: nat)
    requires k < MAX_DATA && t < |NewAt(k)|
    ensures FirstUse(NewAt(k)[t]) == k && (IsIndex(NewAt(k)[t]) <==> t < |FreshAt(k)|)
  {
    if t < |FreshAt(k)| { FreshFirstUse(k, t); } else { LeafFirstUse(k); }
  }

  lemma {:induction false} UsedBelow(k: nat, p: Path)
    requires k <= MAX_DATA && p in UsedSet(k)
    ensures FirstUse(p) < k
  {
    hide FirstUse, FreshAt, LeafAt, IsIndex;
    var new_ := NewAt(k - 1);
    if p in Members(new_) {
      var t :| 0 <= t < |new_| && new_[t] == p;
      NewFirstUse(k - 1, t);
    } else {
      UsedBelow(k - 1, p);
    }
  }

  lemma FreshListsAll(p: Path)
    requires IsIndex(p)
    ensures p in FreshAt(FirstUse(p)) && FirstUse(p) < MAX_DATA
  {
    match p
    case Slot(i) =>
    case Sub(Slot(a), i) =>
      if a == EXT2_TIND_BLOCK { Digits(65536 * i, i, 0, 0); }
    case Sub(Sub(Slot(a), i), j) =>
      Digits(65536 * i + 256 * j, i, j, 0);
    case Sub(Sub(Sub(_, _), _), _) =>
  }

  lemma {:induction false} IndexUsed(k: nat, p: Path)
    requires IsIndex(p) && FirstUse(p) < k
    ensures p in UsedSet(k)
  {
    if FirstUse(p) == k - 1 {
      FreshListsAll(p);
    } else {
      IndexUsed(k - 1, p);
    }
  }

  lemma {:induction false} LeafUsed(k: nat, j: nat)
    requires j < k
    ensures LeafAt(j) in UsedSet(k)
  {
    if j == k - 1 {
      assert NewAt(j)[|FreshAt(j)|] == LeafAt(j);
    } else {
      LeafUsed(k - 1, j);
    }
  }

  // The new slots form a chain: each lies in the block that the one before points to, and the
  // first lies in the inode or in an index block that is already there.
  lemma NewChain(k: nat, t: nat)
    requires k < MAX_DATA && t < |NewAt(k)|
    ensures var p := NewAt(k)[t];
      && (if p.Slot? then p.i < 15 else p.i < WORDS && IsIndex(p.up))
      && (t > 0 ==> p.Sub? && p.up == NewAt(k)[t - 1])
      && (t == 0 && p.Sub? ==> FirstUse(p.up) < k)
  {
    if TIND_START <= k {
      var a, b, c, _, _, _ := Carry(k - TIND_START);
      Digits(k - TIND_START, a, b, c);
    }
  }

  lemma {:induction false} ChainDistinct(k: nat, t: nat, u: nat)
    requires k < MAX_DATA && t < u < |NewAt(k)|
    ensures Height(NewAt(k)[t]) < Height(NewAt(k)[u])
  {
    NewChain(k, u);
    if t < u - 1 { ChainDistinct(k, t, u - 1); }
  }

  ghost function Height(p: Path): nat {
    if p.Slot? then 0 else 1 + Height(p.up)
  }

  // Each new slot is new and differs from the other new ones.
  lemma NewSlots(k: nat, t: nat)
    requires k < MAX_DATA && t < |NewAt(k)|
    ensures NewAt(k)[t] !in UsedSet(k) && NewAt(k)[t] !in NewAt(k)[..t]
  {
    var new_ := NewAt(k);
    NewFirstUse(k, t);
    if new_[t] in UsedSet(k) { UsedBelow(k, new_[t]); }
    if new_[t] in new_[..t] {
      var u :| 0 <= u < t && new_[..t][u] == new_[t];
      ChainDistinct(k, u, t);
    }
  }

  // It lies in an index block that is already there.
  lemma NewParents(k: nat, t: nat)
    requires k < MAX_DATA && t < |NewAt(k)|
    ensures var p := NewAt(k)[t];
      p.Sub? ==> IsIndex(p.up) && (p.up in UsedSet(k) || p.up in NewAt(k)[..t])
    ensures var p := NewAt(k)[t]; if p.Slot? then p.i < 15 else p.i < WORDS
  {
    var new_ := NewAt(k);
    NewChain(k, t);
    if new_[t].Sub? {
      if t > 0 {
        assert new_[..t][t - 1] == new_[t].up;
      } else {
        IndexUsed(k, new_[t].up);
      }
    }
  }

  // ---- A walk ----

  // init_bw sets two fields only; the others may hold anything.
  predicate Fresh(bw: Walker) {
    bw.bnum == 0 && bw.bpdir == EXT2_INIT_BLOCK
  }

  // The walker after `k` calls that each found a block.
  ghost function Pos(w: Walker, k: nat): Walker {
    if k == 0 then w
    else
      var m := Advance(Pos(w, k - 1));
      if m.TooBig? then w else m.bw.(bnum := m.bw.bnum + 1)
  }

  lemma {:induction false} PosIsClosedForm(w: Walker, k: nat)
    requires Fresh(w) && k <= MAX_DATA
    ensures At(Pos(w, k), k)
  {
    hide Advance, LeafAt, FreshAt;
    if k > 0 {
      PosIsClosedForm(w, k - 1);
      AdvanceIsClosedForm(Pos(w, k - 1), k - 1);
    }
  }

  // walk_bw refines the closed-form index map of ext2.
  lemma WalkStep(w: Walker, k: nat)
    requires Fresh(w) && k <= MAX_DATA
    ensures Pos(w, k).bnum == Total(k)
    ensures Advance(Pos(w, k)).TooBig? <==> k == MAX_DATA
    ensures k < MAX_DATA ==>
      var m := Advance(Pos(w, k));
      m.index == FreshAt(k) && m.leaf == LeafAt(k) && Pos(w, k + 1) == m.bw.(bnum := m.bw.bnum + 1)
  {
    PosIsClosedForm(w, k);
    AdvanceIsClosedForm(Pos(w, k), k);
  }

  lemma TotalStep(k: nat)
    ensures Total(k) < Total(k + 1)
  {
  }

  lemma {:induction false} TotalMono(j: nat, k: nat)
    requires j < k
    ensures Total(j) < Total(k)
  {
    TotalStep(k - 1);
    if j < k - 1 { TotalMono(j, k - 1); }
  }

  // Each step of `Total` is one data block and the index blocks first needed for it.
  lemma TotalCounts(w: Walker, k: nat)
    requires Fresh(w) && k < MAX_DATA
    ensures Total(k + 1) == Total(k) + |NewAt(k)|
  {
    WalkStep(w, k);
    WalkStep(w, k + 1);
    AdvanceCounts(Pos(w, k));
  }

  // `bnum` is advanced by one for every index block entered.
  lemma AdvanceCounts(bw: Walker)
    requires Advance(bw).Move?
    ensures Advance(bw).bw.bnum == bw.bnum + |Advance(bw).index|
  {
  }
}
