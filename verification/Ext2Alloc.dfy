/**
 The bitmap allocator of external/genext2fs/genext2fs.c: allocate, alloc_blk,
 alloc_nod and the part of init_fs that lays out the groups.

 A bitmap block is a sequence of 8192 bits, bit `8*i + j` being bit `j` of byte `i`.
*/
module Ext2Alloc {
  import opened Arith
  import opened Sums
  import opened Basics

  const BITS := 8 * BLOCKSIZE
  const BLOCKS_PER_GROUP := 8192
  const INODES_PER_GROUP := 8192
  const EXT2_FIRST_INO := 11
  const SIZEOF_INODE := 128
  const SIZEOF_GD := 32

  // ---- Counting free bits ----

  ghost function Zeros(b: seq<bool>): nat {
    if b == [] then 0 else Zeros(b[..|b| - 1]) + if b[|b| - 1] then 0 else 1
  }

  lemma {:induction false} ZerosSet(b: seq<bool>, i: nat)
    requires i < |b|
    ensures Zeros(b[i := true]) == Zeros(b) - if b[i] then 0 else 1
  {
    var n := |b| - 1;
    if i == n {
      assert b[i := true][..n] == b[..n];
    } else {
      assert b[i := true][..n] == b[..n][i := true];
      ZerosSet(b[..n], i);
    }
  }

  lemma {:induction false} ZerosNone(b: seq<bool>)
    ensures Zeros(b) == 0 <==> forall i :: 0 <= i < |b| ==> b[i]
  {
    if b != [] {
      ZerosNone(b[..|b| - 1]);
      assert forall i :: 0 <= i < |b| - 1 ==> b[i] == b[..|b| - 1][i];
    }
  }

  // ---- allocate ----

  method Allocate(b: seq<bool>, item: nat) returns (b': seq<bool>, r: nat)
    requires |b| == BITS && item <= BITS
    ensures item != 0 ==> r == item && b' == b[item - 1 := true]
    ensures item == 0 && r == 0 ==> b' == b && forall i :: 0 <= i < BITS ==> b[i]
    ensures item == 0 && r != 0 ==>
      r <= BITS && !b[r - 1] && (forall i :: 0 <= i < r - 1 ==> b[i]) && b' == b[r - 1 := true]
  {
    r := item;
    if r == 0 {
      var i := 0;
      while i < BLOCKSIZE
        invariant 0 <= i <= BLOCKSIZE && r == 0
        invariant forall k :: 0 <= k < 8 * i ==> b[k]
      {
        if false in b[8 * i..8 * i + 8] {
          var j := 0;
          while b[8 * i + j]
            invariant 0 <= j < 8 && false in b[8 * i + j..8 * i + 8]
            invariant forall k :: 0 <= k < 8 * i + j ==> b[k]
            decreases 8 - j
          {
            j := j + 1;
          }
          r := i * 8 + j + 1;
          break;
        }
        assert forall k :: 8 * i <= k < 8 * i + 8 ==> b[k] == b[8 * i..8 * i + 8][k - 8 * i];
        i := i + 1;
      }
      if i == BLOCKSIZE {
        return b, 0;
      }
    }
    b' := b[r - 1 := true];
  }

  // ---- The groups ----

  datatype Group = Group(bbm: seq<bool>, ibm: seq<bool>, freeBlocks: nat, freeInodes: nat)

  // The bitmaps and their counts agree; metadata, reserved and non-existent items are taken.
  ghost predicate GroupOk(g: Group, first: bool, overhead: nat, bpg: nat, ipg: nat) {
    && |g.bbm| == BITS && Zeros(g.bbm) == g.freeBlocks
    && |g.ibm| == BITS && Zeros(g.ibm) == g.freeInodes
    && (forall j :: 0 <= j < overhead && j < BITS ==> g.bbm[j])
    && (forall j :: bpg <= j < BITS ==> g.bbm[j])
    && (forall j :: ipg <= j < BITS ==> g.ibm[j])
    && (first ==> forall j :: 0 <= j < EXT2_FIRST_INO - 1 ==> g.ibm[j])
  }

  ghost function BlockCounts(gs: seq<Group>): seq<nat> {
    seq(|gs|, i requires 0 <= i < |gs| => gs[i].freeBlocks)
  }

  ghost function InodeCounts(gs: seq<Group>): seq<nat> {
    seq(|gs|, i requires 0 <= i < |gs| => gs[i].freeInodes)
  }

  class Allocator {
    const nbblocks: nat
    const overhead: nat
    const bpg: nat
    const ipg: nat
    var groups: seq<Group>
    var freeBlocks: nat
    var freeInodes: nat

    ghost predicate Valid()
      reads this
    {
      && 0 < nbblocks && 0 < bpg && GroupsSeen(nbblocks, bpg) == |groups|
      && groups != [] && overhead <= bpg <= BITS && EXT2_FIRST_INO - 1 <= ipg <= BITS
      && AllOk(groups, overhead, bpg, ipg)
      && Sum(BlockCounts(groups)) == freeBlocks
      && Sum(InodeCounts(groups)) == freeInodes
    }

    // The groups of a fresh filesystem (init_fs, lines 2023-2072, without the root directory).
    // Where the last group has no room for its own metadata, its bitmaps may lie outside the image
    // and the groups seen later may be fewer (UnseenGroup).
    constructor (geo: Geometry)
      requires geo.Sane() && geo.LastGroupRoom()
      ensures Valid() && |groups| == geo.nbgroups && nbblocks == geo.nbblocks
      ensures overhead == geo.overhead && bpg == geo.bpg && ipg == geo.ipg
      ensures freeBlocks == geo.nbblocks - geo.overhead * geo.nbgroups - 1
      ensures freeInodes == geo.ipg * geo.nbgroups - 10
      ensures forall n: nat :: BlockFree(groups, bpg, n) ==> n < geo.nbblocks
    {
      hide GroupsSeen, AllOk, BlockFree, Sum, Times;
      nbblocks, overhead, bpg, ipg := geo.nbblocks, geo.overhead, geo.bpg, geo.ipg;
      AllSeen(geo);
      LayoutRoom(geo);
      TimesIsProduct(geo.nbgroups, geo.ipg);
      var free := geo.nbblocks - geo.overhead * geo.nbgroups - 1;
      var gs := FreshGroups(geo, free);
      forall n: nat | BlockFree(gs, geo.bpg, n) ensures n < geo.nbblocks {
        FreeInside(gs, geo, free, n);
      }
      freeBlocks := free;
      freeInodes := geo.ipg * geo.nbgroups - EXT2_FIRST_INO + 1;
      groups := gs;
    }

    // alloc_blk; `None` is error_msg_and_die.  `nod` must lie in some group.
    method AllocBlk(nod: nat) returns (r: Option<nat>)
      requires Valid() && 1 <= nod && Quot(nod - 1, ipg) < |groups|
      modifies this`groups, this`freeBlocks
      ensures Valid() && |groups| == old(|groups|)
      ensures r.None? <==> old(freeBlocks) == 0
      ensures r.None? ==> groups == old(groups) && freeBlocks == 0
      ensures r.Some? ==> freeBlocks == old(freeBlocks) - 1 && TookBlock(old(groups), groups, overhead, bpg, r.value)
      ensures r.Some? ==> NextBlock(old(groups), Quot(nod - 1, ipg), bpg, r.value)
    {
      var gs;
      var grp := GroupOfInode(nod, ipg);
      r, gs := GrantBlock(groups, GroupsSeen(nbblocks, bpg), grp, freeBlocks, overhead, bpg, ipg);
      if r.Some? {
        groups := gs;
        freeBlocks := freeBlocks - 1;
      }
    }

    // alloc_nod; `None` is error_msg_and_die.
    method AllocNod() returns (r: Option<nat>)
      requires Valid()
      modifies this`groups, this`freeInodes
      ensures Valid() && |groups| == old(|groups|)
      ensures r.None? <==> old(freeInodes) == 0
      ensures r.None? ==> groups == old(groups) && freeInodes == 0
      ensures r.Some? ==> freeInodes == old(freeInodes) - 1 && TookInode(old(groups), groups, ipg, r.value)
      ensures r.Some? ==> r.value >= 11 && NextInode(old(groups), old(freeInodes), ipg, r.value)
    {
      var gs;
      r, gs := GrantInode(groups, GroupsSeen(nbblocks, bpg), freeInodes, overhead, bpg, ipg);
      if r.Some? {
        groups := gs;
        freeInodes := freeInodes - 1;
      }
    }
  }

  // GRP_GROUP_OF_INODE.
  method GroupOfInode(nod: nat, ipg: nat) returns (grp: nat)
    requires 1 <= nod && 0 < ipg
    ensures grp == Quot(nod - 1, ipg)
  {
    QuotIsDiv(nod - 1, ipg);
    grp := (nod - 1) / ipg;
  }

  // GRP_NBGROUPS, which recomputes the number of groups from the superblock.
  function GroupsSeen(nbblocks: nat, bpg: nat): nat
    requires bpg > 0 && nbblocks > 0
  {
    (nbblocks - 1 + bpg - 1) / bpg
  }

  // The block alloc_blk takes: the lowest free one of group `start`, or else of the first group that has
  // one.
  ghost predicate NextBlock(gs: seq<Group>, start: nat, bpg: nat, n: nat) {
    && 1 <= n && 0 < bpg && start < |gs|
    && var g, j := Quot(n - 1, bpg), Rem(n - 1, bpg);
       && g < |gs| && j < |gs[g].bbm| && (forall i :: 0 <= i < j ==> gs[g].bbm[i])
       && (g == start || (gs[start].freeBlocks == 0 && forall k :: 0 <= k < g ==> gs[k].freeBlocks == 0))
  }

  // The inode alloc_nod takes: the lowest free one of the group it chooses.
  ghost predicate NextInode(gs: seq<Group>, freeInodes: nat, ipg: nat, n: nat) {
    && 1 <= n && 0 < ipg && gs != []
    && var g, j := Quot(n - 1, ipg), Rem(n - 1, ipg);
       && Chosen(gs, |gs|, freeInodes / |gs|, g) && j < |gs[g].ibm| && (forall i :: 0 <= i < j ==> gs[g].ibm[i])
  }

  method GrantBlock(gs: seq<Group>, nbgroups: nat, start: nat, freeBlocks: nat, overhead: nat, bpg: nat, ipg: nat)
    returns (r: Option<nat>, gs': seq<Group>)
    requires nbgroups == |gs| && start < |gs| && AllOk(gs, overhead, bpg, ipg) && overhead <= bpg && freeBlocks == Sum(BlockCounts(gs))
    ensures r.None? <==> freeBlocks == 0
    ensures r.Some? ==> AllOk(gs', overhead, bpg, ipg) && TookBlock(gs, gs', overhead, bpg, r.value)
    ensures r.Some? ==> Sum(BlockCounts(gs')) == freeBlocks - 1 && InodeCounts(gs') == InodeCounts(gs)
    ensures r.Some? ==> NextBlock(gs, start, bpg, r.value)
  {
    gs' := gs;
    var grp, b, bk := FindBlock(gs, nbgroups, start);
    if bk == 0 {
      return None, gs;
    }
    TakeBlock(gs, overhead, bpg, ipg, grp, bk);
    if gs[grp].freeBlocks == 0 || freeBlocks == 0 {
      return None, gs;
    }
    gs' := gs[grp := gs[grp].(bbm := b, freeBlocks := gs[grp].freeBlocks - 1)];
    Decode(bpg, grp, bk);
    r := Some(bpg * grp + bk);
  }

  method GrantInode(gs: seq<Group>, nbgroups: nat, freeInodes: nat, overhead: nat, bpg: nat, ipg: nat)
    returns (r: Option<nat>, gs': seq<Group>)
    requires nbgroups == |gs| && gs != [] && AllOk(gs, overhead, bpg, ipg) && EXT2_FIRST_INO - 1 <= ipg && freeInodes == Sum(InodeCounts(gs))
    ensures r.None? <==> freeInodes == 0
    ensures r.Some? ==> AllOk(gs', overhead, bpg, ipg) && TookInode(gs, gs', ipg, r.value) && r.value >= EXT2_FIRST_INO
    ensures r.Some? ==> Sum(InodeCounts(gs')) == freeInodes - 1 && BlockCounts(gs') == BlockCounts(gs)
    ensures r.Some? ==> NextInode(gs, freeInodes, ipg, r.value)
  {
    gs' := gs;
    var best, b, nod := FindInode(gs, nbgroups, freeInodes);
    if nod == 0 {
      return None, gs;
    }
    TakeInode(gs, overhead, bpg, ipg, best, nod);
    if gs[best].freeInodes == 0 || freeInodes == 0 {
      return None, gs;
    }
    gs' := gs[best := gs[best].(ibm := b, freeInodes := gs[best].freeInodes - 1)];
    Decode(ipg, best, nod);
    r := Some(ipg * best + nod);
  }

  lemma Average(n: nat, d: nat)
    requires d > 0
    ensures d * (n / d) <= n
  {
  }

  // alloc_nod's condition on a group.
  ghost predicate Qualifies(g: Group, avefreei: nat) {
    g.freeInodes >= avefreei && g.freeInodes != 0
  }

  // Of the groups behind the first that qualify, the first with the most free blocks; if there are none,
  // group 0.
  ghost predicate Chosen(gs: seq<Group>, nbgroups: nat, avefreei: nat, best: nat) {
    && best < nbgroups <= |gs| && (best != 0 ==> Qualifies(gs[best], avefreei))
    && (forall g :: 0 < g < nbgroups && Qualifies(gs[g], avefreei) ==> best != 0 && gs[g].freeBlocks <= gs[best].freeBlocks)
    && (forall g :: 0 < g < best && Qualifies(gs[g], avefreei) ==> gs[g].freeBlocks < gs[best].freeBlocks)
  }

  // The choice of alloc_nod.  Because `0` also means "none yet", group 0 is only kept when no
  // other group qualifies; among the others the first with the most free blocks wins.
  method BestGroup(gs: seq<Group>, nbgroups: nat, avefreei: nat) returns (best: nat)
    requires 0 < nbgroups <= |gs|
    ensures best < nbgroups && Chosen(gs, nbgroups, avefreei, best)
    ensures (exists g :: 0 <= g < nbgroups && Qualifies(gs[g], avefreei)) ==> Qualifies(gs[best], avefreei)
  {
    best := 0;
    for grp := 0 to nbgroups
      invariant best < nbgroups && best <= grp
      invariant best != 0 ==> Qualifies(gs[best], avefreei)
      invariant forall g :: 0 < g < grp && Qualifies(gs[g], avefreei) ==> best != 0 && gs[g].freeBlocks <= gs[best].freeBlocks
      invariant forall g :: 0 < g < best && Qualifies(gs[g], avefreei) ==> gs[g].freeBlocks < gs[best].freeBlocks
    {
      if gs[grp].freeInodes < avefreei || gs[grp].freeInodes == 0 {
        continue;
      }
      if best == 0 || gs[grp].freeBlocks > gs[best].freeBlocks {
        best := grp;
      }
    }
  }

  // The search of alloc_nod over the groups it sees.  If it sees all, it fails only when no group
  // has a free inode; inodes of groups it does not see are of no use.
  method FindInode(gs: seq<Group>, nbgroups: nat, freeInodes: nat) returns (best: nat, b: seq<bool>, nod: nat)
    requires 0 < nbgroups <= |gs| && forall g :: 0 <= g < |gs| ==> |gs[g].ibm| == BITS && Zeros(gs[g].ibm) == gs[g].freeInodes
    requires freeInodes == Sum(InodeCounts(gs))
    ensures nod != 0 ==> best < nbgroups && Grants(gs[best].ibm, b, nod)
    ensures Chosen(gs, nbgroups, freeInodes / nbgroups, best)
    ensures nbgroups == |gs| ==> (nod == 0 <==> freeInodes == 0)
    ensures (forall g :: 0 <= g < nbgroups ==> gs[g].freeInodes == 0) ==> nod == 0
  {
    best := BestGroup(gs, nbgroups, freeInodes / nbgroups);
    b, nod := Allocate(gs[best].ibm, 0);
    ZerosNone(gs[best].ibm);
    SumAtLeast(InodeCounts(gs), best);
    if freeInodes > 0 && nbgroups == |gs| {
      Average(freeInodes, |gs|);
      ghost var i := NotBelowAverage(InodeCounts(gs), freeInodes / |gs|);
      assert Qualifies(gs[i], freeInodes / |gs|);
    }
  }

  ghost predicate TookInode(gs: seq<Group>, gs': seq<Group>, ipg: nat, n: nat) {
    && 1 <= n && 0 < ipg
    && TookInodeBit(gs, gs', Quot(n - 1, ipg), Rem(n - 1, ipg))
  }

  ghost predicate TookInodeBit(gs: seq<Group>, gs': seq<Group>, g: nat, j: nat) {
    && g < |gs| && j < |gs[g].ibm| && !gs[g].ibm[j] && gs[g].freeInodes > 0
    && gs' == gs[g := gs[g].(ibm := gs[g].ibm[j := true], freeInodes := gs[g].freeInodes - 1)]
  }

  lemma TakeInode(gs: seq<Group>, overhead: nat, bpg: nat, ipg: nat, grp: nat, item: nat)
    requires grp < |gs| && AllOk(gs, overhead, bpg, ipg) && EXT2_FIRST_INO - 1 <= ipg && 1 <= item <= BITS && !gs[grp].ibm[item - 1]
    ensures gs[grp].freeInodes > 0 && ipg * grp + item >= EXT2_FIRST_INO
    ensures var g' := gs[grp].(ibm := gs[grp].ibm[item - 1 := true], freeInodes := gs[grp].freeInodes - 1);
      && AllOk(gs[grp := g'], overhead, bpg, ipg)
      && Sum(InodeCounts(gs[grp := g'])) == Sum(InodeCounts(gs)) - 1
      && BlockCounts(gs[grp := g']) == BlockCounts(gs)
      && TookInode(gs, gs[grp := g'], ipg, ipg * grp + item)
  {
    var g := gs[grp];
    ZerosSet(g.ibm, item - 1);
    var g' := g.(ibm := g.ibm[item - 1 := true], freeInodes := g.freeInodes - 1);
    SumUpdate(InodeCounts(gs), grp, g'.freeInodes);
    CountsUpdate(gs, grp, g');
    Decode(ipg, grp, item);
    if grp > 0 { MulMono(ipg, 1, grp); }
  }

  // ---- What one allocation means for every number ----

  ghost predicate BlockBit(gs: seq<Group>, g: nat, j: nat) {
    g < |gs| && j < |gs[g].bbm| && gs[g].bbm[j]
  }

  ghost predicate InodeBit(gs: seq<Group>, g: nat, j: nat) {
    g < |gs| && j < |gs[g].ibm| && gs[g].ibm[j]
  }

  ghost predicate BlockFree(gs: seq<Group>, bpg: nat, n: nat) {
    && 1 <= n && 0 < bpg && Quot(n - 1, bpg) < |gs|
    && var g, j := gs[Quot(n - 1, bpg)], Rem(n - 1, bpg);
       j < |g.bbm| && !g.bbm[j]
  }

  // GRP_GROUP_OF_BLOCK and GRP_BBM_OFFSET name the bit that stands for block `n`.
  ghost predicate BlockUsed(gs: seq<Group>, bpg: nat, n: nat)
    requires 0 < bpg
  {
    1 <= n && BlockBit(gs, Quot(n - 1, bpg), Rem(n - 1, bpg))
  }

  ghost predicate InodeUsed(gs: seq<Group>, ipg: nat, n: nat)
    requires 0 < ipg
  {
    1 <= n && InodeBit(gs, Quot(n - 1, ipg), Rem(n - 1, ipg))
  }

  lemma BitOnce(gs: seq<Group>, gs': seq<Group>, g: nat, j: nat, g': nat, j': nat)
    requires TookBit(gs, gs', g, j)
    ensures !BlockBit(gs, g, j) && BlockBit(gs', g, j)
    ensures g != g' || j != j' ==> (BlockBit(gs', g', j') <==> BlockBit(gs, g', j'))
  {
  }

  lemma InodeBitOnce(gs: seq<Group>, gs': seq<Group>, g: nat, j: nat, g': nat, j': nat)
    requires TookInodeBit(gs, gs', g, j)
    ensures !InodeBit(gs, g, j) && InodeBit(gs', g, j)
    ensures g != g' || j != j' ==> (InodeBit(gs', g', j') <==> InodeBit(gs, g', j'))
  {
  }

  // A block is handed out once: it was free, it is taken now, and no other block changed hands.
  lemma BlockOnce(gs: seq<Group>, gs': seq<Group>, overhead: nat, bpg: nat, n: nat, other: nat)
    requires TookBlock(gs, gs', overhead, bpg, n)
    ensures !BlockUsed(gs, bpg, n) && BlockUsed(gs', bpg, n)
    ensures other != n ==> (BlockUsed(gs', bpg, other) <==> BlockUsed(gs, bpg, other))
  {
    var g, j := Quot(n - 1, bpg), Rem(n - 1, bpg);
    if 1 <= other && other != n {
      SamePlace(bpg, n - 1, other - 1);
      BitOnce(gs, gs', g, j, Quot(other - 1, bpg), Rem(other - 1, bpg));
    } else {
      BitOnce(gs, gs', g, j, g, j);
    }
  }

  lemma InodeOnce(gs: seq<Group>, gs': seq<Group>, ipg: nat, n: nat, other: nat)
    requires TookInode(gs, gs', ipg, n)
    ensures !InodeUsed(gs, ipg, n) && InodeUsed(gs', ipg, n)
    ensures other != n ==> (InodeUsed(gs', ipg, other) <==> InodeUsed(gs, ipg, other))
  {
    var g, j := Quot(n - 1, ipg), Rem(n - 1, ipg);
    if 1 <= other && other != n {
      SamePlace(ipg, n - 1, other - 1);
      InodeBitOnce(gs, gs', g, j, Quot(other - 1, ipg), Rem(other - 1, ipg));
    } else {
      InodeBitOnce(gs, gs', g, j, g, j);
    }
  }

  // `n` was free and no metadata; now it is taken, and nothing else about the groups changed.
  ghost predicate TookBlock(gs: seq<Group>, gs': seq<Group>, overhead: nat, bpg: nat, n: nat) {
    && 1 <= n && 0 < bpg
    && overhead <= Rem(n - 1, bpg) && TookBit(gs, gs', Quot(n - 1, bpg), Rem(n - 1, bpg))
  }

  ghost predicate TookBit(gs: seq<Group>, gs': seq<Group>, g: nat, j: nat) {
    && g < |gs| && j < |gs[g].bbm| && !gs[g].bbm[j] && gs[g].freeBlocks > 0
    && gs' == gs[g := gs[g].(bbm := gs[g].bbm[j := true], freeBlocks := gs[g].freeBlocks - 1)]
  }

  // The lowest free bit is set.
  ghost predicate Grants(b: seq<bool>, b': seq<bool>, item: nat) {
    1 <= item <= |b| && !b[item - 1] && b' == b[item - 1 := true] && forall i :: 0 <= i < item - 1 ==> b[i]
  }

  ghost predicate AllOk(gs: seq<Group>, overhead: nat, bpg: nat, ipg: nat) {
    forall g :: 0 <= g < |gs| ==> GroupOk(gs[g], g == 0, overhead, bpg, ipg)
  }

  // The search of alloc_blk: the inode's own group, then every group in turn.
  method FindBlock(gs: seq<Group>, nbgroups: nat, start: nat) returns (grp: nat, b: seq<bool>, bk: nat)
    requires start < |gs| && nbgroups <= |gs|
    requires forall g :: 0 <= g < |gs| ==> |gs[g].bbm| == BITS && Zeros(gs[g].bbm) == gs[g].freeBlocks
    ensures bk != 0 ==> grp < |gs| && Grants(gs[grp].bbm, b, bk)
    ensures bk == 0 <==> gs[start].freeBlocks == 0 && forall g :: 0 <= g < nbgroups ==> gs[g].freeBlocks == 0
    ensures nbgroups == |gs| ==> (bk == 0 <==> Sum(BlockCounts(gs)) == 0)
    ensures bk != 0 && grp != start ==> gs[start].freeBlocks == 0 && forall g :: 0 <= g < grp ==> gs[g].freeBlocks == 0
  {
    hide Zeros;
    var g := start;
    b, bk := Allocate(gs[g].bbm, 0);
    ZerosNone(gs[start].bbm);
    if bk == 0 {
      g := 0;
      while g < nbgroups && bk == 0
        invariant 0 <= g <= nbgroups && (bk == 0 ==> forall k :: 0 <= k < g ==> gs[k].freeBlocks == 0)
        invariant bk != 0 ==> 1 <= g && Grants(gs[g - 1].bbm, b, bk) && forall k :: 0 <= k < g - 1 ==> gs[k].freeBlocks == 0
        invariant bk != 0 ==> gs[g - 1].freeBlocks != 0
        decreases nbgroups - g
      {
        b, bk := Allocate(gs[g].bbm, 0);
        ZerosNone(gs[g].bbm);
        g := g + 1;
      }
      g := g - 1;
    }
    if bk == 0 {
      grp := 0;
      if nbgroups == |gs| { AllFull(gs); }
    } else {
      grp := g;
      ZerosNone(gs[grp].bbm);
      SumAtLeast(BlockCounts(gs), grp);
    }
  }

  // Taking a free block out of one group keeps every count right.
  lemma TakeBlock(gs: seq<Group>, overhead: nat, bpg: nat, ipg: nat, grp: nat, item: nat)
    requires grp < |gs| && AllOk(gs, overhead, bpg, ipg) && overhead <= bpg && 1 <= item <= BITS && !gs[grp].bbm[item - 1]
    ensures gs[grp].freeBlocks > 0
    ensures overhead < item <= bpg
    ensures var g' := gs[grp].(bbm := gs[grp].bbm[item - 1 := true], freeBlocks := gs[grp].freeBlocks - 1);
      && AllOk(gs[grp := g'], overhead, bpg, ipg)
      && Sum(BlockCounts(gs[grp := g'])) == Sum(BlockCounts(gs)) - 1
      && InodeCounts(gs[grp := g']) == InodeCounts(gs)
      && TookBlock(gs, gs[grp := g'], overhead, bpg, bpg * grp + item)
  {
    var g := gs[grp];
    ZerosSet(g.bbm, item - 1);
    var g' := g.(bbm := g.bbm[item - 1 := true], freeBlocks := g.freeBlocks - 1);
    SumUpdate(BlockCounts(gs), grp, g'.freeBlocks);
    CountsUpdate(gs, grp, g');
    Decode(bpg, grp, item);
  }

  lemma {:induction false} AllFull(gs: seq<Group>)
    requires forall g :: 0 <= g < |gs| ==> gs[g].freeBlocks == 0
    ensures Sum(BlockCounts(gs)) == 0
  {
    if gs != [] {
      AllFull(gs[..|gs| - 1]);
      assert BlockCounts(gs)[..|gs| - 1] == BlockCounts(gs[..|gs| - 1]);
    }
  }

  lemma CountsUpdate(gs: seq<Group>, i: nat, g: Group)
    requires i < |gs|
    ensures BlockCounts(gs[i := g]) == BlockCounts(gs)[i := g.freeBlocks]
    ensures InodeCounts(gs[i := g]) == InodeCounts(gs)[i := g.freeInodes]
  {
  }

  // An item of a group, numbered as alloc_blk and alloc_nod number it, decodes to itself.
  lemma Decode(per: nat, grp: nat, item: nat)
    requires 1 <= item <= per
    ensures Quot(per * grp + item - 1, per) == grp && Rem(per * grp + item - 1, per) == item - 1
  {
    TimesIsProduct(grp, per);
    QuotOf(grp, per, item - 1);
  }

  // ---- init_fs: the layout ----

  function RoundUp(qty: nat, siz: nat): nat
    requires siz > 0
  {
    (qty + siz - 1) / siz * siz
  }

  datatype Geometry = Geometry(nbblocks: nat, nbgroups: nat, bpg: nat, ipg: nat, gdsz: nat, itblsz: nat, overhead: nat) {
    ghost predicate Sizes() {
      0 < nbgroups && overhead <= bpg <= BITS && 16 <= ipg <= BITS && overhead == 3 + gdsz + itblsz
    }

    // What the layout guarantees for every accepted request.
    ghost predicate Sane() {
      && Sizes()
      && overhead * nbgroups + 1 <= nbblocks <= 1 + bpg * nbgroups
    }

    // The last group reaches at least to the end of its own inode table.
    ghost predicate LastGroupRoom() {
      bpg * (nbgroups - 1) + overhead <= nbblocks - 1
    }

    // The block bitmap of group `g`.
    function BitmapBlock(g: nat): nat {
      gdsz + 2 + bpg * g
    }

    // One past the last block of the inode table of group `g`.
    function TableEnd(g: nat): nat {
      gdsz + 4 + bpg * g + itblsz
    }
  }

  // Items per group, rounded up to a multiple of 8.
  function PerGroup(total: nat, nbgroups: nat): nat
    requires nbgroups > 0
  {
    RoundUp((total + nbgroups - 1) / nbgroups, 8)
  }

  function GroupCount(nbblocks: nat, nbinodes: nat): nat
    requires nbblocks >= 2
  {
    var byInodes := (nbinodes + INODES_PER_GROUP - 1) / INODES_PER_GROUP;
    var byBlocks := (nbblocks - 1 + BLOCKS_PER_GROUP - 1) / BLOCKS_PER_GROUP;
    if byBlocks < byInodes then byInodes else byBlocks
  }

  function MakeGeometry(nbblocks: nat, nbinodes: nat): Geometry
    requires nbblocks >= 2
  {
    var nbgroups := GroupCount(nbblocks, nbinodes);
    var ipg := PerGroup(nbinodes, nbgroups);
    var ipg := if ipg < 16 then 16 else ipg;
    var gdsz := RoundUp(nbgroups * SIZEOF_GD, BLOCKSIZE) / BLOCKSIZE;
    var itblsz := ipg * SIZEOF_INODE / BLOCKSIZE;
    Geometry(nbblocks, nbgroups, PerGroup(nbblocks - 1, nbgroups), ipg, gdsz, itblsz, 3 + gdsz + itblsz)
  }

  function Layout(nbblocks: int, nbinodes: int, nbresrvd: int): Option<Geometry> {
    if nbresrvd < 0 then None
    else if nbinodes < EXT2_FIRST_INO - 1 + (if nbresrvd != 0 then 1 else 0) then None
    else if nbblocks < 8 then None
    else
      var geo := MakeGeometry(nbblocks, nbinodes);
      if nbblocks - 1 < geo.overhead * geo.nbgroups then None else Some(geo)
  }

  lemma CeilDiv(a: nat, d: nat, cap: nat)
    requires d > 0 && a <= d * cap
    ensures (a + d - 1) / d <= cap && a <= d * ((a + d - 1) / d)
  {
    var q := (a + d - 1) / d;
    assert d * q <= a + d - 1 < d * q + d;
    if cap < q { MulMono(d, cap + 1, q); }
  }

  lemma RoundUp8(x: nat, cap: nat)
    requires x <= cap && cap % 8 == 0
    ensures x <= RoundUp(x, 8) <= cap
  {
  }

  lemma CeilAtLeast(a: nat, d: nat, low: nat)
    requires d > 0 && low * d <= a
    ensures low <= (a + d - 1) / d
  {
    var q := (a + d - 1) / d;
    assert a + d - 1 < d * q + d;
    if q < low { MulMono(d, q + 1, low); }
  }

  lemma LayoutSane(nbblocks: int, nbinodes: int, nbresrvd: int)
    requires Layout(nbblocks, nbinodes, nbresrvd).Some?
    ensures Layout(nbblocks, nbinodes, nbresrvd).value.Sane()
  {
    var geo := MakeGeometry(nbblocks, nbinodes);
    EnoughGroups(nbblocks, nbinodes);
    SaneSizes(nbblocks - 1, geo.nbgroups, geo.overhead);
    SaneSizes(nbinodes, geo.nbgroups, 0);
  }

  // What init_fs makes of a request: as few groups as 8192 blocks and inodes to a group allow, their
  // sizes the least multiples of 8 that suffice, with at least 16 inodes; 32 bytes to a descriptor and
  // 128 to an inode, in blocks of 1024.
  ghost predicate GeometryIs(geo: Geometry, nbblocks: nat, nbinodes: nat) {
    && geo.nbblocks == nbblocks && 0 < geo.nbgroups
    && nbblocks - 1 <= 8192 * geo.nbgroups && nbinodes <= 8192 * geo.nbgroups
    && (8192 * (geo.nbgroups - 1) < nbblocks - 1 || 8192 * (geo.nbgroups - 1) < nbinodes)
    && geo.bpg % 8 == 0 && geo.nbgroups * (geo.bpg - 8) < nbblocks - 1 <= geo.nbgroups * geo.bpg
    && geo.ipg % 8 == 0 && 16 <= geo.ipg && nbinodes <= geo.nbgroups * geo.ipg
    && (geo.ipg == 16 || geo.nbgroups * (geo.ipg - 8) < nbinodes)
    && 32 * geo.nbgroups <= 1024 * geo.gdsz < 32 * geo.nbgroups + 1024
    && 1024 * geo.itblsz == 128 * geo.ipg && geo.overhead == 3 + geo.gdsz + geo.itblsz
  }

  // A request is refused exactly if it asks for too little, or the overhead of the groups exceeds the
  // blocks.
  lemma LayoutMeans(nbblocks: int, nbinodes: int, nbresrvd: int)
    ensures Layout(nbblocks, nbinodes, nbresrvd).None? <==>
      nbresrvd < 0 || nbblocks < 8 || nbinodes < (if nbresrvd > 0 then 11 else 10) ||
      var geo := MakeGeometry(nbblocks, nbinodes); nbblocks - 1 < geo.overhead * geo.nbgroups
    ensures nbblocks >= 8 && nbinodes >= 10 ==> GeometryIs(MakeGeometry(nbblocks, nbinodes), nbblocks, nbinodes)
    ensures Layout(nbblocks, nbinodes, nbresrvd).Some? ==> Layout(nbblocks, nbinodes, nbresrvd).value == MakeGeometry(nbblocks, nbinodes)
  {
    hide MakeGeometry, GeometryIs;
    if nbblocks >= 8 && nbinodes >= 10 { GeometryMeans(nbblocks, nbinodes); }
  }

  lemma GeometryMeans(nbblocks: nat, nbinodes: nat)
    requires nbblocks >= 8 && nbinodes >= 10
    ensures GeometryIs(MakeGeometry(nbblocks, nbinodes), nbblocks, nbinodes)
  {
    hide PerGroup, GroupCount, RoundUp;
    var n := GroupCount(nbblocks, nbinodes);
    FewGroups(nbblocks, nbinodes);
    var ipg := PerGroup(nbinodes, n);
    LeastPerGroup(nbblocks - 1, n);
    LeastPerGroup(nbinodes, n);
    WholeBlocks(32 * n);
    InodeBlocks(if ipg < 16 then 16 else ipg);
    if ipg < 16 { MulMono(n, ipg, 16); }
  }

  lemma WholeBlocks(x: nat)
    ensures x <= 1024 * (RoundUp(x, BLOCKSIZE) / BLOCKSIZE) < x + 1024
  {
    var q := (x + 1023) / 1024;
    assert RoundUp(x, BLOCKSIZE) == q * 1024;
    assert q * 1024 / 1024 == q;
  }

  lemma InodeBlocks(ipg: nat)
    requires ipg % 8 == 0
    ensures 1024 * (ipg * SIZEOF_INODE / BLOCKSIZE) == 128 * ipg
  {
    DivUnique(ipg * 128, 1024, ipg / 8, 0);
  }

  lemma FewGroups(nbblocks: nat, nbinodes: nat)
    requires nbblocks >= 2
    ensures var n := GroupCount(nbblocks, nbinodes);
      && 0 < n && nbblocks - 1 <= 8192 * n && nbinodes <= 8192 * n
      && (8192 * (n - 1) < nbblocks - 1 || 8192 * (n - 1) < nbinodes)
  {
  }

  lemma LeastPerGroup(total: nat, n: nat)
    requires 0 < n && 0 < total
    ensures PerGroup(total, n) % 8 == 0 && n * (PerGroup(total, n) - 8) < total <= n * PerGroup(total, n)
  {
    hide RoundUp;
    var c := (total + n - 1) / n;
    Ceiling(total, n);
    Eights(c);
    MulMono(n, c, RoundUp(c, 8));
    MulMono(n, RoundUp(c, 8) - 8, c - 1);
  }

  lemma Ceiling(total: nat, n: nat)
    requires 0 < n && 0 < total
    ensures var c := (total + n - 1) / n; 0 < c && n * (c - 1) < total <= n * c
  {
    var c := (total + n - 1) / n;
    assert total + n - 1 == n * c + (total + n - 1) % n;
    assert n * (c - 1) == n * c - n;
  }

  lemma Eights(c: nat)
    requires c > 0
    ensures RoundUp(c, 8) % 8 == 0 && 8 <= RoundUp(c, 8) && c <= RoundUp(c, 8) < c + 8
  {
  }

  lemma EnoughGroups(nbblocks: nat, nbinodes: nat)
    requires nbblocks >= 2
    ensures var n := GroupCount(nbblocks, nbinodes);
      0 < n && nbblocks - 1 <= n * BLOCKS_PER_GROUP && nbinodes <= n * INODES_PER_GROUP
  {
  }

  lemma SaneSizes(total: nat, n: nat, overhead: nat)
    requires 0 < n && total <= n * BITS && overhead * n <= total
    ensures overhead <= PerGroup(total, n) <= BITS && total <= PerGroup(total, n) * n
  {
    CeilDiv(total, n, BITS);
    CeilAtLeast(total, n, overhead);
    RoundUp8((total + n - 1) / n, BITS);
    MulMono(n, (total + n - 1) / n, PerGroup(total, n));
  }

  // The metadata of every group, which is its bitmaps and inode table behind a superblock and the
  // descriptors, lies inside the image exactly when the last group has room.
  lemma MetadataInside(geo: Geometry)
    requires geo.Sane()
    ensures forall g: nat :: geo.BitmapBlock(g) == 1 + geo.bpg * g + (1 + geo.gdsz) && geo.TableEnd(g) == 1 + geo.bpg * g + geo.overhead
    ensures (forall g: nat :: g < geo.nbgroups ==> geo.TableEnd(g) <= geo.nbblocks) <==> geo.LastGroupRoom()
  {
    if geo.LastGroupRoom() {
      forall g: nat | g < geo.nbgroups ensures geo.TableEnd(g) <= geo.nbblocks {
        MulMono(geo.bpg, g, geo.nbgroups - 1);
      }
    } else {
      assert geo.TableEnd(geo.nbgroups - 1) > geo.nbblocks;
    }
  }

  // Later all groups are seen exactly when the last one has any block at all.
  lemma AllSeen(geo: Geometry)
    requires geo.Sane()
    ensures geo.bpg > 0 && (GroupsSeen(geo.nbblocks, geo.bpg) == geo.nbgroups <==> geo.bpg * (geo.nbgroups - 1) < geo.nbblocks - 1)
    ensures geo.LastGroupRoom() ==> GroupsSeen(geo.nbblocks, geo.bpg) == geo.nbgroups
  {
    var n, d, a := geo.nbgroups, geo.bpg, geo.nbblocks - 1;
    var q := (a + d - 1) / d;
    assert d * q <= a + d - 1;
    assert d * n == d * (n - 1) + d;
    if d * (n - 1) < a { DivUnique(a + d - 1, d, n, a + d - 1 - d * n); }
  }

  // The overhead test of init_fs does not imply that room: it accepts 2058 blocks with 16384
  // inodes, whose second inode table ends at block 2061, and has one block free for the root.
  lemma AcceptedWithoutRoom()
    ensures var r := Layout(2058, 16384, 0);
      && r.Some? && !r.value.LastGroupRoom() && r.value.TableEnd(1) > 2058
      && r.value.nbblocks - r.value.overhead * r.value.nbgroups - 1 == 1
  {
    assert GroupCount(2058, 16384) == 2;
    assert PerGroup(2057, 2) == 1032 && PerGroup(16384, 2) == 8192;
    assert MakeGeometry(2058, 16384) == Geometry(2058, 2, 1032, 8192, 1, 1024, 1028);
  }

  // It also accepts a request for which alloc_blk and alloc_nod see 149 of the 150 groups, and the
  // block bitmap of the last is outside the image.
  lemma UnseenGroup()
    ensures var r := Layout(154951, 1228800, 0);
      && r.Some? && r.value.nbgroups == 150 && r.value.bpg > 0 && GroupsSeen(154951, r.value.bpg) == 149
      && r.value.BitmapBlock(149) >= 154951 && r.value.ipg == 8192
  {
    assert GroupCount(154951, 1228800) == 150;
    assert PerGroup(154950, 150) == 1040 && PerGroup(1228800, 150) == 8192;
    assert MakeGeometry(154951, 1228800) == Geometry(154951, 150, 1040, 8192, 5, 1024, 1032);
  }

  // There, once the groups that are seen are used up, the inodes of the last one are still counted as
  // free, and FindInode finds none.
  lemma {:induction false} UnseenInodes(gs: seq<Group>)
    requires gs != [] && forall g :: 0 <= g < |gs| - 1 ==> gs[g].freeInodes == 0
    ensures Sum(InodeCounts(gs)) == gs[|gs| - 1].freeInodes
  {
    var n := |gs| - 1;
    assert InodeCounts(gs)[..n] == InodeCounts(gs[..n]);
    if n > 0 { UnseenInodes(gs[..n]); }
  }

  // ---- init_fs: the bitmaps ----

  lemma {:induction false} ZerosWindow(b: seq<bool>, lo: nat, hi: nat)
    requires lo <= hi && forall i :: 0 <= i < |b| ==> (b[i] <==> i < lo || hi <= i)
    ensures Zeros(b) == (if |b| <= lo then 0 else if |b| <= hi then |b| - lo else hi - lo)
  {
    if b != [] {
      ZerosWindow(b[..|b| - 1], lo, hi);
    }
  }

  // The marking loops of init_fs: items `from` to `to`.
  method Mark(b0: seq<bool>, from: nat, to: nat) returns (b: seq<bool>)
    requires |b0| == BITS && 1 <= from && to <= BITS
    ensures |b| == BITS && forall i :: 0 <= i < BITS ==> (b[i] <==> b0[i] || from - 1 <= i < to)
  {
    b := b0;
    var j := from;
    while j <= to
      invariant from <= j && (if from <= to then j <= to + 1 else j == from)
      invariant |b| == BITS && forall i :: 0 <= i < BITS ==> (b[i] <==> b0[i] || from - 1 <= i < j - 1)
    {
      var r;
      b, r := Allocate(b, j);
      j := j + 1;
    }
    assert from <= to ==> j - 1 == to;
  }

  method FreshGroup(geo: Geometry, first: bool, count: nat, freeInodes: nat) returns (g: Group)
    requires geo.Sizes() && count <= geo.bpg - geo.overhead
    requires freeInodes == geo.ipg - if first then EXT2_FIRST_INO - 1 else 0
    ensures GroupOk(g, first, geo.overhead, geo.bpg, geo.ipg)
    ensures g.freeBlocks == count && g.freeInodes == freeInodes
    ensures |g.bbm| == BITS && forall j :: 0 <= j < BITS && !g.bbm[j] ==> j < geo.overhead + count
  {
    var bbm, ibm := seq(BITS, _ => false), seq(BITS, _ => false);
    bbm := Mark(bbm, count + geo.overhead + 1, BITS);
    bbm := Mark(bbm, 1, geo.overhead);
    ZerosWindow(bbm, geo.overhead, geo.overhead + count);
    ibm := Mark(ibm, geo.ipg + 1, BITS);
    if first {
      ibm := Mark(ibm, 1, EXT2_FIRST_INO - 1);
    }
    ZerosWindow(ibm, if first then EXT2_FIRST_INO - 1 else 0, geo.ipg);
    g := Group(bbm, ibm, count, freeInodes);
  }

  lemma LayoutRoom(geo: Geometry)
    requires geo.Sane()
    ensures 0 <= geo.nbblocks - geo.overhead * geo.nbgroups - 1 <= Times(geo.nbgroups, geo.bpg - geo.overhead)
  {
    TimesIsProduct(geo.nbgroups, geo.bpg - geo.overhead);
    assert geo.nbgroups * (geo.bpg - geo.overhead) == geo.bpg * geo.nbgroups - geo.overhead * geo.nbgroups;
  }

  // The group descriptor loop of init_fs, blocks: full groups first, then what is left.
  method BlockShares(n: nat, full: nat, total: nat) returns (blocks: seq<nat>)
    requires total <= Times(n, full)
    ensures |blocks| == n && Sum(blocks) == total
    ensures forall i :: 0 <= i < n ==> blocks[i] <= full && (blocks[i] > 0 ==> Times(i, full) + blocks[i] <= total)
  {
    var free: nat := total;
    blocks := [];
    for i := 0 to n
      invariant |blocks| == i && Sum(blocks) + free == total && free <= Times(n - i, full)
      invariant free > 0 ==> Sum(blocks) == Times(i, full)
      invariant forall k :: 0 <= k < i ==> blocks[k] <= full && (blocks[k] > 0 ==> Times(k, full) + blocks[k] <= total)
    {
      var count := if free > full then full else free;
      assert Times(n - i, full) == Times(n - (i + 1), full) + full;
      assert Times(i + 1, full) == Times(i, full) + full;
      free := free - count;
      SumAppend(blocks, count);
      blocks := blocks + [count];
    }
  }

  // The same loop, inodes: group 0 loses the reserved ones.
  method InodeShares(n: nat, ipg: nat) returns (inodes: seq<nat>)
    requires n > 0 && ipg >= 16
    ensures |inodes| == n
    ensures forall i :: 0 <= i < n ==> inodes[i] == ipg - if i == 0 then EXT2_FIRST_INO - 1 else 0
    ensures Sum(inodes) == Times(n, ipg) - (EXT2_FIRST_INO - 1)
  {
    inodes := [];
    for i := 0 to n
      invariant |inodes| == i
      invariant forall k :: 0 <= k < i ==> inodes[k] == ipg - if k == 0 then EXT2_FIRST_INO - 1 else 0
      invariant Sum(inodes) == if i == 0 then 0 else Times(i, ipg) - (EXT2_FIRST_INO - 1)
    {
      var count := if i != 0 then ipg else ipg - EXT2_FIRST_INO + 2 - 1;
      SumAppend(inodes, count);
      inodes := inodes + [count];
    }
  }

  // Group `k` has free blocks only once the groups before it are full, and right behind its
  // metadata.
  ghost predicate FillsUpTo(g: Group, k: nat, geo: Geometry, total: nat)
    requires geo.overhead <= geo.bpg
  {
    forall j :: 0 <= j < |g.bbm| && !g.bbm[j] ==>
      j < geo.overhead + g.freeBlocks && Times(k, geo.bpg - geo.overhead) + g.freeBlocks <= total
  }

  lemma Fills(g: Group, k: nat, geo: Geometry, total: nat)
    requires geo.overhead <= geo.bpg && GroupOk(g, k == 0, geo.overhead, geo.bpg, geo.ipg)
    requires forall j :: 0 <= j < |g.bbm| && !g.bbm[j] ==> j < geo.overhead + g.freeBlocks
    requires g.freeBlocks > 0 ==> Times(k, geo.bpg - geo.overhead) + g.freeBlocks <= total
    ensures FillsUpTo(g, k, geo, total)
  {
    hide Times;
    forall j | 0 <= j < |g.bbm| && !g.bbm[j] ensures g.freeBlocks > 0 {
    }
  }

  // The bitmap loop of init_fs.
  method FreshGroups(geo: Geometry, total: nat) returns (gs: seq<Group>)
    requires geo.Sizes() && total <= Times(geo.nbgroups, geo.bpg - geo.overhead)
    ensures |gs| == geo.nbgroups && AllOk(gs, geo.overhead, geo.bpg, geo.ipg)
    ensures Sum(BlockCounts(gs)) == total
    ensures Sum(InodeCounts(gs)) == Times(geo.nbgroups, geo.ipg) - (EXT2_FIRST_INO - 1)
    ensures forall k :: 0 <= k < |gs| ==> FillsUpTo(gs[k], k, geo, total)
  {
    hide Sum, Times, GroupOk, FillsUpTo;
    var blocks := BlockShares(geo.nbgroups, geo.bpg - geo.overhead, total);
    var inodes := InodeShares(geo.nbgroups, geo.ipg);
    gs := [];
    for i := 0 to geo.nbgroups
      invariant |gs| == i && AllOk(gs, geo.overhead, geo.bpg, geo.ipg)
      invariant forall k :: 0 <= k < i ==> gs[k].freeBlocks == blocks[k] && gs[k].freeInodes == inodes[k]
      invariant forall k :: 0 <= k < i ==> FillsUpTo(gs[k], k, geo, total)
    {
      var g := FreshGroup(geo, i == 0, blocks[i], inodes[i]);
      Fills(g, i, geo, total);
      gs := gs + [g];
    }
    assert BlockCounts(gs) == blocks;
    assert InodeCounts(gs) == inodes;
  }

  // Every free block of a fresh filesystem lies inside the image.
  lemma FreeInside(gs: seq<Group>, geo: Geometry, total: nat, n: nat)
    requires geo.Sizes() && |gs| == geo.nbgroups && BlockFree(gs, geo.bpg, n)
    requires forall k :: 0 <= k < |gs| ==> FillsUpTo(gs[k], k, geo, total)
    requires total == geo.nbblocks - geo.overhead * geo.nbgroups - 1
    ensures n < geo.nbblocks
  {
    hide Times, Quot, Rem;
    var k, j := Quot(n - 1, geo.bpg), Rem(n - 1, geo.bpg);
    QuotRem(n - 1, geo.bpg);
    assert FillsUpTo(gs[k], k, geo, total);
    assert !gs[k].bbm[j];
    Overheads(geo);
    GroupsBefore(k, geo.bpg, geo.overhead, geo.nbgroups);
  }

  lemma Overheads(geo: Geometry)
    ensures geo.overhead * geo.nbgroups == Times(geo.nbgroups, geo.overhead)
  {
    TimesIsProduct(geo.nbgroups, geo.overhead);
  }

  // The blocks of the groups before `k`: their free ones, and no more overhead than all groups have.
  lemma GroupsBefore(k: nat, bpg: nat, overhead: nat, nbgroups: nat)
    requires k < nbgroups && overhead <= bpg
    ensures Times(k, bpg) + overhead <= Times(k, bpg - overhead) + Times(nbgroups, overhead)
  {
    TimesSplit(k, bpg - overhead, overhead);
    assert Times(k, overhead) + overhead == Times(k + 1, overhead);
    TimesMono(k + 1, nbgroups, overhead);
  }

  // Allocating a block does not touch the inodes.
  ghost predicate SameInodes(gs: seq<Group>, gs': seq<Group>) {
    |gs'| == |gs| && forall g :: 0 <= g < |gs| ==> gs'[g].ibm == gs[g].ibm && gs'[g].freeInodes == gs[g].freeInodes
  }

  lemma BlockKeepsInodes(gs: seq<Group>, gs': seq<Group>, overhead: nat, bpg: nat, b: nat)
    requires TookBlock(gs, gs', overhead, bpg, b)
    ensures SameInodes(gs, gs')
  {
  }

  lemma SameInodesRefl(gs: seq<Group>)
    ensures SameInodes(gs, gs)
  {
  }

  lemma SameInodesTrans(a: seq<Group>, b: seq<Group>, c: seq<Group>)
    requires SameInodes(a, b) && SameInodes(b, c)
    ensures SameInodes(a, c)
  {
  }

  lemma SameInodesUsed(gs: seq<Group>, gs': seq<Group>, ipg: nat, n: nat)
    requires SameInodes(gs, gs') && 0 < ipg
    ensures InodeUsed(gs', ipg, n) <==> InodeUsed(gs, ipg, n)
  {
  }

  // Allocating an inode does not touch the blocks.
  lemma InodeKeepsBlocks(gs: seq<Group>, gs': seq<Group>, ipg: nat, bpg: nat, nod: nat, b: nat)
    requires TookInode(gs, gs', ipg, nod) && 0 < bpg
    ensures (BlockUsed(gs', bpg, b) <==> BlockUsed(gs, bpg, b)) && (BlockFree(gs', bpg, b) <==> BlockFree(gs, bpg, b))
  {
  }

  // ---- Whole runs ----

  datatype Grant = BlockGrant(n: nat) | InodeGrant(n: nat)

  ghost predicate Granted(gs: seq<Group>, gs': seq<Group>, g: Grant, overhead: nat, bpg: nat, ipg: nat) {
    match g
    case BlockGrant(n) => TookBlock(gs, gs', overhead, bpg, n)
    case InodeGrant(n) => TookInode(gs, gs', ipg, n)
  }

  ghost predicate Run(states: seq<seq<Group>>, grants: seq<Grant>, overhead: nat, bpg: nat, ipg: nat) {
    && |states| == |grants| + 1 && 0 < bpg && 0 < ipg
    && forall i :: 0 <= i < |grants| ==> Granted(states[i], states[i + 1], grants[i], overhead, bpg, ipg)
  }

  // What is taken stays taken.
  lemma StaysTaken(gs: seq<Group>, gs': seq<Group>, g: Grant, overhead: nat, bpg: nat, ipg: nat, n: nat)
    requires 0 < bpg && 0 < ipg && Granted(gs, gs', g, overhead, bpg, ipg)
    ensures BlockUsed(gs, bpg, n) ==> BlockUsed(gs', bpg, n)
    ensures InodeUsed(gs, ipg, n) ==> InodeUsed(gs', ipg, n)
  {
    match g
    case BlockGrant(m) => BlockOnce(gs, gs', overhead, bpg, m, n);
    case InodeGrant(m) => InodeOnce(gs, gs', ipg, m, n);
  }

  lemma {:induction false} TakenLater(states: seq<seq<Group>>, grants: seq<Grant>, overhead: nat, bpg: nat, ipg: nat, i: nat, j: nat)
    requires Run(states, grants, overhead, bpg, ipg) && i < j < |states|
    ensures grants[i].BlockGrant? ==> BlockUsed(states[j], bpg, grants[i].n)
    ensures grants[i].InodeGrant? ==> InodeUsed(states[j], ipg, grants[i].n)
  {
    if j == i + 1 {
      match grants[i]
      case BlockGrant(m) => BlockOnce(states[i], states[j], overhead, bpg, m, m);
      case InodeGrant(m) => InodeOnce(states[i], states[j], ipg, m, m);
    } else {
      TakenLater(states, grants, overhead, bpg, ipg, i, j - 1);
      StaysTaken(states[j - 1], states[j], grants[j - 1], overhead, bpg, ipg, grants[i].n);
    }
  }

  // In no run is a block or an inode handed out twice.
  lemma NeverTwice(states: seq<seq<Group>>, grants: seq<Grant>, overhead: nat, bpg: nat, ipg: nat, i: nat, j: nat)
    requires Run(states, grants, overhead, bpg, ipg) && i < j < |grants|
    ensures grants[i] != grants[j]
  {
    TakenLater(states, grants, overhead, bpg, ipg, i, j);
    match grants[j]
    case BlockGrant(m) => BlockOnce(states[j], states[j + 1], overhead, bpg, m, m);
    case InodeGrant(m) => InodeOnce(states[j], states[j + 1], ipg, m, m);
  }
}
