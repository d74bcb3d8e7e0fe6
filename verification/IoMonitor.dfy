/**
 The matcher of issue and completion traces in external/blktrace/blkiomon.c
 (lines 308-429, driven by blkiomon_do_fifo, lines 451-524) and its histograms
 (external/blktrace/stats.h, lines 45-54 and 103-121).

 Trace objects have identities, so that it can be said who owns them: the hash
 table, the list of vacant traces, the reader, or nobody (freed).  The statistics
 are those of one interval.
*/
module IoMonitor {
  import opened Sums

  const TRACE_HASH_SIZE := 128
  const MAX_VACANT := 256

  // The action bits that count here: the class, and issue or completion.
  datatype Class = Class(read: bool, write: bool, fs: bool, pc: bool)

  datatype Bit = Bit(device: nat, sector: nat, cls: Class, issue: bool, complete: bool, time: nat, bytes: nat)

  datatype Obj = Obj(id: nat, bit: Bit)

  type Table = seq<seq<Obj>>

  // What blkiomon_fetch_trace compares.
  ghost predicate SameKey(a: Bit, b: Bit) {
    a.device == b.device && a.sector == b.sector && a.cls == b.cls
  }

  // ---- The table ----

  ghost predicate TableOk(t: Table) {
    && |t| == 128
    && (forall i, k :: 0 <= i < |t| && 0 <= k < |t[i]| ==> t[i][k].bit.sector % 128 == i)
    && (forall i, k, l :: 0 <= i < |t| && 0 <= k < l < |t[i]| ==> !SameKey(t[i][k].bit, t[i][l].bit))
  }

  // At most one trace per device, sector and class in the whole table.
  lemma OnePerKey(t: Table, i: nat, k: nat, j: nat, l: nat)
    requires TableOk(t) && i < |t| && k < |t[i]| && j < |t| && l < |t[j]| && SameKey(t[i][k].bit, t[j][l].bit)
    ensures i == j && k == l
  {
  }

  ghost function IdSeq(c: seq<Obj>): seq<nat> {
    seq(|c|, k requires 0 <= k < |c| => c[k].id)
  }

  // The identities of the traces in the table.
  ghost function Ids(t: Table): multiset<nat> {
    if t == [] then multiset{} else multiset(IdSeq(t[0])) + Ids(t[1..])
  }

  lemma Cancel(a: multiset<nat>, r: multiset<nat>, r': multiset<nat>, x: multiset<nat>, y: multiset<nat>)
    requires r' + x == r + y
    ensures (a + r') + x == (a + r) + y
  {
    assert (a + r') + x == a + (r' + x);
    assert (a + r) + y == a + (r + y);
  }

  lemma {:induction false} IdsUpdate(t: Table, i: nat, c: seq<Obj>)
    requires i < |t|
    ensures Ids(t[i := c]) + multiset(IdSeq(t[i])) == Ids(t) + multiset(IdSeq(c))
  {
    hide IdSeq;
    var t': Table := t[i := c];
    assert Ids(t') == multiset(IdSeq(t'[0])) + Ids(t'[1..]);
    if i == 0 {
      assert t'[1..] == t[1..];
    } else {
      assert t'[1..] == t[1..][i - 1 := c];
      IdsUpdate(t[1..], i - 1, c);
      Cancel(multiset(IdSeq(t[0])), Ids(t[1..]), Ids(t'[1..]), multiset(IdSeq(t[i])), multiset(IdSeq(c)));
    }
  }

  // blkiomon_store_trace.
  ghost function Store(t: Table, x: Obj): Table
    requires |t| == TRACE_HASH_SIZE
  {
    var i := x.bit.sector % TRACE_HASH_SIZE;
    t[i := [x] + t[i]]
  }

  lemma PutIn(t: Table, x: Obj)
    requires |t| == TRACE_HASH_SIZE
    ensures var i := x.bit.sector % TRACE_HASH_SIZE; Store(t, x) == t[i := [x] + t[i]]
  {
  }

  lemma StoreIds(t: Table, x: Obj)
    requires |t| == TRACE_HASH_SIZE
    ensures Ids(Store(t, x)) == Ids(t) + multiset{x.id}
  {
    hide Ids, IdSeq;
    var i := x.bit.sector % TRACE_HASH_SIZE;
    IdsUpdate(t, i, [x] + t[i]);
    ConsIds(x, t[i]);
    Moved(Ids(Store(t, x)), Ids(t), multiset(IdSeq(t[i])), multiset{x.id});
  }

  lemma ConsIds(x: Obj, c: seq<Obj>)
    ensures multiset(IdSeq([x] + c)) == multiset(IdSeq(c)) + multiset{x.id}
  {
    assert IdSeq([x] + c) == [x.id] + IdSeq(c);
  }

  lemma CutIds(c: seq<Obj>, k: nat)
    requires k < |c|
    ensures multiset(IdSeq(c)) == multiset(IdSeq(c[..k] + c[k + 1..])) + multiset{c[k].id}
  {
    var a, b := IdSeq(c[..k]), IdSeq(c[k + 1..]);
    assert IdSeq(c) == a + [c[k].id] + b;
    assert IdSeq(c[..k] + c[k + 1..]) == a + b;
  }

  lemma Moved(m': multiset<nat>, m: multiset<nat>, c: multiset<nat>, x: multiset<nat>)
    requires m' + c == m + (c + x)
    ensures m' == m + x
  {
    assert m' == (m' + c) - c;
    assert (m + (c + x)) - c == m + x;
  }

  ghost predicate Absent(t: Table, b: Bit) {
    forall i, k :: 0 <= i < |t| && 0 <= k < |t[i]| ==> !SameKey(t[i][k].bit, b)
  }

  lemma StoreOk(t: Table, x: Obj)
    requires TableOk(t) && Absent(t, x.bit)
    ensures TableOk(Store(t, x))
  {
    var j := x.bit.sector % TRACE_HASH_SIZE;
    var t': Table := Store(t, x);
    forall i, k | 0 <= i < |t'| && 0 <= k < |t'[i]| ensures t'[i][k].bit.sector % TRACE_HASH_SIZE == i {
      if i == j && k > 0 { assert t'[i][k] == t[i][k - 1]; }
    }
    forall i, k, l | 0 <= i < |t'| && 0 <= k < l < |t'[i]| ensures !SameKey(t'[i][k].bit, t'[i][l].bit) {
      if i == j {
        assert t'[i][l] == t[i][l - 1];
        if k > 0 { assert t'[i][k] == t[i][k - 1]; }
      }
    }
  }

  // The table without entry `k` of chain `i`.
  ghost function Unlink(t: Table, i: nat, k: nat): Table
    requires i < |t| && k < |t[i]|
  {
    t[i := t[i][..k] + t[i][k + 1..]]
  }

  lemma UnlinkIds(t: Table, i: nat, k: nat)
    requires i < |t| && k < |t[i]|
    ensures Ids(t) == Ids(Unlink(t, i, k)) + multiset{t[i][k].id}
  {
    hide Ids, IdSeq;
    var c' := t[i][..k] + t[i][k + 1..];
    IdsUpdate(t, i, c');
    CutIds(t[i], k);
    var r, x := multiset(IdSeq(c')), multiset{t[i][k].id};
    assert Ids(t) + r == Ids(Unlink(t, i, k)) + (r + x);
    Moved(Ids(t), Ids(Unlink(t, i, k)), r, x);
  }

  lemma UnlinkOk(t: Table, i: nat, k: nat)
    requires TableOk(t) && i < |t| && k < |t[i]|
    ensures TableOk(Unlink(t, i, k)) && Absent(Unlink(t, i, k), t[i][k].bit)
  {
    var t': Table := Unlink(t, i, k);
    forall j, l | 0 <= j < |t'| && 0 <= l < |t'[j]|
      ensures t'[j][l] == t[j][Before(i, k, j, l)] && Before(i, k, j, l) < |t[j]| && (j == i ==> Before(i, k, j, l) != k)
    {
    }
    forall j, l | 0 <= j < |t'| && 0 <= l < |t'[j]| ensures !SameKey(t'[j][l].bit, t[i][k].bit) {
      if SameKey(t'[j][l].bit, t[i][k].bit) { OnePerKey(t, j, Before(i, k, j, l), i, k); }
    }
  }

  // Where an entry was before the removal.
  ghost function Before(i: nat, k: nat, j: nat, l: nat): nat {
    if j == i && l >= k then l + 1 else l
  }

  // blkiomon_fetch_trace: the entry for the key is taken out, if there is one.
  method Fetch(t: Table, b: Bit) returns (found: bool, x: Obj, t': Table, ghost i: nat, ghost k: nat)
    requires TableOk(t)
    ensures !found ==> t' == t && Absent(t, b)
    ensures found ==> i < |t| && k < |t[i]| && x == t[i][k] && SameKey(x.bit, b) && t' == Unlink(t, i, k)
  {
    var h := b.sector % TRACE_HASH_SIZE;
    var p := 0;
    while p < |t[h]|
      invariant p <= |t[h]| && forall l :: 0 <= l < p ==> !SameKey(t[h][l].bit, b)
    {
      var c := t[h][p].bit;
      if c.device == b.device && c.sector == b.sector && c.cls == b.cls {
        return true, t[h][p], t[h := t[h][..p] + t[h][p + 1..]], h, p;
      }
      p := p + 1;
    }
    found, t', i, k := false, t, 0, 0;
    x := Obj(0, b);
  }

  // ---- Statistics ----

  datatype MinMax = MinMax(min: nat, max: nat, sum: nat, sos: nat, num: nat)

  // minmax_account.
  function Add(m: MinMax, v: nat): MinMax {
    MinMax(if v < m.min then v else m.min, if v > m.max then v else m.max, m.sum + v, m.sos + v * v, m.num + 1)
  }

  // struct histlog2.
  datatype Hist = Hist(first: nat, delta: nat, num: nat)

  function Shift(d: nat, k: nat): nat {
    if k == 0 then d else 2 * Shift(d, k - 1)
  }

  // histlog2_upper_limit.
  function UpperLimit(h: Hist, i: nat): nat {
    h.first + if i > 0 then Shift(h.delta, i - 1) else 0
  }

  // The bucket for a value: the first whose limit it does not exceed, or the last.
  ghost predicate InBucket(v: nat, h: Hist, i: nat) {
    i < h.num && (i < h.num - 1 ==> v <= UpperLimit(h, i)) && forall k: nat :: k < i ==> v > UpperLimit(h, k)
  }

  // histlog2_index.
  method HistIndex(v: nat, h: Hist) returns (i: nat)
    requires h.num > 0
    ensures forall k: nat :: InBucket(v, h, k) <==> k == i
    ensures i < h.num
  {
    i := 0;
    while i < h.num - 1 && v > UpperLimit(h, i)
      invariant i < h.num && forall k: nat :: k < i ==> v > UpperLimit(h, k)
    {
      i := i + 1;
    }
    OneBucket(v, h, i);
  }

  lemma OneBucket(v: nat, h: Hist, i: nat)
    requires InBucket(v, h, i)
    ensures forall k: nat :: InBucket(v, h, k) <==> k == i
  {
    forall k: nat | InBucket(v, h, k) ensures k == i {
    }
  }

  // The values that fall into bucket `i`.
  ghost function Tally(vals: seq<nat>, h: Hist, i: nat): nat {
    if vals == [] then 0
    else Tally(vals[..|vals| - 1], h, i) + if InBucket(vals[|vals| - 1], h, i) then 1 else 0
  }

  // The histogram of some values; its total is their number.
  ghost predicate IsHist(bucket: seq<nat>, vals: seq<nat>, h: Hist) {
    && |bucket| == h.num && Sum(bucket) == |vals|
    && forall i: nat :: i < h.num ==> bucket[i] == Tally(vals, h, i)
  }

  // histlog2_account.
  method HistAccount(bucket: seq<nat>, v: nat, h: Hist, ghost vals: seq<nat>) returns (r: seq<nat>)
    requires h.num > 0 && IsHist(bucket, vals, h)
    ensures IsHist(r, vals + [v], h)
  {
    hide InBucket;
    var i := HistIndex(v, h);
    SumUpdate(bucket, i, bucket[i] + 1);
    r := bucket[i := bucket[i] + 1];
    assert (vals + [v])[..|vals|] == vals;
  }

  lemma {:induction false} Zeros(n: nat)
    ensures Sum(seq(n, _ => 0)) == 0
  {
    if n > 0 {
      Zeros(n - 1);
      var s: seq<nat> := seq(n, _ => 0);
      assert s[..n - 1] == seq(n - 1, _ => 0);
    }
  }

  lemma EmptyHist(h: Hist)
    ensures IsHist(seq(h.num, _ => 0), [], h)
  {
    Zeros(h.num);
  }

  ghost function Power(k: nat): nat {
    if k == 0 then 1 else 2 * Power(k - 1)
  }

  // The buckets of request sizes are 0, up to 1 KiB, and doubling up to 8 MiB; those of times are 0, up
  // to 8 microseconds, and doubling up to about 34 seconds.
  lemma BucketsMean(v: nat, i: nat)
    ensures InBucket(v, SIZE_HIST, 0) <==> v == 0
    ensures 1 <= i < 15 ==> (InBucket(v, SIZE_HIST, i) <==> (if i == 1 then 0 else 1024 * Power(i - 2)) < v <= 1024 * Power(i - 1))
    ensures InBucket(v, SIZE_HIST, 15) <==> v > 0x80_0000
    ensures InBucket(v, D2C_HIST, 0) <==> v == 0
    ensures 1 <= i < 24 ==> (InBucket(v, D2C_HIST, i) <==> (if i == 1 then 0 else 8 * Power(i - 2)) < v <= 8 * Power(i - 1))
    ensures InBucket(v, D2C_HIST, 24) <==> v > 0x200_0000
  {
    hide InBucket, Power, Shift;
    Doubling();
    BucketIs(v, SIZE_HIST, 0);
    BucketIs(v, SIZE_HIST, 15);
    BucketIs(v, D2C_HIST, 0);
    BucketIs(v, D2C_HIST, 24);
    if 1 <= i < 15 { BucketIs(v, SIZE_HIST, i); }
    if 1 <= i < 24 { BucketIs(v, D2C_HIST, i); }
    if i >= 1 { ShiftIs(1024, i - 1); ShiftIs(8, i - 1); }
    if i >= 2 { ShiftIs(1024, i - 2); ShiftIs(8, i - 2); }
    ShiftIs(1024, 13);
    ShiftIs(8, 22);
  }

  lemma {:induction false} ShiftIs(d: nat, k: nat)
    ensures Shift(d, k) == d * Power(k)
  {
    if k > 0 {
      ShiftIs(d, k - 1);
      assert d * (2 * Power(k - 1)) == 2 * (d * Power(k - 1));
    }
  }

  lemma Doubling()
    ensures Power(13) == 0x2000 && Power(22) == 0x40_0000
  {
    assert Power(4) == 16 && Power(8) == 256 && Power(12) == 4096 && Power(16) == 0x1_0000 && Power(20) == 0x10_0000;
  }

  // The limits grow, so that the one before decides.
  lemma BucketIs(v: nat, h: Hist, i: nat)
    requires i < h.num
    ensures InBucket(v, h, i) <==> (i < h.num - 1 ==> v <= UpperLimit(h, i)) && (i > 0 ==> v > UpperLimit(h, i - 1))
  {
    if i > 0 && v > UpperLimit(h, i - 1) {
      forall k: nat | k < i ensures v > UpperLimit(h, k) {
        LimitsGrow(h, k, i - 1);
      }
    }
  }

  lemma {:induction false} LimitsGrow(h: Hist, k: nat, l: nat)
    requires k <= l
    ensures UpperLimit(h, k) <= UpperLimit(h, l)
    decreases l - k
  {
    if k < l { LimitsGrow(h, k, l - 1); }
  }

  // What minmax_account gathers.
  ghost predicate IsMinMax(m: MinMax, vals: seq<nat>) {
    && m.num == |vals| && m.sum == Sum(vals) && m.sos == Sum(Squares(vals))
    && (forall v :: v in vals ==> m.min <= v <= m.max)
    && (m.min == 0xFFFF_FFFF_FFFF_FFFF || m.min in vals) && (m.max == 0 || m.max in vals)
  }

  const MAX64 := 0xFFFF_FFFF_FFFF_FFFF

  ghost function Squares(vals: seq<nat>): seq<nat> {
    seq(|vals|, i requires 0 <= i < |vals| => Square(vals[i]))
  }

  ghost function Square(v: nat): nat {
    v * v
  }

  lemma AddLaw(m: MinMax, vals: seq<nat>, v: nat)
    requires IsMinMax(m, vals)
    ensures IsMinMax(Add(m, v), vals + [v])
  {
    hide Sum;
    SumAppend(vals, v);
    assert Squares(vals + [v]) == Squares(vals) + [Square(v)];
    SumAppend(Squares(vals), Square(v));
  }

  // struct blkiomon_stat.
  datatype Stat = Stat(sizeR: MinMax, d2cR: MinMax, thrputR: MinMax, sizeW: MinMax, d2cW: MinMax, thrputW: MinMax,
                       bidir: nat, sizeHist: seq<nat>, d2cHist: seq<nat>)

  const SIZE_HIST := Hist(0, 1024, 16)
  const D2C_HIST := Hist(0, 8, 25)

  function FreshStat(): Stat {
    var m := MinMax(MAX64, 0, 0, 0, 0);
    Stat(m, m, m, m, m, m, 0, seq(SIZE_HIST.num, _ => 0), seq(D2C_HIST.num, _ => 0))
  }

  // ---- Accounting ----

  // A matched pair.
  datatype Pair = Pair(d: Bit, c: Bit)

  ghost predicate Matched(p: Pair) {
    SameKey(p.d, p.c) && p.d.issue && p.c.complete && p.d.time <= p.c.time
  }

  // Issue and completion of one request: the same device, sector and class of action.
  lemma MatchedMeans(p: Pair)
    ensures Matched(p) <==>
      && p.d.device == p.c.device && p.d.sector == p.c.sector && p.d.issue && p.c.complete && p.d.time <= p.c.time
      && p.d.cls.read == p.c.cls.read && p.d.cls.write == p.c.cls.write && p.d.cls.fs == p.c.cls.fs && p.d.cls.pc == p.c.cls.pc
  {
  }

  datatype Direction = Read | Write | Both

  ghost function DirectionOf(p: Pair): Direction {
    if p.c.cls.read then Read else if p.c.cls.write then Write else Both
  }

  const WORD := 0x1_0000_0000

  // Microseconds from issue to completion, and bytes per millisecond; the product that is divided
  // has 32 bits.
  ghost function D2c(p: Pair): nat {
    if p.c.time >= p.d.time then (p.c.time - p.d.time) / 1000 else 0
  }

  ghost function Thrput(p: Pair): nat {
    if D2c(p) == 0 then 0 else p.d.bytes * 1000 % WORD / D2c(p)
  }

  // Whole microseconds, of a clock in nanoseconds, and what they are times the throughput.
  lemma RatesMean(p: Pair)
    requires p.d.time <= p.c.time
    ensures 1000 * D2c(p) <= p.c.time - p.d.time < 1000 * D2c(p) + 1000
    ensures D2c(p) > 0 ==> Thrput(p) * D2c(p) <= p.d.bytes * 1000 % 0x1_0000_0000 < Thrput(p) * D2c(p) + D2c(p)
  {
    if D2c(p) > 0 {
      var n, d := p.d.bytes * 1000 % 0x1_0000_0000, D2c(p);
      assert n == d * (n / d) + n % d;
    }
  }

  // The pairs of one device, and those of one direction among them.
  ghost function Of(log: seq<Pair>, device: nat): seq<Pair> {
    if log == [] then []
    else Of(log[..|log| - 1], device) + if log[|log| - 1].d.device == device then [log[|log| - 1]] else []
  }

  ghost function Going(log: seq<Pair>, dir: Direction): seq<Pair> {
    if log == [] then []
    else Going(log[..|log| - 1], dir) + if DirectionOf(log[|log| - 1]) == dir then [log[|log| - 1]] else []
  }

  // Reads are completed as such; what is neither read nor write goes both ways.
  lemma {:induction false} GoingMeans(l: seq<Pair>, p: Pair)
    ensures p in Going(l, Read) <==> p in l && p.c.cls.read
    ensures p in Going(l, Write) <==> p in l && !p.c.cls.read && p.c.cls.write
    ensures p in Going(l, Both) <==> p in l && !p.c.cls.read && !p.c.cls.write
  {
    if l != [] {
      assert l == l[..|l| - 1] + [l[|l| - 1]];
      GoingMeans(l[..|l| - 1], p);
    }
  }

  ghost function Sizes(l: seq<Pair>): seq<nat> { seq(|l|, i requires 0 <= i < |l| => l[i].d.bytes) }
  ghost function Times(l: seq<Pair>): seq<nat> { seq(|l|, i requires 0 <= i < |l| => D2c(l[i])) }
  // The histogram takes 32 bits of the time.
  ghost function Ticks(l: seq<Pair>): seq<nat> { seq(|l|, i requires 0 <= i < |l| => D2c(l[i]) % WORD) }
  ghost function Rates(l: seq<Pair>): seq<nat> { seq(|l|, i requires 0 <= i < |l| => Thrput(l[i])) }

  ghost predicate DirOk(size: MinMax, d2c: MinMax, thrput: MinMax, l: seq<Pair>) {
    IsMinMax(size, Sizes(l)) && IsMinMax(d2c, Times(l)) && IsMinMax(thrput, Rates(l))
  }

  // The statistics of a device for the pairs `l`.
  ghost predicate StatOk(p: Stat, l: seq<Pair>) {
    && DirOk(p.sizeR, p.d2cR, p.thrputR, Going(l, Read))
    && DirOk(p.sizeW, p.d2cW, p.thrputW, Going(l, Write))
    && p.bidir == |Going(l, Both)|
    && IsHist(p.sizeHist, Sizes(l), SIZE_HIST) && IsHist(p.d2cHist, Ticks(l), D2C_HIST)
  }

  // Both histogram totals are the number of reads, writes and bidirectional requests.
  lemma {:induction false} Directions(l: seq<Pair>)
    ensures |Going(l, Read)| + |Going(l, Write)| + |Going(l, Both)| == |l|
  {
    if l != [] { Directions(l[..|l| - 1]); }
  }

  lemma TotalsAgree(p: Stat, l: seq<Pair>)
    requires StatOk(p, l)
    ensures Sum(p.sizeHist) == Sum(p.d2cHist) == p.sizeR.num + p.sizeW.num + p.bidir == |l|
    ensures p.sizeR.num == p.d2cR.num == p.thrputR.num && p.sizeW.num == p.d2cW.num == p.thrputW.num
  {
    Directions(l);
  }

  lemma OfStep(log: seq<Pair>, p: Pair, device: nat)
    ensures Of(log + [p], device) == if p.d.device == device then Of(log, device) + [p] else Of(log, device)
  {
    assert (log + [p])[..|log|] == log;
  }

  lemma GoingStep(l: seq<Pair>, p: Pair, dir: Direction)
    ensures Going(l + [p], dir) == if DirectionOf(p) == dir then Going(l, dir) + [p] else Going(l, dir)
  {
    assert (l + [p])[..|l|] == l;
  }

  lemma SeqStep(l: seq<Pair>, p: Pair)
    ensures Sizes(l + [p]) == Sizes(l) + [p.d.bytes] && Times(l + [p]) == Times(l) + [D2c(p)] && Rates(l + [p]) == Rates(l) + [Thrput(p)]
    ensures Ticks(l + [p]) == Ticks(l) + [D2c(p) % WORD]
  {
  }

  lemma DirStep(size: MinMax, d2c: MinMax, thrput: MinMax, l: seq<Pair>, p: Pair)
    requires DirOk(size, d2c, thrput, l)
    ensures DirOk(Add(size, p.d.bytes), Add(d2c, D2c(p)), Add(thrput, Thrput(p)), l + [p])
  {
    hide IsMinMax, Add, D2c, Thrput;
    SeqStep(l, p);
    AddLaw(size, Sizes(l), p.d.bytes);
    AddLaw(d2c, Times(l), D2c(p));
    AddLaw(thrput, Rates(l), Thrput(p));
  }

  ghost predicate StatsOk(stats: map<nat, Stat>, log: seq<Pair>) {
    && (forall i :: 0 <= i < |log| ==> Matched(log[i]))
    && (forall d :: d in stats ==> StatOk(stats[d], Of(log, d)))
    && (forall d: nat :: d !in stats ==> Of(log, d) == [])
  }

  lemma FreshStatOk()
    ensures StatOk(FreshStat(), [])
  {
    EmptyHist(SIZE_HIST);
    EmptyHist(D2C_HIST);
  }

  lemma Micros(b: Pair)
    requires b.d.time <= b.c.time
    ensures D2c(b) == (b.c.time - b.d.time) / 1000
  {
  }

  // The part of blkiomon_account after the device is found.
  method AccountIn(p: Stat, b: Pair, ghost l: seq<Pair>) returns (q: Stat)
    requires StatOk(p, l) && b.d.time <= b.c.time && D2c(b) > 0
    ensures StatOk(q, l + [b])
  {
    hide DirOk, IsHist, IsMinMax, Add, D2c, Going, Sizes, Times, Ticks;
    var d2c, size := (b.c.time - b.d.time) / 1000, b.d.bytes;
    Micros(b);
    var thrput := size * 1000 % WORD / d2c;
    q := p;
    GoingStep(l, b, Read);
    GoingStep(l, b, Write);
    GoingStep(l, b, Both);
    SeqStep(l, b);
    if b.c.cls.read {
      DirStep(p.sizeR, p.d2cR, p.thrputR, Going(l, Read), b);
      q := q.(thrputR := Add(q.thrputR, thrput), sizeR := Add(q.sizeR, size), d2cR := Add(q.d2cR, d2c));
    } else if b.c.cls.write {
      DirStep(p.sizeW, p.d2cW, p.thrputW, Going(l, Write), b);
      q := q.(thrputW := Add(q.thrputW, thrput), sizeW := Add(q.sizeW, size), d2cW := Add(q.d2cW, d2c));
    } else {
      q := q.(bidir := q.bidir + 1);
    }
    var sizes := HistAccount(q.sizeHist, size, SIZE_HIST, Sizes(l));
    var times := HistAccount(q.d2cHist, d2c % WORD, D2C_HIST, Ticks(l));
    q := q.(sizeHist := sizes, d2cHist := times);
  }

  // blkiomon_account; it ends the program when the two traces are less than a microsecond apart.
  method Account(stats: map<nat, Stat>, b: Pair, ghost log: seq<Pair>) returns (ok: bool, stats': map<nat, Stat>)
    requires StatsOk(stats, log) && Matched(b)
    ensures ok <==> b.c.time - b.d.time >= 1000
    ensures ok ==> StatsOk(stats', log + [b])
    ensures !ok ==> stats' == stats
  {
    hide StatOk, FreshStat, Of;
    var d2c := (b.c.time - b.d.time) / 1000;
    if d2c == 0 {
      return false, stats;
    }
    var dev := b.d.device;
    FreshStatOk();
    var p := if dev in stats then stats[dev] else FreshStat();
    var q := AccountIn(p, b, Of(log, dev));
    ok, stats' := true, stats[dev := q];
    forall d: nat ensures Of(log + [b], d) == if dev == d then Of(log, d) + [b] else Of(log, d) {
      OfStep(log, b, d);
    }
  }

  // ---- Ownership ----

  // The identities handed out so far, each once.
  ghost function Upto(n: nat): (m: multiset<nat>)
    ensures forall i: nat :: m[i] == if i < n then 1 else 0
  {
    if n == 0 then multiset{} else Upto(n - 1) + multiset{n - 1}
  }

  // Each trace object has exactly one owner.
  ghost predicate Owned(t: Table, vacant: seq<nat>, hand: nat, freed: multiset<nat>, next: nat) {
    Ids(t) + multiset(vacant) + multiset{hand} + freed == Upto(next)
  }

  lemma OneOwner(t: Table, vacant: seq<nat>, hand: nat, freed: multiset<nat>, next: nat, id: nat)
    requires Owned(t, vacant, hand, freed, next)
    ensures Ids(t)[id] + multiset(vacant)[id] + multiset{hand}[id] + freed[id] == if id < next then 1 else 0
  {
    assert (Ids(t) + multiset(vacant) + multiset{hand} + freed)[id] == Upto(next)[id];
  }

  lemma {:induction false} TableSize(t: Table)
    ensures |Ids(t)| == Stored(t)
  {
    if t != [] {
      TableSize(t[1..]);
      assert |multiset(IdSeq(t[0]))| == |t[0]|;
    }
  }

  ghost function Stored(t: Table): nat {
    if t == [] then 0 else |t[0]| + Stored(t[1..])
  }

  lemma StoreOwned(t: Table, x: Obj, vacant: seq<nat>, freed: multiset<nat>, next: nat)
    requires |t| == TRACE_HASH_SIZE && Owned(t, vacant, x.id, freed, next)
    ensures vacant != [] ==> Owned(Store(t, x), vacant[1..], vacant[0], freed, next)
    ensures vacant == [] ==> Owned(Store(t, x), vacant, next, freed, next + 1)
    ensures Stored(Store(t, x)) == Stored(t) + 1
  {
    hide Ids, Upto, Store, Stored;
    StoreIds(t, x);
    TableSize(t);
    TableSize(Store(t, x));
    if vacant != [] {
      assert vacant == [vacant[0]] + vacant[1..];
      assert multiset(vacant) == multiset{vacant[0]} + multiset(vacant[1..]);
    } else {
      UptoStep(next);
    }
  }

  lemma UptoStep(n: nat)
    ensures Upto(n + 1) == Upto(n) + multiset{n}
  {
  }

  // The fetched trace goes to the vacant list, or is freed.
  lemma FreeOwned(t: Table, i: nat, k: nat, vacant: seq<nat>, hand: nat, freed: multiset<nat>, next: nat)
    requires i < |t| && k < |t[i]| && Owned(t, vacant, hand, freed, next)
    ensures var x := t[i][k].id;
      Owned(Unlink(t, i, k), [x] + vacant, hand, freed, next) && Owned(Unlink(t, i, k), vacant, hand, freed + multiset{x}, next)
    ensures Stored(Unlink(t, i, k)) == Stored(t) - 1
  {
    hide Ids, Upto, Stored, Unlink;
    UnlinkIds(t, i, k);
    TableSize(t);
    TableSize(Unlink(t, i, k));
  }

  // One of the two traces goes back into the table, the other to the reader.
  lemma SwapOwned(t: Table, i: nat, k: nat, young: Obj, old_: nat, vacant: seq<nat>, hand: nat, freed: multiset<nat>, next: nat)
    requires |t| == TRACE_HASH_SIZE && i < |t| && k < |t[i]| && Owned(t, vacant, hand, freed, next)
    requires (young.id == hand && old_ == t[i][k].id) || (young.id == t[i][k].id && old_ == hand)
    ensures Owned(Store(Unlink(t, i, k), young), vacant, old_, freed, next)
    ensures Stored(Store(Unlink(t, i, k), young)) == Stored(t)
  {
    UnlinkIds(t, i, k);
    StoreIds(Unlink(t, i, k), young);
    TableSize(t);
    TableSize(Store(Unlink(t, i, k), young));
  }

  lemma TableLength(t: Table)
    requires TableOk(t)
    ensures |t| == TRACE_HASH_SIZE
  {
  }

  lemma AbsentSame(t: Table, a: Bit, b: Bit)
    requires Absent(t, a) && SameKey(a, b)
    ensures Absent(t, b)
  {
  }

  // ---- The matcher ----

  // The stored traces, the trace in hand, the pairs matched and the mismatches.
  datatype View = View(table: Table, hand: Obj, log: seq<Pair>, mismatch: nat)

  // The trace in hand met entry `k` of chain `i`: an older issue and a younger completion are a
  // match; otherwise the younger stays in the table and the older comes into the hand.
  ghost predicate Met(v: View, v': View, i: nat, k: nat) {
    && |v.table| == TRACE_HASH_SIZE && i < |v.table| && k < |v.table[i]| && SameKey(v.table[i][k].bit, v.hand.bit)
    && var x := v.table[i][k];
       var (o, y) := if x.bit.time < v.hand.bit.time then (x, v.hand) else (v.hand, x);
       if o.bit.issue && y.bit.complete then
         && Matched(Pair(o.bit, y.bit)) && v'.log == v.log + [Pair(o.bit, y.bit)] && v'.mismatch == v.mismatch
         && v'.table == Unlink(v.table, i, k) && v'.hand == v.hand
       else
         && v'.log == v.log && v'.mismatch == v.mismatch + 1
         && v'.table == Store(Unlink(v.table, i, k), y) && v'.hand == o
  }

  // What blkiomon_do_trace does with the trace in hand.
  ghost predicate Took(v: View, v': View) {
    if Absent(v.table, v.hand.bit) then
      |v.table| == TRACE_HASH_SIZE && v'.table == Store(v.table, v.hand) && v'.log == v.log && v'.mismatch == v.mismatch
    else exists i: nat, k: nat :: Met(v, v', i, k)
  }

  ghost predicate Counts(b: Bit) {
    b.issue || b.complete
  }

  // One round of blkiomon_do_fifo: traces that are neither issues nor completions are skipped.
  ghost predicate Round(v: View, v': View, b: Bit) {
    var w := v.(hand := v.hand.(bit := b));
    if Counts(b) then !TooClose(v.table, b) && Took(w, v') else v' == w
  }

  // A trace that is neither issue nor completion changes nothing; any other is stored if none with its
  // device, sector and class is, and else is a match or a mismatch.
  lemma RoundMeans(v: View, v': View, b: Bit)
    requires Round(v, v', b)
    ensures !b.issue && !b.complete ==> v'.table == v.table && v'.log == v.log && v'.mismatch == v.mismatch
    ensures b.issue || b.complete ==>
      var met := exists i: nat, k: nat :: i < |v.table| && k < |v.table[i]| && v.table[i][k].bit.device == b.device &&
                   v.table[i][k].bit.sector == b.sector && v.table[i][k].bit.cls == b.cls;
      |v'.log| + v'.mismatch == |v.log| + v.mismatch + if met then 1 else 0
  {
  }

  // The pair of an older and a younger trace, as blkiomon_do_trace forms it.
  ghost function PairOf(x: Bit, b: Bit): Pair {
    if x.time < b.time then Pair(x, b) else Pair(b, x)
  }

  // An issue and its completion less than a microsecond apart, for which blkiomon_account divides by
  // zero.
  ghost predicate Crashes(p: Pair) {
    p.d.issue && p.c.complete && p.c.time - p.d.time < 1000
  }

  ghost predicate TooClose(t: Table, b: Bit) {
    exists i: nat, k: nat :: i < |t| && k < |t[i]| && SameKey(t[i][k].bit, b) && Crashes(PairOf(t[i][k].bit, b))
  }

  lemma CloseIs(t: Table, b: Bit, found: bool, i: nat, k: nat)
    requires TableOk(t) && (if found then i < |t| && k < |t[i]| && SameKey(t[i][k].bit, b) else Absent(t, b))
    ensures TooClose(t, b) <==> found && Crashes(PairOf(t[i][k].bit, b))
  {
    hide Crashes, PairOf;
    if TooClose(t, b) {
      var j: nat, l: nat :| j < |t| && l < |t[j]| && SameKey(t[j][l].bit, b) && Crashes(PairOf(t[j][l].bit, b));
      if found { OnePerKey(t, i, k, j, l); }
    }
  }

  lemma NotAbsent(t: Table, i: nat, k: nat, b: Bit)
    requires TableOk(t) && i < |t| && k < |t[i]| && SameKey(t[i][k].bit, b)
    ensures !Absent(t, b) && |t| == TRACE_HASH_SIZE
  {
  }

  class Monitor {
    var table: Table
    var vacant: seq<nat>
    var hand: Obj
    var next: nat
    var match_: nat
    var mismatch: nat
    var stats: map<nat, Stat>
    ghost var freed: multiset<nat>
    ghost var processed: nat
    ghost var log: seq<Pair>

    ghost predicate Valid()
      reads this
    {
      && TableOk(table) && |vacant| <= MAX_VACANT
      && Owned(table, vacant, hand.id, freed, next)
      && processed == Stored(table) + 2 * match_ + mismatch
      && |log| == match_ && StatsOk(stats, log)
    }

    ghost function Look(): View
      reads this
    {
      View(table, hand, log, mismatch)
    }

    // The start of blkiomon_do_fifo.
    constructor (b: Bit)
      ensures Valid() && processed == 0 && log == []
    {
      table, vacant, hand, next := seq(TRACE_HASH_SIZE, _ => []), [], Obj(0, b), 1;
      match_, mismatch, stats := 0, 0, map[];
      freed, processed, log := multiset{}, 0, [];
      new;
      EmptyTable(TRACE_HASH_SIZE);
      assert Upto(1) == Upto(0) + multiset{0};
    }

    // blkiomon_alloc_trace, after the trace in hand went into the table.
    method StoreNew()
      requires Valid() && Absent(table, hand.bit)
      modifies this
      ensures Valid() && processed == old(processed) + 1
      ensures log == old(log) && mismatch == old(mismatch) && stats == old(stats)
      ensures table == Store(old(table), old(hand))
      ensures if old(vacant) != [] then [hand.id] + vacant == old(vacant) && next == old(next) else vacant == [] && hand.id == old(next) == next - 1
      ensures freed == old(freed)
    {
      hide Ids, Upto, TableOk, StatsOk, Absent, Stored, Store, Owned;
      StoreOk(table, hand);
      assert |table| == TRACE_HASH_SIZE by { TableLength(table); }
      StoreOwned(table, hand, vacant, freed, next);
      var i := hand.bit.sector % TRACE_HASH_SIZE;
      PutIn(table, hand);
      table := table[i := [hand] + table[i]];
      if vacant != [] {
        hand := hand.(id := vacant[0]);
        vacant := vacant[1..];
      } else {
        hand := hand.(id := next);
        next := next + 1;
      }
      processed := processed + 1;
    }

    // A match: the pair is accounted, the stored trace becomes vacant, the other is used again.
    method Match(t': Table, x: Obj, b: Pair, ghost i: nat, ghost k: nat) returns (ok: bool)
      requires Valid() && i < |table| && k < |table[i]| && x == table[i][k] && t' == Unlink(table, i, k) && Matched(b)
      modifies this
      ensures ok <==> b.c.time - b.d.time >= 1000
      ensures ok ==> Valid() && processed == old(processed) + 1 && log == old(log) + [b]
      ensures ok ==> mismatch == old(mismatch) && table == t' && hand == old(hand)
      ensures !ok ==> Valid() && processed == old(processed) && Look() == old(Look())
      ensures ok ==> if old(|vacant|) < 256 then vacant == [x.id] + old(vacant) && freed == old(freed) else vacant == old(vacant) && freed == old(freed) + multiset{x.id}
    {
      hide Ids, Upto, TableOk, StatsOk, Absent, Stored, Unlink, Owned, Matched, StatOk, SameKey;
      ok, stats := Account(stats, b, log);
      if !ok {
        return;
      }
      match_ := match_ + 1;
      log := log + [b];
      UnlinkOk(table, i, k);
      FreeOwned(table, i, k, vacant, hand.id, freed, next);
      table := t';
      if |vacant| < MAX_VACANT {
        vacant := [x.id] + vacant;
      } else {
        freed := freed + multiset{x.id};
      }
      processed := processed + 1;
    }

    // No match: the younger trace stays in the table.
    method Mismatch(t': Table, x: Obj, young: Obj, old_: Obj, ghost i: nat, ghost k: nat)
      requires Valid() && i < |table| && k < |table[i]| && x == table[i][k] && t' == Unlink(table, i, k) && SameKey(x.bit, hand.bit)
      requires (young == hand && old_ == x) || (young == x && old_ == hand)
      modifies this
      ensures Valid() && processed == old(processed) + 1 && log == old(log) && mismatch == old(mismatch) + 1
      ensures stats == old(stats) && |t'| == TRACE_HASH_SIZE && table == Store(t', young) && hand == old_
    {
      hide Ids, Upto, StatsOk, Absent, Stored, Unlink, Owned, Store;
      UnlinkOk(table, i, k);
      AbsentSame(t', x.bit, young.bit);
      StoreOk(t', young);
      SwapOwned(table, i, k, young, old_.id, vacant, hand.id, freed, next);
      mismatch := mismatch + 1;
      var h := young.bit.sector % TRACE_HASH_SIZE;
      PutIn(t', young);
      table := t'[h := [young] + t'[h]];
      hand := old_;
      processed := processed + 1;
    }

    // blkiomon_do_trace on the trace in hand.
    method DoTrace() returns (ok: bool)
      requires Valid()
      modifies this
      ensures ok <==> !TooClose(old(table), old(hand.bit))
      ensures Valid() && processed == old(processed) + if ok then 1 else 0
      ensures if ok then Took(old(Look()), Look()) else Look() == old(Look())
    {
      hide Ids, Upto, StatsOk, Absent, Stored, Unlink, Owned, Store, TableOk;
      var found, x, t';
      ghost var i, k;
      found, x, t', i, k := Fetch(table, hand.bit);
      CloseIs(table, hand.bit, found, i, k);
      TableLength(table);
      if !found {
        StoreNew();
        return true;
      }
      NotAbsent(table, i, k, hand.bit);
      var old_, young := hand, x;
      if x.bit.time < hand.bit.time {
        old_, young := x, hand;
      }
      if old_.bit.issue && young.bit.complete {
        ok := Match(t', x, Pair(old_.bit, young.bit), i, k);
        assert ok ==> Met(old(Look()), Look(), i, k);
        return;
      }
      Mismatch(t', x, young, old_, i, k);
      assert Met(old(Look()), Look(), i, k);
      ok := true;
    }

    // The loop of blkiomon_do_fifo.  Every trace taken in is a round; the loop ends early exactly at
    // a trace that meets its partner less than a microsecond away.
    method DoFifo(input: seq<Bit>) returns (n: nat, ghost run: seq<View>)
      requires Valid()
      modifies this
      ensures n <= |input| && Valid() && processed == old(processed) + Relevant(input[..n])
      ensures |run| == n + 1 && run[0] == old(Look()) && forall k :: 0 <= k < n ==> Round(run[k], run[k + 1], input[k])
      ensures run[n].table == table && run[n].log == log && run[n].mismatch == mismatch
      ensures n < |input| ==> Counts(input[n]) && TooClose(table, input[n])
    {
      hide Ids, Upto, StatsOk, Absent, Stored, Unlink, Owned, Store, TableOk, Matched, Took, TooClose;
      n, run := 0, [Look()];
      while n < |input|
        invariant n <= |input| && Valid() && processed == old(processed) + Relevant(input[..n])
        invariant |run| == n + 1 && run[0] == old(Look()) && run[n] == Look()
        invariant forall k :: 0 <= k < n ==> Round(run[k], run[k + 1], input[k])
      {
        assert input[..n + 1][..n] == input[..n];
        hand := hand.(bit := input[n]);
        if input[n].issue || input[n].complete {
          var ok := DoTrace();
          if !ok {
            return;
          }
        }
        run := run + [Look()];
        n := n + 1;
      }
    }
  }

  ghost function Relevant(input: seq<Bit>): nat {
    if input == [] then 0
    else Relevant(input[..|input| - 1]) + if Counts(input[|input| - 1]) then 1 else 0
  }

  lemma {:induction false} EmptyTable(n: nat)
    ensures Ids(seq(n, _ => [])) == multiset{} && Stored(seq(n, _ => [])) == 0
  {
    if n > 0 {
      var t: Table := seq(n, _ => []);
      assert t[1..] == seq(n - 1, _ => []);
      EmptyTable(n - 1);
      assert IdSeq(t[0]) == [];
    }
  }
}
