/**
 The sliding mmap output window of external/blktrace/blktrace.c (setup_mmap,
 lines 732-763; the reading loop of handle_pfds_file, lines 1662-1703; the final
 ftruncate of close_iop, lines 1552-1571).

 System calls succeed, except that mmap cannot map a window whose length has
 wrapped around.  A read that would run past the window ends the run.
*/
module MmapWindow {
  import opened Arith

  // ---- The window as a value ----

  // buf_size, max(16, buf_nr) and the page size.
  datatype Config = Config(bufSize: nat, nr: nat, pagesize: nat) {
    // A read of a full buffer always leaves this much of a fresh window.
    ghost function Spare(): nat
      requires nr > 0
    {
      (nr - 1) * bufSize
    }

    // However the file stands when the window moves, a buffer fits behind it.
    ghost predicate Enough()
      requires nr > 0
    {
      2 * (pagesize - 1) <= Spare()
    }

    ghost predicate Sane() {
      bufSize > 0 && nr >= 16 && pagesize > 0
    }
  }

  // fs_size, fs_off and fs_buf_len.
  datatype Window = Window(size: nat, off: nat, len: int)

  const START := Window(0, 0, 0)

  ghost predicate Room(w: Window, c: Config) {
    w.off + c.bufSize <= w.len
  }

  // The window moves when another buffer might not fit.
  ghost function Moved(w: Window, c: Config): Window
    requires c.Sane()
  {
    if Room(w, c) then w
    else Window(w.size, Rem(w.size, c.pagesize), c.nr * c.bufSize - Rem(w.size, c.pagesize))
  }

  // The read fits behind setup_mmap.
  ghost predicate Fits(w: Window, c: Config)
    requires c.Sane()
  {
    Room(Moved(w, c), c)
  }

  ghost function After(w: Window, c: Config, n: nat): Window
    requires c.Sane()
  {
    var m := Moved(w, c);
    Window(m.size + n, m.off + n, m.len)
  }

  lemma FitsExactlyWhen(w: Window, c: Config)
    requires c.Sane()
    ensures Fits(w, c) <==> Room(w, c) || 2 * Rem(w.size, c.pagesize) <= c.Spare()
  {
    hide Rem;
    assert c.nr * c.bufSize == (c.nr - 1) * c.bufSize + c.bufSize;
  }

  // Every read of a run fits; `lens` are the lengths the reads return.
  ghost predicate Run(w: Window, c: Config, lens: seq<nat>)
    requires c.Sane()
    decreases |lens|
  {
    lens == [] || (Fits(w, c) && Run(After(w, c, lens[0]), c, lens[1..]))
  }

  ghost function End(w: Window, c: Config, lens: seq<nat>): Window
    requires c.Sane()
    decreases |lens|
  {
    if lens == [] then w else End(After(w, c, lens[0]), c, lens[1..])
  }

  ghost predicate Short(c: Config, lens: seq<nat>) {
    forall i :: 0 <= i < |lens| ==> lens[i] <= c.bufSize
  }

  lemma {:induction false} RunAppend(w: Window, c: Config, a: seq<nat>, b: seq<nat>)
    requires c.Sane()
    ensures Run(w, c, a + b) <==> Run(w, c, a) && Run(End(w, c, a), c, b)
    ensures End(w, c, a + b) == End(End(w, c, a), c, b)
    decreases |a|
  {
    if a == [] {
      assert a + b == b;
    } else {
      assert (a + b)[1..] == a[1..] + b && (a + b)[0] == a[0];
      RunAppend(After(w, c, a[0]), c, a[1..], b);
    }
  }

  lemma {:induction false} EnoughRuns(w: Window, c: Config, lens: seq<nat>)
    requires c.Sane() && c.Enough()
    ensures Run(w, c, lens)
    decreases |lens|
  {
    if lens != [] {
      QuotRem(w.size, c.pagesize);
      FitsExactlyWhen(w, c);
      EnoughRuns(After(w, c, lens[0]), c, lens[1..]);
    }
  }

  // ---- A run that fails whenever one can ----

  // Reads of one byte, as long as the window has room.
  lemma {:induction false} Creep(w: Window, c: Config, n: nat)
    requires c.Sane() && (n > 0 ==> w.off + n - 1 + c.bufSize <= w.len)
    ensures var ones := seq(n, _ => 1);
      Run(w, c, ones) && End(w, c, ones) == if n == 0 then w else Window(w.size + n, w.off + n, w.len)
    decreases n
  {
    var ones := seq(n, _ => 1);
    if n > 0 {
      assert ones[1..] == seq(n - 1, _ => 1) && ones[0] == 1;
      assert After(w, c, 1) == Window(w.size + 1, w.off + 1, w.len);
      Creep(After(w, c, 1), c, n - 1);
    }
  }

  // From a move at a file size with remainder `r` to the next, `x` bytes behind the last place that
  // still has room.
  lemma NextMove(w: Window, c: Config, r: nat, x: nat) returns (lens: seq<nat>, w': Window)
    requires c.Sane() && !Room(w, c) && r == Rem(w.size, c.pagesize) && 2 * r <= c.Spare() && 1 <= x <= c.bufSize
    ensures Short(c, lens) && Run(w, c, lens) && End(w, c, lens) == w'
    ensures !Room(w', c) && w'.size == w.size + c.Spare() - 2 * r + x
  {
    hide Rem;
    FitsExactlyWhen(w, c);
    assert c.nr * c.bufSize == c.Spare() + c.bufSize;
    var n := c.Spare() - 2 * r;
    var m := Window(w.size, r, c.Spare() + c.bufSize - r);
    assert Moved(w, c) == m && Moved(m, c) == m;
    Creep(m, c, n);
    var t := Window(m.size + n, m.off + n, m.len);
    lens, w' := seq(n, _ => 1) + [x], Window(t.size + x, t.off + x, t.len);
    LastRead(t, c, x);
    RunAppend(m, c, seq(n, _ => 1), [x]);
    if n > 0 {
      assert After(w, c, 1) == After(m, c, 1);
      assert lens[0] == 1;
    } else {
      assert lens == [x];
    }
  }

  lemma LastRead(t: Window, c: Config, x: nat)
    requires c.Sane() && Room(t, c)
    ensures Run(t, c, [x]) && End(t, c, [x]) == Window(t.size + x, t.off + x, t.len)
  {
    assert [x][1..] == [];
    assert After(t, c, x) == Window(t.size + x, t.off + x, t.len);
  }

  // Two moves on, the remainder is larger by one.
  lemma RemainderGrows(p: nat, s: nat, c: int, r: nat, r': nat)
    requires p > 0 && r == Rem(s, p) && r + 1 < p && s + c - 2 * r + 1 >= 0 && r' == Rem(s + c - 2 * r + 1, p)
    requires s + c - 2 * r + 1 + c - 2 * r' + 2 >= 0
    ensures Rem(s + c - 2 * r + 1 + c - 2 * r' + 2, p) == r + 1
  {
    hide Rem, Times, Quot;
    var s' := s + c - 2 * r + 1;
    QuotRem(s, p);
    QuotRem(s', p);
    RemOf(s' + c - 2 * r' + 2, p, Quot(s', p), Quot(s, p), r + 1);
  }

  lemma RemOf(n: nat, p: nat, b: nat, a: nat, r: nat)
    requires p > 0 && n == 2 * Times(b, p) - Times(a, p) + r && r < p
    ensures Rem(n, p) == r
  {
    hide Rem, Times, Quot;
    QuotIsDiv(n, p);
    TimesIsProduct(b, p);
    TimesIsProduct(a, p);
    Combine(n, p, 2 * b - a, a, b, r);
  }

  lemma Combine(n: nat, p: nat, q: int, a: nat, b: nat, r: nat)
    requires p > 0 && n == 2 * (b * p) - a * p + r && r < p && q == 2 * b - a
    ensures n % p == r
  {
    assert 2 * (b * p) - a * p == p * q;
    if q < 0 {
      Negative(p, q);
      assert false;
    }
    DivUnique(n, p, q, r);
  }

  lemma Negative(p: int, q: int)
    requires p > 0 && q < 0
    ensures p * q <= -p
  {
  }

  // Where the window is not large enough, the reads can be made to fail.
  lemma {:induction false} Overrun(w: Window, c: Config) returns (lens: seq<nat>)
    requires c.Sane() && c.bufSize >= 2 && !c.Enough() && !Room(w, c)
    ensures Short(c, lens) && !Run(w, c, lens)
    decreases c.pagesize - Rem(w.size, c.pagesize)
  {
    var r := Rem(w.size, c.pagesize);
    QuotRem(w.size, c.pagesize);
    FitsExactlyWhen(w, c);
    if 2 * r > c.Spare() {
      lens := [c.bufSize];
    } else {
      var a, w1 := NextMove(w, c, r, 1);
      FitsExactlyWhen(w1, c);
      var r1 := Rem(w1.size, c.pagesize);
      if 2 * r1 > c.Spare() {
        lens := a + [c.bufSize];
        RunAppend(w, c, a, [c.bufSize]);
      } else {
        var b, w2 := NextMove(w1, c, r1, 2);
        RemainderGrows(c.pagesize, w.size, c.Spare(), r, r1);
        var d := Overrun(w2, c);
        lens := a + (b + d);
        RunAppend(w1, c, b, d);
        RunAppend(w, c, a, b + d);
      }
    }
  }

  // Every run of reads fits if and only if the window is large enough for the worst page remainder.
  lemma AllRunsFit(c: Config)
    requires c.Sane() && c.bufSize >= 2
    ensures (forall lens :: Short(c, lens) ==> Run(START, c, lens)) <==> c.Enough()
  {
    if c.Enough() {
      forall lens | Short(c, lens) ensures Run(START, c, lens) {
        EnoughRuns(START, c, lens);
      }
    } else {
      var lens := Overrun(START, c);
    }
  }

  // ---- A run that fails ----

  // Buffers of 8 KiB on pages of 64 KiB: fifteen full reads and one of 8191 bytes leave the file one
  // byte short of a page, and the next read does not fit.
  lemma LargePagesOverrun()
    ensures var c := Config(8192, 16, 65536);
      var lens := seq(15, _ => 8192) + [8191];
      Short(c, lens) && Run(START, c, lens) && !Run(START, c, lens + [8192])
  {
    hide Rem, Run, End, Moved, After, Fits;
    var c := Config(8192, 16, 65536);
    var full := seq(15, _ => 8192);
    FullReads(15);
    LastRead(Window(122880, 122880, 131072), c, 8191);
    RunAppend(START, c, full, [8191]);
    ShortOfPage();
    RunAppend(START, c, full + [8191], [8192]);
  }

  lemma ShortOfPage()
    ensures !Run(Window(131071, 131071, 131072), Config(8192, 16, 65536), [8192])
  {
    hide Rem;
    QuotIsDiv(131071, 65536);
  }

  lemma {:induction false} FullReads(k: nat)
    requires k <= 15
    ensures var c := Config(8192, 16, 65536);
      Run(START, c, seq(k, _ => 8192)) && (k > 0 ==> End(START, c, seq(k, _ => 8192)) == Window(8192 * k, 8192 * k, 131072))
  {
    hide Rem, Run, End, Moved, After;
    var c := Config(8192, 16, 65536);
    FirstRead();
    if k == 0 {
      assert seq(k, _ => 8192) == [];
    } else {
      FullReads(k - 1);
      var l := seq(k - 1, _ => 8192);
      assert seq(k, _ => 8192) == l + [8192];
      RunAppend(START, c, l, [8192]);
      if k == 1 {
        assert l == [] && l + [8192] == [8192];
      } else {
        LastRead(Window(8192 * (k - 1), 8192 * (k - 1), 131072), c, 8192);
      }
    }
  }

  lemma FirstRead()
    ensures var c := Config(8192, 16, 65536);
      Run(START, c, []) && Run(START, c, [8192]) && End(START, c, [8192]) == Window(8192, 8192, 131072)
  {
    var c := Config(8192, 16, 65536);
    assert After(START, c, 8192) == Window(8192, 8192, 131072);
    assert [8192][1..] == [];
  }

  // ---- struct mmap_info ----

  class MmapInfo {
    var mapped: bool          // fs_buf != NULL
    ghost var base: nat       // the file offset the window is mapped at
    var fsSize: nat
    var fsMaxSize: nat
    var fsOff: nat
    var fsBufLen: int
    const bufSize: nat
    const bufNr: nat
    const pagesize: nat
    var file: seq<nat>

    constructor (bufSize: nat, bufNr: nat, pagesize: nat)
      requires pagesize > 0 && bufSize > 0
      ensures Valid([]) && Win() == Window(0, 0, 0) && Cfg() == Config(bufSize, if bufNr > 16 then bufNr else 16, pagesize)
      ensures this.bufSize == bufSize && this.bufNr == bufNr && this.pagesize == pagesize
    {
      this.bufSize, this.bufNr, this.pagesize := bufSize, bufNr, pagesize;
      mapped, base, fsSize, fsMaxSize, fsOff, fsBufLen, file := false, 0, 0, 0, 0, 0, [];
    }

    // nr = max(16, buf_nr)
    ghost function Nr(): nat {
      if 16 < bufNr then bufNr else 16
    }

    ghost function Cfg(): Config {
      Config(bufSize, Nr(), pagesize)
    }

    ghost function Win(): Window
      reads this
    {
      Window(fsSize, fsOff, fsBufLen)
    }

    // After the bytes `s` have been read: the window starts on a page, ends inside the
    // truncated file and has `fsOff` bytes used, which end at the file's logical end; behind it are
    // zeros.
    ghost predicate Valid(s: seq<nat>)
      reads this
    {
      && Cfg().Sane() && Rem(base, pagesize) == 0 && base + fsOff == fsSize
      && base + fsBufLen <= fsMaxSize && fsSize <= fsMaxSize
      && |file| == fsMaxSize && fsSize == |s| && file[..fsSize] == s
      && forall i :: fsSize <= i < |file| ==> file[i] == 0
    }

    // setup_mmap.  The window moves exactly when the next read might not fit; the call fails when the
    // page remainder exceeds the whole window, whose length then wraps around.
    method SetupMmap(ghost s: seq<nat>) returns (ok: bool)
      requires Valid(s)
      modifies this
      ensures ok <==> Moved(old(Win()), Cfg()).len >= 0 || Room(old(Win()), Cfg())
      ensures ok ==> Valid(s) && Win() == Moved(old(Win()), Cfg()) && file[..fsSize] == old(file[..fsSize])
      ensures mapped == if Room(old(Win()), Cfg()) then old(mapped) else ok
    {
      ok := true;
      if fsOff + bufSize > fsBufLen {
        hide Rem;
        var nr := 16;
        if nr < bufNr {
          nr := bufNr;
        }
        mapped := false;
        fsOff := PageRemainder(fsSize, pagesize);
        var size := nr * bufSize;
        RoundDown(fsSize, pagesize);
        fsBufLen := size - fsOff;
        if fsBufLen < 0 {
          return false;
        }
        fsMaxSize := fsMaxSize + fsBufLen;
        file := file + seq(fsBufLen, _ => 0);
        base := fsSize - fsOff;
        mapped := true;
      }
    }

    // One successful read of handle_pfds_file: `data` fits into the window exactly by its state
    // before the call.
    method Read(data: seq<nat>, ghost s: seq<nat>) returns (ok: bool)
      requires Valid(s) && |data| <= bufSize
      modifies this
      ensures ok <==> Fits(old(Win()), Cfg())
      ensures ok ==> Valid(s + data) && Win() == After(old(Win()), Cfg(), |data|)
    {
      hide Rem;
      ok := SetupMmap(s);
      if !ok || fsOff + bufSize > fsBufLen {
        return false;
      }
      file := file[..fsSize] + data + file[fsSize + |data|..];
      fsSize := fsSize + |data|;
      fsOff := fsOff + |data|;
    }

    // close_iop: the file is cut to its logical length.
    method Close(ghost s: seq<nat>)
      requires Valid(s)
      modifies this
      ensures file == s && !mapped
    {
      file := file[..fsSize];
      mapped := false;
    }
  }

  // fs_size & (pagesize - 1)
  method PageRemainder(n: nat, p: nat) returns (r: nat)
    requires p > 0
    ensures r == Rem(n, p) && r <= n
  {
    QuotIsDiv(n, p);
    QuotRem(n, p);
    r := n % p;
  }

  lemma RoundDown(n: nat, p: nat)
    requires p > 0
    ensures Rem(n, p) <= n && Rem(n - Rem(n, p), p) == 0
  {
    QuotRem(n, p);
    QuotOf(Quot(n, p), p, 0);
  }

  ghost function Flat(chunks: seq<seq<nat>>): seq<nat> {
    if chunks == [] then [] else Flat(chunks[..|chunks| - 1]) + chunks[|chunks| - 1]
  }

  ghost function Lengths(chunks: seq<seq<nat>>): seq<nat> {
    seq(|chunks|, i requires 0 <= i < |chunks| => |chunks[i]|)
  }

  /** A whole trace: it succeeds exactly if every read fits, always so if the window is large enough,
      and then the final file is the concatenation of the reads. */
  method Trace(bufSize: nat, bufNr: nat, pagesize: nat, chunks: seq<seq<nat>>) returns (ok: bool, file: seq<nat>)
    requires pagesize > 0 && bufSize > 0
    requires forall i :: 0 <= i < |chunks| ==> |chunks[i]| <= bufSize
    ensures var c := Config(bufSize, if 16 < bufNr then bufNr else 16, pagesize);
      (ok <==> Run(START, c, Lengths(chunks))) && (c.Enough() ==> ok)
    ensures ok ==> file == Flat(chunks)
  {
    var mip := new MmapInfo(bufSize, bufNr, pagesize);
    ghost var c := mip.Cfg();
    if c.Enough() { EnoughRuns(START, c, Lengths(chunks)); }
    assert chunks[..0] == [] && Lengths([]) == [];
    for i := 0 to |chunks|
      invariant mip.Valid(Flat(chunks[..i])) && mip.Cfg() == c && fresh(mip)
      invariant Run(START, c, Lengths(chunks[..i])) && mip.Win() == End(START, c, Lengths(chunks[..i]))
    {
      assert chunks[..i + 1][..i] == chunks[..i];
      OneMore(c, chunks, i);
      ok := mip.Read(chunks[i], Flat(chunks[..i]));
      if !ok {
        return false, [];
      }
    }
    assert chunks[..|chunks|] == chunks;
    mip.Close(Flat(chunks));
    ok, file := true, mip.file;
  }

  lemma OneMore(c: Config, chunks: seq<seq<nat>>, i: nat)
    requires c.Sane() && i < |chunks|
    ensures var w := End(START, c, Lengths(chunks[..i]));
      && (Run(START, c, Lengths(chunks[..i + 1])) <==> Run(START, c, Lengths(chunks[..i])) && Fits(w, c))
      && End(START, c, Lengths(chunks[..i + 1])) == After(w, c, |chunks[i]|)
      && (Run(START, c, Lengths(chunks)) ==> Run(START, c, Lengths(chunks[..i + 1])))
  {
    hide Fits, After;
    var n := |chunks[i]|;
    var w := End(START, c, Lengths(chunks[..i]));
    assert Lengths(chunks[..i + 1]) == Lengths(chunks[..i]) + [n];
    RunAppend(START, c, Lengths(chunks[..i]), [n]);
    assert [n][1..] == [] && Run(w, c, [n]) == (Fits(w, c) && Run(After(w, c, n), c, []));
    assert Lengths(chunks) == Lengths(chunks[..i + 1]) + Lengths(chunks[i + 1..]);
    RunAppend(START, c, Lengths(chunks[..i + 1]), Lengths(chunks[i + 1..]));
  }
}
