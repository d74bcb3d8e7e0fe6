/**
 Record re-framing in external/blktrace/blktrace.c (tb_combine and
 handle_list_file, lines 1297-1385): a byte stream cut into buffers anywhere is
 written out in whole trace records.
*/
module Reframe {
  import opened Basics

  // sizeof(struct blk_io_trace), and the offset of its 16-bit pdu_len.
  const HEADER := 48
  const PDU_LEN_AT := 46

  // The length of the record that starts with this header, in host byte order (little endian).
  ghost function RecordLength(s: seq<byte>): (n: nat)
    requires |s| >= HEADER
    ensures n >= HEADER
  {
    var lo: nat, hi: nat := s[PDU_LEN_AT], s[PDU_LEN_AT + 1];
    HEADER + lo + 256 * hi
  }

  // It is read from the header alone.
  lemma RecordLengthOfPrefix(s: seq<byte>, t: seq<byte>)
    requires |s| >= HEADER
    ensures RecordLength(s + t) == RecordLength(s)
  {
  }

  lemma LengthAt(buf: seq<byte>, off: nat)
    requires off + HEADER <= |buf|
    ensures var lo: nat, hi: nat := buf[off + PDU_LEN_AT], buf[off + PDU_LEN_AT + 1]; RecordLength(buf[off..]) == HEADER + (lo + 256 * hi)
  {
  }

  // A whole record stands at the front.
  ghost predicate Whole(s: seq<byte>) {
    |s| >= HEADER && RecordLength(s) <= |s|
  }

  // The records of a stream, as far as they are whole: how many, and where they end.
  ghost function Count(s: seq<byte>): nat {
    if Whole(s) then 1 + Count(s[RecordLength(s)..]) else 0
  }

  ghost function Cut(s: seq<byte>): (n: nat)
    ensures n <= |s| && !Whole(s[n..])
  {
    if Whole(s) then
      var l := RecordLength(s);
      assert s[l..][Cut(s[l..])..] == s[l + Cut(s[l..])..];
      l + Cut(s[l..])
    else
      assert s[0..] == s;
      0
  }

  // More bytes only extend the framing: what is left over is framed again together with them.
  lemma {:induction false} CutAppend(s: seq<byte>, t: seq<byte>)
    ensures Cut(s + t) == Cut(s) + Cut(s[Cut(s)..] + t)
    ensures Count(s + t) == Count(s) + Count(s[Cut(s)..] + t)
    decreases |s|
  {
    hide RecordLength;
    if |s| >= HEADER { RecordLengthOfPrefix(s, t); }
    if Whole(s) {
      var l := RecordLength(s);
      CutAppend(s[l..], t);
      assert (s + t)[l..] == s[l..] + t;
      assert s[Cut(s)..] == s[l..][Cut(s[l..])..];
    } else {
      assert s[0..] == s;
    }
  }

  // The loop of handle_list_file over one buffer.
  method Scan(buf: seq<byte>) returns (off: nat, nevents: nat)
    ensures off == Cut(buf) && nevents == Count(buf)
  {
    hide RecordLength;
    off := 0;
    nevents := 0;
    assert buf[0..] == buf;
    while off + HEADER <= |buf|
      invariant off <= |buf| && off + Cut(buf[off..]) == Cut(buf) && nevents + Count(buf[off..]) == Count(buf)
      decreases |buf| - off
    {
      var lo: nat, hi: nat := buf[off + PDU_LEN_AT], buf[off + PDU_LEN_AT + 1];
      var len := HEADER + (lo + 256 * hi);
      LengthAt(buf, off);
      if off + len > |buf| {
        break;
      }
      assert buf[off..][len..] == buf[off + len..];
      off := off + len;
      nevents := nevents + 1;
    }
  }

  // One more buffer behind the kept bytes.
  lemma Refill(s: seq<byte>, buf: seq<byte>, tbp: seq<byte>)
    requires tbp == s[Cut(s)..] + buf
    ensures Cut(s) <= |s| && Cut(tbp) <= |tbp| && Cut(s + buf) == Cut(s) + Cut(tbp) && Count(s + buf) == Count(s) + Count(tbp)
    ensures (s + buf)[..Cut(s + buf)] == s[..Cut(s)] + tbp[..Cut(tbp)]
    ensures (s + buf)[Cut(s + buf)..] == tbp[Cut(tbp)..]
    ensures tbp[0..] == tbp && tbp[..0] == [] && tbp[|tbp|..] == []
  {
    hide Count, Cut, Whole;
    CutAppend(s, buf);
    Regroup(s, buf, Cut(s), Cut(tbp));
  }

  lemma Regroup(s: seq<byte>, t: seq<byte>, k: nat, o: nat)
    requires k <= |s| && o <= |s[k..] + t|
    ensures (s + t)[..k + o] == s[..k] + (s[k..] + t)[..o]
    ensures (s + t)[k + o..] == (s[k..] + t)[o..]
  {
    assert s + t == s[..k] + (s[k..] + t);
  }

  ghost function Flat(list: seq<seq<byte>>): seq<byte> {
    if list == [] then [] else Flat(list[..|list| - 1]) + list[|list| - 1]
  }

  class Head {
    var prev: Option<seq<byte>>
    var written: seq<byte>
    var nevents: nat

    constructor ()
      ensures Framed([])
    {
      prev, written, nevents := None, [], 0;
    }

    ghost function Kept(): seq<byte>
      reads this
    {
      if prev.Some? then prev.value else []
    }

    // Of the stream `s` exactly the whole records are written and counted, the rest is kept.
    ghost predicate Framed(s: seq<byte>)
      reads this
    {
      written == s[..Cut(s)] && Kept() == s[Cut(s)..] && nevents == Count(s)
    }

    // One buffer, written successfully.
    method HandleBuffer(buf: seq<byte>, ghost s: seq<byte>)
      requires Framed(s)
      modifies this
      ensures Framed(s + buf)
    {
      hide *;
      FramedIs(s);
      var tbp := if prev.Some? then prev.value + buf else buf;
      Refill(s, buf, tbp);
      var off, n := Scan(tbp);
      if n > 0 {
        nevents := nevents + n;
      }
      if off > 0 {
        written := written + tbp[..off];
        if off == |tbp| {
          prev := None;
        } else {
          prev := Some(tbp[off..]);
        }
      } else {
        prev := Some(tbp);
      }
      IsFramed(s + buf);
    }

    lemma FramedIs(s: seq<byte>)
      requires Framed(s)
      ensures Cut(s) <= |s| && written == s[..Cut(s)] && nevents == Count(s)
      ensures (if prev.Some? then prev.value else []) == s[Cut(s)..]
    {
    }

    lemma IsFramed(s: seq<byte>)
      requires Cut(s) <= |s| && written == s[..Cut(s)] && nevents == Count(s)
      requires (if prev.Some? then prev.value else []) == s[Cut(s)..]
      ensures Framed(s)
    {
    }

    // handle_list_file, with successful writes.
    method HandleListFile(list: seq<seq<byte>>, ghost s: seq<byte>) returns (handled: nat)
      requires Framed(s)
      modifies this
      ensures handled == |list| && Framed(s + Flat(list))
    {
      handled := 0;
      assert list[..0] == [] && s + [] == s;
      while handled < |list|
        invariant handled <= |list| && Framed(s + Flat(list[..handled]))
      {
        HandleBuffer(list[handled], s + Flat(list[..handled]));
        assert list[..handled + 1][..handled] == list[..handled];
        assert s + Flat(list[..handled + 1]) == s + Flat(list[..handled]) + list[handled];
        handled := handled + 1;
      }
      assert list[..|list|] == list;
    }
  }

  // The outcome depends on the bytes alone, not on how they were cut into buffers.
  lemma CuttingDoesNotMatter(a: Head, b: Head, s: seq<byte>, lista: seq<seq<byte>>, listb: seq<seq<byte>>)
    requires a.Framed(s + Flat(lista)) && b.Framed(s + Flat(listb)) && Flat(lista) == Flat(listb)
    ensures a.written == b.written && a.Kept() == b.Kept() && a.nevents == b.nevents
    ensures a.written + a.Kept() == s + Flat(lista) && !Whole(a.Kept())
  {
    hide Cut, Count, Whole;
    var t := s + Flat(lista);
    assert t == t[..Cut(t)] + t[Cut(t)..];
  }

  // ---- Streams of records ----

  // struct blk_io_trace: 46 bytes, the length of the payload, low byte first, and the payload.
  datatype Record = Record(head: seq<byte>, lo: byte, hi: byte, pdu: seq<byte>)

  ghost predicate RecordOk(r: Record) {
    var lo: nat, hi: nat := r.lo, r.hi; |r.head| == 46 && |r.pdu| == lo + 256 * hi
  }

  ghost function Bytes(r: Record): seq<byte> {
    r.head + [r.lo, r.hi] + r.pdu
  }

  ghost function Stream(rs: seq<Record>): seq<byte> {
    if rs == [] then [] else Bytes(rs[0]) + Stream(rs[1..])
  }

  // Part of a record.
  ghost predicate Partial(s: seq<byte>) {
    |s| >= 48 ==> var lo: nat, hi: nat := s[46], s[47]; |s| < 48 + lo + 256 * hi
  }

  lemma RecordFramed(r: Record, t: seq<byte>)
    requires RecordOk(r)
    ensures var s := Bytes(r) + t; Whole(s) && RecordLength(s) == |Bytes(r)| && s[|Bytes(r)|..] == t
  {
    var s := Bytes(r) + t;
    assert s[46] == r.lo && s[47] == r.hi;
  }

  lemma {:induction false} RecordsFramed(rs: seq<Record>, rest: seq<byte>)
    requires (forall i :: 0 <= i < |rs| ==> RecordOk(rs[i])) && Partial(rest)
    ensures Cut(Stream(rs) + rest) == |Stream(rs)| && Count(Stream(rs) + rest) == |rs|
    decreases |rs|
  {
    hide Bytes, RecordOk, RecordLength;
    if rs == [] {
      assert Stream(rs) + rest == rest;
      PartialIs(rest);
    } else {
      var t := Stream(rs[1..]) + rest;
      RecordFramed(rs[0], t);
      assert Stream(rs) + rest == Bytes(rs[0]) + t;
      RecordsFramed(rs[1..], rest);
    }
  }

  lemma PartialIs(s: seq<byte>)
    requires Partial(s)
    ensures !Whole(s)
  {
  }

  // A stream of records that ends within one: exactly the records before it are written and counted,
  // and the part is kept, however the bytes were cut into buffers.
  lemma RecordsWritten(h: Head, rs: seq<Record>, rest: seq<byte>, list: seq<seq<byte>>)
    requires (forall i :: 0 <= i < |rs| ==> RecordOk(rs[i])) && Partial(rest) && Flat(list) == Stream(rs) + rest
    requires h.Framed(Flat(list))
    ensures h.written == Stream(rs) && h.Kept() == rest && h.nevents == |rs|
  {
    hide Cut, Count, RecordOk, Partial;
    RecordsFramed(rs, rest);
  }
}
