/**
 The re-layout of sections in external/elfcopy/elfcopy.c: update_section_offsets
 (lines 2756-2820) places the kept sections behind the headers, with
 move_sections, adjust_section_offset and update_last_offset (lines 2497-2692).
 As it is built, it moves ranges of sections that get_end_of_range (lines
 2561-2600) finds; without MOVE_SECTIONS_IN_RANGES it moves them one by one.

 Offsets are unbounded; alignments are powers of two.
*/
module SectionLayout {

  // `idx` is the index in the new file, 0 for a section that is dropped; `ranged` is the test on flags,
  // type and name by which get_end_of_range takes a section into a range.
  datatype Section = Section(idx: nat, offset: int, size: nat, addr: int, alloc: bool, nobits: bool, align: nat, ranged: bool)

  ghost predicate Pow2(a: nat) {
    a == 1 || (a > 1 && a % 2 == 0 && Pow2(a / 2))
  }

  // 1 is one, and the others are the doubles of such.
  lemma Pow2Means(a: nat)
    ensures Pow2(1) && !Pow2(0) && (Pow2(2 * a) <==> Pow2(a)) && !Pow2(2 * a + 3)
  {
    if a > 0 { assert 2 * a / 2 == a; }
  }

  // (delta + (a - 1)) & ~(a - 1) in two's complement, for zero or a power of two.
  function RoundUp(delta: int, a: nat): int
    requires a == 0 || Pow2(a)
  {
    if a == 0 then 0 else (delta + a - 1) / a * a
  }

  ghost predicate Multiple(d: int, a: nat) {
    exists k: int :: d == k * a
  }

  lemma RoundUpLaw(delta: int, a: nat)
    requires Pow2(a)
    ensures delta <= RoundUp(delta, a) < delta + a && Multiple(RoundUp(delta, a), a)
  {
    var k := (delta + a - 1) / a;
    assert RoundUp(delta, a) == k * a;
    assert delta + a - 1 == k * a + (delta + a - 1) % a;
  }

  // The smaller of two powers of two divides the larger.
  lemma {:induction false} Pow2Divides(a: nat, b: nat) returns (q: nat)
    requires Pow2(a) && Pow2(b) && a <= b
    ensures b == q * a
  {
    if a == b {
      q := 1;
    } else {
      assert b > 1;
      Pow2Half(a, b);
      q := Pow2Divides(a, b / 2);
      assert b == 2 * (b / 2);
      q := 2 * q;
    }
  }

  lemma {:induction false} Pow2Half(a: nat, b: nat)
    requires Pow2(a) && Pow2(b) && a < b
    ensures a <= b / 2
  {
    if a > 1 { Pow2Half(a / 2, b / 2); }
  }

  lemma Regroup(k: int, q: int, a: int)
    ensures k * (q * a) == (k * q) * a
  {
  }

  lemma MultipleOfSmaller(d: int, a: nat, b: nat)
    requires Pow2(a) && Pow2(b) && a <= b && Multiple(d, b)
    ensures Multiple(d, a)
  {
    var k: int :| d == k * b;
    var q := Pow2Divides(a, b);
    Regroup(k, q, a);
  }

  // ---- One section ----

  // adjust_section_offset.
  ghost function Adjust(s: Section, delta: int): Section {
    s.(offset := s.offset + delta, addr := if s.alloc then s.addr + delta else s.addr)
  }

  // What a section takes up in the file.
  ghost function FileSize(s: Section): nat {
    if s.nobits then 0 else s.size
  }

  ghost predicate Moves(s: Section, adjust: bool) {
    s.idx > 0 && (adjust || !s.alloc)
  }

  // The section moved to the first offset from `last` on that keeps its alignment.
  ghost predicate Placed(s: Section, s': Section, last: int, align: nat) {
    && last <= s'.offset < last + align && Multiple(s'.offset - s.offset, align)
    && s' == s.(offset := s'.offset, addr := s'.addr)
    && (s.alloc ==> s'.addr - s'.offset == s.addr - s.offset)
    && (!s.alloc ==> s'.addr == s.addr)
  }

  lemma PlacedLaw(s: Section, last: int, align: nat)
    requires Pow2(align)
    ensures Placed(s, Adjust(s, RoundUp(last - s.offset, align)), last, align)
  {
    RoundUpLaw(last - s.offset, align);
    assert Adjust(s, RoundUp(last - s.offset, align)).offset - s.offset == RoundUp(last - s.offset, align);
  }

  // There is only one such place.
  lemma PlacedOnce(s: Section, a: Section, b: Section, last: int, align: nat)
    requires Placed(s, a, last, align) && Placed(s, b, last, align)
    ensures a == b
  {
    OneMultiple(a.offset - s.offset, b.offset - s.offset, align);
  }

  // Two multiples of `a` that are less than `a` apart are equal.
  lemma OneMultiple(x: int, y: int, a: nat)
    requires Multiple(x, a) && Multiple(y, a) && x - y < a && y - x < a
    ensures x == y
  {
    var k: int :| x == k * a;
    var l: int :| y == l * a;
    if k > l {
      Farther(k, l, a);
    } else if l > k {
      Farther(l, k, a);
    }
  }

  lemma Farther(k: int, l: int, a: nat)
    requires k > l
    ensures k * a >= l * a + a
  {
    assert k * a == l * a + a + (k - l - 1) * a;
  }

  // A section that was aligned for itself still is.
  lemma StaysAligned(s: Section, s': Section, last: int, align: nat)
    requires Placed(s, s', last, align) && Pow2(align) && Pow2(s.align) && s.align <= align && Multiple(s.offset, s.align)
    ensures Multiple(s'.offset, s.align)
  {
    MultipleOfSmaller(s'.offset - s.offset, s.align, align);
    var k: int :| s'.offset - s.offset == k * s.align;
    var l: int :| s.offset == l * s.align;
    assert s'.offset == (k + l) * s.align;
  }

  // ---- A block of sections ----

  method AdjustSectionOffset(s: Section, delta: int) returns (r: Section)
    ensures r == Adjust(s, delta)
  {
    r := s.(offset := s.offset + delta);
    if s.alloc {
      r := r.(addr := s.addr + delta);
    }
  }

  method UpdateLastOffset(s: Section, offset: int) returns (last: int)
    ensures offset <= last && s.offset + FileSize(s) <= last && (last == offset || last == s.offset + FileSize(s))
  {
    last := offset;
    var filesz := 0;
    if !s.nobits {
      filesz := s.size;
    }
    if last < s.offset + filesz {
      last := s.offset + filesz;
    }
  }

  /** move_sections: the sections from `start` up to `end` move by one distance; returns the new end
      of the file. */
  method MoveSections(secs: array<Section>, start: nat, end: nat, offset: int, alignment: nat, adjust: bool) returns (last: int)
    requires start < end <= secs.Length && (alignment == 0 || Pow2(alignment))
    modifies secs
    ensures forall i :: 0 <= i < secs.Length && !(start <= i < end && Moves(old(secs[i]), adjust)) ==> secs[i] == old(secs[i])
    ensures forall i :: start <= i < end && Moves(old(secs[i]), adjust) ==>
              secs[i] == Adjust(old(secs[i]), RoundUp(offset - old(secs[start]).offset, alignment))
    ensures offset <= last && forall i :: start <= i < end && secs[i].idx > 0 ==> secs[i].offset + FileSize(secs[i]) <= last
    ensures last == offset || exists i :: start <= i < end && secs[i].idx > 0 && last == secs[i].offset + FileSize(secs[i])
  {
    hide RoundUp, FileSize;
    var delta := RoundUp(offset - secs[start].offset, alignment);
    last := offset;
    var i := start;
    while i < end
      invariant start <= i <= end
      invariant forall k :: 0 <= k < secs.Length && !(start <= k < i && Moves(old(secs[k]), adjust)) ==> secs[k] == old(secs[k])
      invariant forall k :: start <= k < i && Moves(old(secs[k]), adjust) ==> secs[k] == Adjust(old(secs[k]), delta)
      invariant offset <= last && forall k :: start <= k < i && secs[k].idx > 0 ==> secs[k].offset + FileSize(secs[k]) <= last
      invariant last == offset || exists k :: start <= k < i && secs[k].idx > 0 && last == secs[k].offset + FileSize(secs[k])
    {
      if secs[i].idx > 0 {
        if adjust || !secs[i].alloc {
          var moved := AdjustSectionOffset(secs[i], delta);
          secs[i] := moved;
        }
        last := UpdateLastOffset(secs[i], last);
      }
      i := i + 1;
    }
  }

  // ---- The whole file ----

  // The layout of the sections below `k`, from `s` to `t`; `ends[i]` is the end of the file before
  // section `i` was placed.
  ghost predicate Laid(s: seq<Section>, t: seq<Section>, ends: seq<int>, aligns: seq<nat>, adjust: bool, k: nat) {
    && |s| == |t| == |aligns| && 1 <= k <= |s| && |ends| == k + 1
    && (forall i :: k <= i < |s| ==> t[i] == s[i])
    && forall i :: 0 <= i < k ==> Step(s, t, ends, aligns, adjust, i)
  }

  ghost predicate Step(s: seq<Section>, t: seq<Section>, ends: seq<int>, aligns: seq<nat>, adjust: bool, i: nat)
    requires |s| == |t| == |aligns| && i < |s| && i + 1 < |ends|
  {
    && ends[i] <= ends[i + 1]
    && (if i >= 1 && Moves(s[i], adjust) then Placed(s[i], t[i], ends[i], aligns[i]) else t[i] == s[i])
    && (i >= 1 && s[i].idx > 0 ==> t[i].offset + FileSize(t[i]) <= ends[i + 1])
    && (ends[i + 1] == ends[i] || (i >= 1 && s[i].idx > 0 && ends[i + 1] == t[i].offset + FileSize(t[i])))
  }

  /** update_section_offsets, with one section to a step.  `aligns` is what get_section_real_align
      returns. */
  method UpdateSectionOffsets(secs: array<Section>, headers: nat, aligns: seq<nat>, adjust: bool) returns (last: int, ghost ends: seq<int>)
    requires secs.Length > 0 && |aligns| == secs.Length
    requires forall i :: 1 <= i < |aligns| ==> if secs[i].idx > 0 then Pow2(aligns[i]) else aligns[i] == 0 || Pow2(aligns[i])
    modifies secs
    ensures Laid(old(secs[..]), secs[..], ends, aligns, adjust, secs.Length)
    ensures ends[0] == headers && ends[secs.Length] == last
  {
    ghost var s := secs[..];
    last, ends := headers, [headers, headers];
    var start := 1;
    while start < secs.Length
      invariant 1 <= start <= secs.Length && Laid(s, secs[..], ends, aligns, adjust, start) && ends[0] == headers && ends[start] == last
    {
      assert secs[start] == s[start];
      ghost var t := secs[..];
      var next := MoveSections(secs, start, start + 1, last, aligns[start], adjust);
      LaidStep(s, t, secs[..], ends, aligns, adjust, start, next);
      last, ends := next, ends + [next];
      start := start + 1;
    }
  }

  lemma LaidStep(s: seq<Section>, t: seq<Section>, t': seq<Section>, ends: seq<int>, aligns: seq<nat>, adjust: bool, k: nat, next: int)
    requires Laid(s, t, ends, aligns, adjust, k) && k < |s| && |t'| == |t| && (aligns[k] == 0 || Pow2(aligns[k])) && (s[k].idx > 0 ==> Pow2(aligns[k]))
    requires forall i :: 0 <= i < |t| && !(i == k && Moves(t[i], adjust)) ==> t'[i] == t[i]
    requires Moves(t[k], adjust) ==> t'[k] == Adjust(t[k], RoundUp(ends[k] - t[k].offset, aligns[k]))
    requires ends[k] <= next && (t'[k].idx > 0 ==> t'[k].offset + FileSize(t'[k]) <= next)
    requires next == ends[k] || (t'[k].idx > 0 && next == t'[k].offset + FileSize(t'[k]))
    ensures Laid(s, t', ends + [next], aligns, adjust, k + 1)
  {
    hide RoundUp, Placed;
    var e := ends + [next];
    if s[k].idx > 0 {
      PlacedLaw(t[k], ends[k], aligns[k]);
      PlacedSame(t[k], Adjust(t[k], RoundUp(ends[k] - t[k].offset, aligns[k])), ends[k], aligns[k]);
    }
    forall i | 0 <= i < k + 1 ensures Step(s, t', e, aligns, adjust, i) {
      if i < k {
        assert Step(s, t, ends, aligns, adjust, i);
        assert e[i] == ends[i] && e[i + 1] == ends[i + 1];
      }
    }
  }

  lemma PlacedSame(s: Section, s': Section, last: int, align: nat)
    requires Placed(s, s', last, align)
    ensures s'.idx == s.idx && FileSize(s') == FileSize(s) && last <= s'.offset
  {
  }

  lemma {:induction false} EndsGrow(s: seq<Section>, t: seq<Section>, ends: seq<int>, aligns: seq<nat>, adjust: bool, k: nat, i: nat, j: nat)
    requires Laid(s, t, ends, aligns, adjust, k) && i <= j <= k
    ensures ends[i] <= ends[j]
  {
    if i < j {
      EndsGrow(s, t, ends, aligns, adjust, k, i, j - 1);
      assert Step(s, t, ends, aligns, adjust, j - 1);
    }
  }

  // A section that moves starts behind the headers and behind every kept section before it.
  lemma NoOverlap(s: seq<Section>, t: seq<Section>, ends: seq<int>, aligns: seq<nat>, adjust: bool, i: nat, j: nat)
    requires Laid(s, t, ends, aligns, adjust, |s|) && 1 <= j < |s| && Moves(s[j], adjust)
    ensures ends[0] <= t[j].offset
    ensures 1 <= i < j && s[i].idx > 0 ==> t[i].offset <= t[j].offset && (!s[i].nobits ==> t[i].offset + s[i].size <= t[j].offset)
  {
    assert Step(s, t, ends, aligns, adjust, j);
    PlacedSame(s[j], t[j], ends[j], aligns[j]);
    EndsGrow(s, t, ends, aligns, adjust, |s|, 0, j);
    if 1 <= i < j {
      assert Step(s, t, ends, aligns, adjust, i);
      SameSize(s, t, ends, aligns, adjust, i);
      EndsGrow(s, t, ends, aligns, adjust, |s|, i + 1, j);
    }
  }

  // A section keeps everything but its offset and address.
  lemma SameSize(s: seq<Section>, t: seq<Section>, ends: seq<int>, aligns: seq<nat>, adjust: bool, i: nat)
    requires |s| == |t| == |aligns| && i < |s| && i + 1 < |ends| && Step(s, t, ends, aligns, adjust, i)
    ensures t[i] == s[i].(offset := t[i].offset, addr := t[i].addr) && FileSize(t[i]) == FileSize(s[i])
  {
    if i >= 1 && Moves(s[i], adjust) { PlacedSame(s[i], t[i], ends[i], aligns[i]); }
  }

  // With the adjustment of allocated sections on, the kept sections that occupy the file overlap
  // neither each other nor the headers, all of it lies before the end, and the distance of address and
  // offset is kept.
  lemma LayoutLaw(s: seq<Section>, t: seq<Section>, ends: seq<int>, aligns: seq<nat>)
    requires Laid(s, t, ends, aligns, true, |s|)
    ensures forall i :: 1 <= i < |s| && s[i].idx > 0 ==> Placed(s[i], t[i], ends[i], aligns[i]) && ends[0] <= t[i].offset <= ends[|s|]
    ensures forall i :: 1 <= i < |s| && s[i].idx > 0 && !s[i].nobits ==> t[i].offset + s[i].size <= ends[|s|]
    ensures forall i, j :: 1 <= i < j < |s| && s[i].idx > 0 && s[j].idx > 0 ==> t[i].offset <= t[j].offset
    ensures forall i, j :: 1 <= i < j < |s| && s[i].idx > 0 && s[j].idx > 0 && !s[i].nobits ==> t[i].offset + s[i].size <= t[j].offset
  {
    forall i | 1 <= i < |s| && s[i].idx > 0
      ensures Placed(s[i], t[i], ends[i], aligns[i]) && ends[0] <= t[i].offset && t[i].offset + FileSize(s[i]) <= ends[|s|]
    {
      assert Step(s, t, ends, aligns, true, i);
      SameSize(s, t, ends, aligns, true, i);
      NoOverlap(s, t, ends, aligns, true, i, i);
      EndsGrow(s, t, ends, aligns, true, |s|, i + 1, |s|);
    }
    forall i, j | 1 <= i < j < |s| && s[i].idx > 0 && s[j].idx > 0
      ensures t[i].offset <= t[j].offset && (!s[i].nobits ==> t[i].offset + s[i].size <= t[j].offset)
    {
      NoOverlap(s, t, ends, aligns, true, i, j);
    }
  }

  // Without it, allocated sections stay where they are, and the others are placed.
  lemma OthersMove(s: seq<Section>, t: seq<Section>, ends: seq<int>, aligns: seq<nat>, i: nat)
    requires Laid(s, t, ends, aligns, false, |s|) && i < |s|
    ensures i == 0 || s[i].idx == 0 || s[i].alloc ==> t[i] == s[i]
    ensures i > 0 && s[i].idx > 0 && !s[i].alloc ==> Placed(s[i], t[i], ends[i], aligns[i])
  {
    assert Step(s, t, ends, aligns, false, i);
  }

  // The end of the file is where the headers or some kept section with contents end, or where a kept
  // section without contents starts.
  lemma {:induction false} EndIsTight(s: seq<Section>, t: seq<Section>, ends: seq<int>, aligns: seq<nat>, adjust: bool, n: nat, k: nat)
    requires Laid(s, t, ends, aligns, adjust, n) && k <= n
    ensures ends[k] == ends[0] || exists i :: 1 <= i < k && s[i].idx > 0 && ends[k] == t[i].offset + if s[i].nobits then 0 else s[i].size
  {
    if k > 0 {
      EndIsTight(s, t, ends, aligns, adjust, n, k - 1);
      assert Step(s, t, ends, aligns, adjust, k - 1);
      SameSize(s, t, ends, aligns, adjust, k - 1);
    }
  }

  // ---- Ranges ----

  ghost predicate AlignsOk(s: seq<Section>, aligns: seq<nat>) {
    && |aligns| == |s|
    && forall i :: 1 <= i < |s| ==> if s[i].idx > 0 || s[i].ranged then Pow2(aligns[i]) else aligns[i] == 0 || Pow2(aligns[i])
  }

  /** get_end_of_range: the sections from `start` on that go together, at least one, and the largest of
      their alignments. */
  method GetEndOfRange(secs: array<Section>, start: nat, aligns: seq<nat>) returns (end: nat, alignment: nat)
    requires 1 <= start < secs.Length && AlignsOk(secs[..], aligns)
    ensures start < end <= secs.Length && (alignment == 0 || Pow2(alignment))
    ensures forall i :: start <= i < end ==> aligns[i] <= alignment
    ensures exists i :: start <= i < end && alignment == aligns[i]
    ensures end == start + 1 || forall i :: start <= i < end ==> secs[i].ranged
    ensures end < secs.Length && secs[start].ranged ==> !secs[end].ranged
  {
    end, alignment := start, aligns[start];
    assert secs[..][start] == secs[start];
    ghost var at := start;
    while end < secs.Length && secs[end].ranged
      invariant start <= end <= secs.Length && start <= at && (at < end || at == start) && alignment == aligns[at]
      invariant alignment == 0 || Pow2(alignment)
      invariant forall i :: start <= i < end ==> aligns[i] <= alignment && secs[i].ranged
    {
      assert secs[..][end] == secs[end];
      if aligns[end] > alignment {
        alignment, at := aligns[end], end;
      }
      end := end + 1;
    }
    if end == start {
      end := start + 1;
    }
  }

  // One range: sections `lo` to `hi`, all moved by the same distance from an end of the file `last`.
  datatype Range = Range(lo: nat, hi: nat, last: int, align: nat)

  ghost function Delta(s: seq<Section>, r: Range): int
    requires r.lo < |s| && (r.align == 0 || Pow2(r.align))
  {
    RoundUp(r.last - s[r.lo].offset, r.align)
  }

  ghost predicate RangeOk(s: seq<Section>, t: seq<Section>, aligns: seq<nat>, r: Range, next: int)
    requires |s| == |t| == |aligns|
  {
    && 1 <= r.lo < r.hi <= |s| && (r.align == 0 || Pow2(r.align)) && r.last <= next
    && Maximal(s, r) && (exists i :: r.lo <= i < r.hi && aligns[i] == r.align)
    && (forall i :: r.lo <= i < r.hi ==> aligns[i] <= r.align)
    && (forall i :: r.lo <= i < r.hi ==> MovedIn(s, t, r, next, i))
    && (next == r.last || exists i :: r.lo <= i < r.hi && s[i].idx > 0 && next == t[i].offset + FileSize(t[i]))
  }

  // One section, or all that follow each other and go together.
  ghost predicate Maximal(s: seq<Section>, r: Range)
    requires r.lo < r.hi <= |s|
  {
    && (r.hi == r.lo + 1 || forall i :: r.lo <= i < r.hi ==> s[i].ranged)
    && (s[r.lo].ranged && r.hi < |s| ==> !s[r.hi].ranged)
  }

  ghost predicate MovedIn(s: seq<Section>, t: seq<Section>, r: Range, next: int, i: nat)
    requires |s| == |t| && r.lo < |s| && (r.align == 0 || Pow2(r.align)) && i < |s|
  {
    && t[i] == (if s[i].idx > 0 then Adjust(s[i], Delta(s, r)) else s[i])
    && (s[i].idx > 0 ==> t[i].offset + FileSize(t[i]) <= next)
  }

  // The end of the file behind range `m`.
  ghost function EndOf(rs: seq<Range>, m: nat, last: int): int {
    if m + 1 < |rs| then rs[m + 1].last else last
  }

  // The ranges so far, one behind the other, up to section `k` and the end of the file `last`.
  ghost predicate LaidInRanges(s: seq<Section>, t: seq<Section>, aligns: seq<nat>, rs: seq<Range>, headers: int, k: nat, last: int) {
    && |s| == |t| == |aligns| && 1 <= k <= |s|
    && (if rs == [] then k == 1 && last == headers else rs[0].lo == 1 && rs[0].last == headers && rs[|rs| - 1].hi == k)
    && (forall m :: 0 <= m < |rs| ==> RangeOk(s, t, aligns, rs[m], EndOf(rs, m, last)))
    && (forall m :: 0 <= m < |rs| - 1 ==> rs[m].hi == rs[m + 1].lo)
    && (forall i :: k <= i < |s| ==> t[i] == s[i])
  }

  /** update_section_offsets in ranges, with alloc sections adjusted. */
  method UpdateInRanges(secs: array<Section>, headers: nat, aligns: seq<nat>) returns (last: int, ghost rs: seq<Range>)
    requires secs.Length > 0 && AlignsOk(secs[..], aligns)
    modifies secs
    ensures LaidInRanges(old(secs[..]), secs[..], aligns, rs, headers, secs.Length, last)
  {
    hide RoundUp, RangeOk;
    ghost var s := secs[..];
    last, rs := headers, [];
    var start := 1;
    while start < secs.Length
      invariant 1 <= start <= secs.Length && LaidInRanges(s, secs[..], aligns, rs, headers, start, last)
      invariant AlignsOk(secs[..], aligns)
    {
      ghost var t := secs[..];
      var end, alignment := GetEndOfRange(secs, start, aligns);
      var next := MoveSections(secs, start, end, last, alignment, true);
      ghost var r := Range(start, end, last, alignment);
      OneRange(s, t, secs[..], aligns, r, next);
      NextRange(s, t, secs[..], aligns, rs, headers, last, r, next);
      StillOk(t, secs[..], aligns);
      last, rs, start := next, rs + [r], end;
    }
  }

  // A move keeps what get_end_of_range looks at.
  lemma StillOk(t: seq<Section>, t': seq<Section>, aligns: seq<nat>)
    requires AlignsOk(t, aligns) && |t'| == |t|
    requires forall i :: 0 <= i < |t| ==> t'[i].idx == t[i].idx && t'[i].ranged == t[i].ranged
    ensures AlignsOk(t', aligns)
  {
  }

  // What move_sections has done to `t` is one range of the layout of `s`.
  lemma OneRange(s: seq<Section>, t: seq<Section>, t': seq<Section>, aligns: seq<nat>, r: Range, next: int)
    requires |s| == |t| == |t'| == |aligns| && 1 <= r.lo < r.hi <= |s| && (r.align == 0 || Pow2(r.align)) && r.last <= next
    requires forall i :: r.lo <= i < |s| ==> t[i] == s[i]
    requires Maximal(t, r) && (exists i :: r.lo <= i < r.hi && aligns[i] == r.align)
    requires forall i :: r.lo <= i < r.hi ==> aligns[i] <= r.align
    requires next == r.last || exists i :: r.lo <= i < r.hi && t'[i].idx > 0 && next == t'[i].offset + FileSize(t'[i])
    requires forall i :: r.lo <= i < r.hi ==> t'[i] == if Moves(t[i], true) then Adjust(t[i], Delta(t, r)) else t[i]
    requires forall i :: r.lo <= i < r.hi && t'[i].idx > 0 ==> t'[i].offset + FileSize(t'[i]) <= next
    ensures RangeOk(s, t', aligns, r, next)
  {
    hide RoundUp;
    assert Delta(t, r) == Delta(s, r);
    forall i | r.lo <= i < r.hi ensures MovedIn(s, t', r, next, i) {
      assert t'[i] == if Moves(t[i], true) then Adjust(t[i], Delta(t, r)) else t[i];
    }
  }

  lemma RangeSame(s: seq<Section>, t: seq<Section>, t': seq<Section>, aligns: seq<nat>, r: Range, next: int)
    requires |s| == |t| == |t'| == |aligns| && RangeOk(s, t, aligns, r, next) && forall i :: 0 <= i < r.hi ==> t'[i] == t[i]
    ensures RangeOk(s, t', aligns, r, next)
  {
    hide RoundUp;
    forall i | r.lo <= i < r.hi ensures MovedIn(s, t', r, next, i) {
      assert MovedIn(s, t, r, next, i);
    }
  }

  lemma {:induction false} RangesBelow(s: seq<Section>, t: seq<Section>, aligns: seq<nat>, rs: seq<Range>, headers: int, k: nat, last: int, m: nat)
    requires LaidInRanges(s, t, aligns, rs, headers, k, last) && m < |rs|
    ensures 1 <= rs[m].lo < rs[m].hi <= k
    decreases |rs| - m
  {
    assert RangeOk(s, t, aligns, rs[m], EndOf(rs, m, last));
    if m + 1 < |rs| { RangesBelow(s, t, aligns, rs, headers, k, last, m + 1); }
  }

  lemma NextRange(s: seq<Section>, t: seq<Section>, t': seq<Section>, aligns: seq<nat>, rs: seq<Range>, headers: int, last: int, r: Range, next: int)
    requires LaidInRanges(s, t, aligns, rs, headers, r.lo, last) && |t'| == |t| && r.last == last
    requires RangeOk(s, t', aligns, r, next) && forall i :: 0 <= i < |t| && !(r.lo <= i < r.hi) ==> t'[i] == t[i]
    ensures LaidInRanges(s, t', aligns, rs + [r], headers, r.hi, next)
  {
    hide RangeOk;
    RangeBounds(s, t', aligns, r, next);
    var rs' := rs + [r];
    forall m | 0 <= m < |rs'| ensures RangeOk(s, t', aligns, rs'[m], EndOf(rs', m, next)) {
      if m < |rs| {
        var end := EndOf(rs, m, last);
        assert RangeOk(s, t, aligns, rs[m], end);
        RangesBelow(s, t, aligns, rs, headers, r.lo, last, m);
        RangeSame(s, t, t', aligns, rs[m], end);
      }
    }
  }

  lemma RangeBounds(s: seq<Section>, t: seq<Section>, aligns: seq<nat>, r: Range, next: int)
    requires |s| == |t| == |aligns| && RangeOk(s, t, aligns, r, next)
    ensures 1 <= r.lo < r.hi <= |s| && r.last <= next
  {
  }

  // ---- What ranges keep ----

  // The gap that rounding leaves in front of a range.
  ghost function Gap(s: seq<Section>, r: Range): int
    requires r.lo < |s| && (r.align == 0 || Pow2(r.align))
  {
    s[r.lo].offset + Delta(s, r) - r.last
  }

  // In the old file, the section starts at most the gap before the first of its range.
  ghost predicate Follows(s: seq<Section>, r: Range, i: nat)
    requires r.lo < |s| && i < |s| && (r.align == 0 || Pow2(r.align))
  {
    s[r.lo].offset <= s[i].offset + Gap(s, r)
  }

  // The range a section is in.
  lemma {:induction false} RangeOf(s: seq<Section>, t: seq<Section>, aligns: seq<nat>, rs: seq<Range>, headers: int, k: nat, last: int, i: nat, n: nat)
    returns (m: nat)
    requires LaidInRanges(s, t, aligns, rs, headers, k, last) && 0 < n <= |rs| && 1 <= i < rs[n - 1].hi
    ensures m < n && rs[m].lo <= i < rs[m].hi
    decreases n
  {
    if rs[n - 1].lo <= i {
      m := n - 1;
    } else {
      m := RangeOf(s, t, aligns, rs, headers, k, last, i, n - 1);
    }
  }

  lemma {:induction false} RangesInOrder(s: seq<Section>, t: seq<Section>, aligns: seq<nat>, rs: seq<Range>, headers: int, k: nat, last: int, m: nat, n: nat)
    requires LaidInRanges(s, t, aligns, rs, headers, k, last) && m <= n <= |rs|
    ensures var end := if n < |rs| then rs[n].last else last; m < |rs| ==> rs[m].last <= end
    ensures m < n < |rs| ==> rs[m].hi <= rs[n].lo
    decreases n - m
  {
    hide RangeOk;
    if m < n {
      RangesInOrder(s, t, aligns, rs, headers, k, last, m, n - 1);
      var end := if n < |rs| then rs[n].last else last;
      assert RangeOk(s, t, aligns, rs[n - 1], EndOf(rs, n - 1, last));
      RangeBounds(s, t, aligns, rs[n - 1], end);
    }
  }

  // A kept section of a range: moved with its range, aligned as its own alignment asks, address and
  // offset equally far apart as before.  It starts behind what was placed before exactly if it follows
  // the first section of the range.
  lemma InRange(s: seq<Section>, t: seq<Section>, aligns: seq<nat>, r: Range, next: int, i: nat)
    requires |s| == |t| == |aligns| && RangeOk(s, t, aligns, r, next) && r.lo <= i < r.hi && s[i].idx > 0
    requires Pow2(aligns[i])
    ensures 0 <= Gap(s, r) < r.align && (r.last <= t[i].offset <==> Follows(s, r, i))
    ensures t[i].offset <= next && (!s[i].nobits ==> t[i].offset + s[i].size <= next)
    ensures t[i].offset == s[i].offset + Delta(s, r) && Multiple(t[i].offset - s[i].offset, aligns[i])
    ensures t[i] == s[i].(offset := t[i].offset, addr := if s[i].alloc then s[i].addr + t[i].offset - s[i].offset else s[i].addr)
  {
    hide RoundUp, Multiple;
    assert MovedIn(s, t, r, next, i);
    assert aligns[i] <= r.align;
    Positive(aligns[i]);
    RoundUpLaw(r.last - s[r.lo].offset, r.align);
    MultipleOfSmaller(Delta(s, r), aligns[i], r.align);
  }

  lemma Positive(a: nat)
    requires Pow2(a)
    ensures a > 0
  {
  }

  // Every kept section lies inside the file, aligned as before, and behind the headers and the ranges
  // before its own exactly if it follows the first section of its range.
  lemma RangesPlaced(s: seq<Section>, t: seq<Section>, aligns: seq<nat>, rs: seq<Range>, headers: int, last: int, i: nat) returns (m: nat)
    requires LaidInRanges(s, t, aligns, rs, headers, |s|, last) && AlignsOk(s, aligns)
    requires 1 <= i < |s| && s[i].idx > 0
    ensures m < |rs| && rs[m].lo <= i < rs[m].hi && rs[m].lo < |s| && (rs[m].align == 0 || Pow2(rs[m].align))
    ensures headers <= rs[m].last && 0 <= Gap(s, rs[m]) < rs[m].align
    ensures rs[m].last <= t[i].offset <==> Follows(s, rs[m], i)
    ensures t[i].offset <= EndOf(rs, m, last) && (!s[i].nobits ==> t[i].offset + s[i].size <= EndOf(rs, m, last))
    ensures t[i].offset == s[i].offset + Delta(s, rs[m]) && Multiple(t[i].offset - s[i].offset, aligns[i])
    ensures t[i] == s[i].(offset := t[i].offset, addr := if s[i].alloc then s[i].addr + t[i].offset - s[i].offset else s[i].addr)
  {
    hide RoundUp, Multiple, Delta, Gap, Follows;
    m := RangeOf(s, t, aligns, rs, headers, |s|, last, i, |rs|);
    var end := EndOf(rs, m, last);
    assert RangeOk(s, t, aligns, rs[m], end);
    InRange(s, t, aligns, rs[m], end, i);
    RangesInOrder(s, t, aligns, rs, headers, |s|, last, 0, m);
  }

  // Two kept sections of the new file overlap only if they are of one range and overlapped in the old,
  // or the second does not follow the first section of its range.
  lemma RangesApart(s: seq<Section>, t: seq<Section>, aligns: seq<nat>, rs: seq<Range>, headers: int, last: int, i: nat, j: nat)
    requires LaidInRanges(s, t, aligns, rs, headers, |s|, last) && AlignsOk(s, aligns)
    requires 1 <= i < j < |s| && s[i].idx > 0 && s[j].idx > 0
    ensures forall n :: 0 <= n < |rs| ==> rs[n].lo < |s| && (rs[n].align == 0 || Pow2(rs[n].align))
    ensures (exists m :: 0 <= m < |rs| && rs[m].lo <= i && j < rs[m].hi) ==>
              t[j].offset - t[i].offset == s[j].offset - s[i].offset
    ensures forall n :: 0 <= n < |rs| && i < rs[n].lo <= j < rs[n].hi && Follows(s, rs[n], j) ==>
              t[i].offset <= t[j].offset && (!s[i].nobits ==> t[i].offset + s[i].size <= t[j].offset)
    ensures t[i].offset <= last && (!s[i].nobits ==> t[i].offset + s[i].size <= last)
  {
    hide RoundUp, Multiple, Delta, RangeOk, Gap, Follows;
    AllRanges(s, t, aligns, rs, headers, last);
    var m := RangesPlaced(s, t, aligns, rs, headers, last, i);
    var n := RangesPlaced(s, t, aligns, rs, headers, last, j);
    RangesInOrder(s, t, aligns, rs, headers, |s|, last, m + 1, |rs|);
    if m < n {
      RangesInOrder(s, t, aligns, rs, headers, |s|, last, m + 1, n);
      RangesInOrder(s, t, aligns, rs, headers, |s|, last, m, n);
    } else if n < m {
      RangesInOrder(s, t, aligns, rs, headers, |s|, last, n, m);
    }
    forall k | 0 <= k < |rs| && rs[k].lo <= i && j < rs[k].hi ensures k == m == n {
      Apart(s, t, aligns, rs, headers, last, k, m, i);
      Apart(s, t, aligns, rs, headers, last, k, n, j);
    }
    forall k | 0 <= k < |rs| && i < rs[k].lo <= j < rs[k].hi ensures k == n && m < n {
      Apart(s, t, aligns, rs, headers, last, k, n, j);
    }
  }

  lemma AllRanges(s: seq<Section>, t: seq<Section>, aligns: seq<nat>, rs: seq<Range>, headers: int, last: int)
    requires LaidInRanges(s, t, aligns, rs, headers, |s|, last)
    ensures forall n :: 0 <= n < |rs| ==> rs[n].lo < |s| && (rs[n].align == 0 || Pow2(rs[n].align))
  {
    forall n | 0 <= n < |rs| ensures rs[n].lo < |s| && (rs[n].align == 0 || Pow2(rs[n].align)) {
      assert RangeOk(s, t, aligns, rs[n], EndOf(rs, n, last));
    }
  }

  lemma Apart(s: seq<Section>, t: seq<Section>, aligns: seq<nat>, rs: seq<Range>, headers: int, last: int, k: nat, m: nat, i: nat)
    requires LaidInRanges(s, t, aligns, rs, headers, |s|, last) && k < |rs| && m < |rs|
    requires rs[k].lo <= i < rs[k].hi && rs[m].lo <= i < rs[m].hi
    ensures k == m
  {
    hide RangeOk;
    if k < m {
      RangesInOrder(s, t, aligns, rs, headers, |s|, last, k, m);
    } else if m < k {
      RangesInOrder(s, t, aligns, rs, headers, |s|, last, m, k);
    }
  }

  // Two sections of one range, the second of them first in the old file: however they are laid out,
  // the second starts inside the headers.
  lemma IntoTheHeaders(t: seq<Section>, rs: seq<Range>, last: int)
    requires LaidInRanges(Backwards(), t, [1, 1, 1], rs, 100, 3, last)
    ensures t[1].offset == 100 && t[2].offset == 50 && rs == [Range(1, 3, 100, 1)]
  {
    hide Maximal;
    var s := Backwards();
    assert rs != [];
    assert RangeOk(s, t, [1, 1, 1], rs[0], EndOf(rs, 0, last));
    TwoTogether(rs[0]);
    assert MovedIn(s, t, rs[0], EndOf(rs, 0, last), 1) && MovedIn(s, t, rs[0], EndOf(rs, 0, last), 2);
  }

  lemma TwoTogether(r: Range)
    requires r.lo == 1 && r.lo < r.hi <= 3 && Maximal(Backwards(), r)
    ensures r.hi == 3
  {
  }

  function Backwards(): seq<Section> {
    [Section(0, 0, 0, 0, false, false, 0, false), Section(1, 200, 10, 200, true, false, 1, true), Section(2, 150, 10, 150, true, false, 1, true)]
  }
}
