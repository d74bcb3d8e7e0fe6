/**
 The two passes over call-frame instructions in external/elfcopy/dwarf.c, inside
 display_debug_frames (section 6.4.2 of DWARF 3): the first (lines 3331-3449)
 allocates a column for every register the instructions name, the second (lines
 3454-3773) interprets them and writes the columns.  Each has its own switch over
 the opcodes, and the second relies on the first having stepped through the same
 instructions.

 Modelled are the cursor and the number of columns, with every write to a column
 checked against it; what the columns hold is not.
*/
module FrameProgram {
  import opened Basics

  // ---- LEB128 ----

  const WORD64 := 0x1_0000_0000_0000_0000

  // The position behind the number at `pos`; past the end of the data if it does not end.
  ghost function LebEnd(data: seq<nat>, pos: nat): (r: nat)
    ensures r > pos
    decreases |data| - pos
  {
    if pos >= |data| then pos + 1 else if data[pos] < 128 then pos + 1 else LebEnd(data, pos + 1)
  }

  // The number, seven bits to a byte from the lowest; `signed` takes the top bit as its sign.
  ghost function LebValue(data: seq<nat>, pos: nat, signed: bool): int
    decreases |data| - pos
  {
    if pos >= |data| then 0
    else if data[pos] < 128 then data[pos] - if signed && data[pos] >= 64 then 128 else 0
    else data[pos] % 128 + 128 * LebValue(data, pos + 1, signed)
  }

  ghost function Pow128(k: nat): nat {
    if k == 0 then 1 else 128 * Pow128(k - 1)
  }

  lemma TenBytes()
    ensures Pow128(10) == 64 * WORD64
  {
    assert Pow128(5) == 128 * Pow128(4) == 0x8_0000_0000;
    assert Pow128(10) == 128 * Pow128(9) == 128 * 128 * Pow128(8) == 128 * 128 * 128 * Pow128(7);
    assert Pow128(7) == 128 * Pow128(6) == 128 * 128 * Pow128(5);
  }

  // One byte of a number: `p` is the weight of its lowest bit.
  lemma Weigh(p: nat, b: nat, v: int)
    ensures p * (b + 128 * v) == p * b + (p * 128) * v
  {
  }

  lemma SameResidue(a: int, p: nat)
    requires p % WORD64 == 0
    ensures (a - p) % WORD64 == a % WORD64
  {
    var q := p / WORD64;
    assert a - p == a - WORD64 * q;
    ResidueOf(a, q);
  }

  lemma ResidueOf(a: int, q: int)
    ensures (a - WORD64 * q) % WORD64 == a % WORD64
  {
    var d, r := a / WORD64, a % WORD64;
    assert a - WORD64 * q == WORD64 * (d - q) + r;
  }

  // The number ends inside the data and has at most ten bytes.  From the eleventh on the code shifts by
  // 70 bits and more, which C leaves undefined (LongNumber).
  ghost predicate LebOk(data: seq<nat>, pos: nat) {
    LebEnd(data, pos) <= |data| && LebEnd(data, pos) - pos <= 10
  }

  /** read_leb128 at `pos`; `ok` is false if the number runs off the end of the data or has more than
      ten bytes.  The topmost bits of a tenth byte are lost. */
  method ReadLeb128(data: seq<nat>, pos: nat, sign: bool) returns (ok: bool, value: nat, length: nat)
    requires forall i :: 0 <= i < |data| ==> data[i] < 256
    ensures ok <==> LebOk(data, pos)
    ensures ok ==> pos + length == LebEnd(data, pos) && value == LebValue(data, pos, sign) % WORD64
  {
    hide Pow128, LebEnd, LebValue, Weight;
    var result: int, power: nat, n := 0, 1, 0;
    PowStart();
    LebOff(data, pos);
    WeightOne(LebValue(data, pos, sign));
    while pos + n < |data| && n < 10
      invariant n <= 10 && (pos + n <= |data| || n == 0)
      invariant LebEnd(data, pos) == LebEnd(data, pos + n) > pos + n && power == Pow128(n)
      invariant result + Weight(power, LebValue(data, pos + n, sign)) == LebValue(data, pos, sign)
      decreases 10 - n
    {
      var byte := data[pos + n];
      PowNext(n);
      LebByte(data, pos + n, power, sign);
      LebOff(data, pos + n + 1);
      result := result + Weight(power, byte % 128);
      power := power * 128;
      n := n + 1;
      if byte < 128 {
        // 7 * n is the shift reached.
        if sign && 7 * n < 64 && byte >= 64 {
          return true, (result - power) % WORD64, n;
        }
        if sign && byte >= 64 { TopBit(result, power); }
        return true, result % WORD64, n;
      }
    }
    return false, 0, n;
  }

  // (byte & 0x7f) << shift, and the value of the bytes from some place on.
  function Weight(power: nat, v: int): int {
    power * v
  }

  lemma WeightOne(v: int)
    ensures Weight(1, v) == v
  {
  }

  lemma TopBit(result: int, power: nat)
    requires power == Pow128(10)
    ensures (result - power) % WORD64 == result % WORD64
  {
    hide Pow128;
    TenBytes();
    SameResidue(result, power);
  }

  // The first byte of a number, `power` being the weight of its lowest bit.
  lemma LebByte(data: seq<nat>, pos: nat, power: nat, sign: bool)
    requires pos < |data|
    ensures LebEnd(data, pos) == if data[pos] < 128 then pos + 1 else LebEnd(data, pos + 1)
    ensures Weight(power, LebValue(data, pos, sign)) - Weight(power, data[pos] % 128) ==
      if data[pos] >= 128 then Weight(power * 128, LebValue(data, pos + 1, sign)) else if sign && data[pos] >= 64 then -(power * 128) else 0
  {
    if data[pos] >= 128 {
      Weigh(power, data[pos] % 128, LebValue(data, pos + 1, sign));
    } else {
      TopByte(power, data[pos]);
    }
  }

  lemma LebOff(data: seq<nat>, pos: nat)
    ensures LebEnd(data, pos) > pos && (pos >= |data| ==> LebEnd(data, pos) > |data|)
  {
  }

  lemma PowStart()
    ensures Pow128(0) == 1
  {
  }

  lemma PowNext(n: nat)
    ensures Pow128(n + 1) == Pow128(n) * 128
  {
  }

  lemma TopByte(p: nat, b: nat)
    ensures p * (b - 128) == p * b - p * 128
  {
  }

  // The usual encoding of a number.
  ghost function Encode(v: nat): seq<nat> {
    if v < 128 then [v] else [v % 128 + 128] + Encode(v / 128)
  }

  // Reading an encoded number returns it and stops behind it; the numbers that fit into 64 bits are
  // short enough to be read.
  lemma LebRoundTrip(v: nat, pre: seq<nat>, post: seq<nat>)
    ensures var data := pre + Encode(v) + post;
      && LebEnd(data, |pre|) == |pre| + |Encode(v)| && LebValue(data, |pre|, false) == v
      && (v < WORD64 ==> LebOk(data, |pre|) && LebValue(data, |pre|, false) % WORD64 == v)
  {
    hide LebEnd, LebValue, Encode, Pow128;
    EncodedBack(v, pre, post);
    TenBytes();
    if v < WORD64 { EncodeLength(v, 9); }
  }

  lemma {:induction false} EncodedBack(v: nat, pre: seq<nat>, post: seq<nat>)
    ensures var data := pre + Encode(v) + post;
      LebEnd(data, |pre|) == |pre| + |Encode(v)| && LebValue(data, |pre|, false) == v
  {
    var data := pre + Encode(v) + post;
    if v >= 128 {
      var pre' := pre + [v % 128 + 128];
      assert data == pre' + Encode(v / 128) + post;
      assert data[|pre|] == v % 128 + 128;
      EncodedBack(v / 128, pre', post);
      assert (v % 128 + 128) % 128 == v % 128;
    } else {
      assert data[|pre|] == v;
    }
  }

  lemma {:induction false} EncodeLength(v: nat, n: nat)
    requires v < Pow128(n + 1)
    ensures |Encode(v)| <= n + 1
    decreases n
  {
    PowNext(n);
    if v >= 128 {
      if n == 0 { PowStart(); }
      EncodeLength(v / 128, n - 1);
    }
  }

  // ---- Instructions ----

  const DW_CFA_advance_loc := 0x40
  const DW_CFA_offset := 0x80
  const DW_CFA_restore := 0xC0
  const DW_CFA_nop := 0x00
  const DW_CFA_set_loc := 0x01
  const DW_CFA_advance_loc1 := 0x02
  const DW_CFA_advance_loc2 := 0x03
  const DW_CFA_advance_loc4 := 0x04
  const DW_CFA_offset_extended := 0x05
  const DW_CFA_restore_extended := 0x06
  const DW_CFA_undefined := 0x07
  const DW_CFA_same_value := 0x08
  const DW_CFA_register := 0x09
  const DW_CFA_remember_state := 0x0A
  const DW_CFA_restore_state := 0x0B
  const DW_CFA_def_cfa := 0x0C
  const DW_CFA_def_cfa_register := 0x0D
  const DW_CFA_def_cfa_offset := 0x0E
  const DW_CFA_def_cfa_expression := 0x0F
  const DW_CFA_expression := 0x10
  const DW_CFA_offset_extended_sf := 0x11
  const DW_CFA_def_cfa_sf := 0x12
  const DW_CFA_def_cfa_offset_sf := 0x13
  const DW_CFA_val_offset := 0x14
  const DW_CFA_val_offset_sf := 0x15
  const DW_CFA_val_expression := 0x16
  const DW_CFA_MIPS_advance_loc8 := 0x1D
  const DW_CFA_GNU_window_save := 0x2D
  const DW_CFA_GNU_args_size := 0x2E
  const DW_CFA_GNU_negative_offset_extended := 0x2F

  // `op` and `opa` of an instruction's first byte.
  ghost function Op(b: nat): nat {
    if b / 64 % 4 != 0 then b / 64 % 4 * 64 else b
  }

  ghost function Opa(b: nat): nat {
    b % 64
  }

  // opa = op & 0x3f; if (op & 0xc0) op &= 0xc0;
  method FirstByte(b: nat) returns (op: nat, opa: nat)
    requires b < 256
    ensures op == Op(b) && opa == Opa(b)
  {
    op, opa := b, b % 64;
    if op >= 64 {
      op := op - opa;
    }
  }

  // The operands of an instruction, as the standard lists them: numbers, fixed fields, and
  // expressions preceded by their length.
  datatype Operand = Leb | Field(n: nat) | Block

  ghost function Operands(op: nat, ptr: nat): seq<Operand> {
    if op == DW_CFA_set_loc then [Field(ptr)]
    else if op == DW_CFA_advance_loc1 then [Field(1)]
    else if op == DW_CFA_advance_loc2 then [Field(2)]
    else if op == DW_CFA_advance_loc4 then [Field(4)]
    else if op == DW_CFA_MIPS_advance_loc8 then [Field(8)]
    else if op in {DW_CFA_offset, DW_CFA_restore_extended, DW_CFA_undefined, DW_CFA_same_value, DW_CFA_def_cfa_register,
                   DW_CFA_def_cfa_offset, DW_CFA_def_cfa_offset_sf, DW_CFA_GNU_args_size} then [Leb]
    else if op in {DW_CFA_offset_extended, DW_CFA_val_offset, DW_CFA_register, DW_CFA_def_cfa, DW_CFA_def_cfa_sf,
                   DW_CFA_offset_extended_sf, DW_CFA_val_offset_sf, DW_CFA_GNU_negative_offset_extended} then [Leb, Leb]
    else if op == DW_CFA_def_cfa_expression then [Block]
    else if op in {DW_CFA_expression, DW_CFA_val_expression} then [Leb, Block]
    else []
  }

  ghost predicate Known(op: nat) {
    || Operands(op, 0) != []
    || op in {DW_CFA_advance_loc, DW_CFA_restore, DW_CFA_nop, DW_CFA_remember_state, DW_CFA_restore_state, DW_CFA_GNU_window_save}
  }

  ghost function Length(data: seq<nat>, pos: nat): nat {
    LebValue(data, pos, false) % WORD64
  }

  // The position behind the operands; none if a number or a block runs off the data, or a number is too
  // long.  A cursor that leaves the data may wrap around and come back (WrappingBlock).
  ghost function Behind(data: seq<nat>, pos: nat, l: seq<Operand>): (r: Option<nat>)
    ensures r.Some? ==> r.value >= pos
    decreases |l|
  {
    if l == [] then Some(pos)
    else match l[0]
      case Field(n) => Behind(data, pos + n, l[1..])
      case Leb =>
        if !LebOk(data, pos) then None else Behind(data, LebEnd(data, pos), l[1..])
      case Block =>
        if !LebOk(data, pos) || LebEnd(data, pos) + Length(data, pos) > |data| then None
        else Behind(data, LebEnd(data, pos) + Length(data, pos), l[1..])
  }

  // The next instruction.
  ghost function Next(data: seq<nat>, pos: nat, ptr: nat): (r: Option<nat>)
    requires pos < |data|
    ensures r.Some? ==> r.value > pos
  {
    Behind(data, pos + 1, Operands(Op(data[pos]), ptr))
  }

  // The column the instruction names.
  ghost function Column(data: seq<nat>, pos: nat): Option<nat>
    requires pos < |data|
  {
    var op := Op(data[pos]);
    if op in {DW_CFA_offset, DW_CFA_restore} then Some(Opa(data[pos]))
    else if op in {DW_CFA_offset_extended, DW_CFA_val_offset, DW_CFA_restore_extended, DW_CFA_undefined, DW_CFA_same_value,
                   DW_CFA_register, DW_CFA_expression, DW_CFA_val_expression, DW_CFA_offset_extended_sf, DW_CFA_val_offset_sf,
                   DW_CFA_GNU_negative_offset_extended} then Some(Length(data, pos + 1))
    else None
  }

  // ---- Columns ----

  // ncols after frame_need_space(fc, reg).
  ghost function Grow(ncols: int, reg: int): int {
    if AsInt(reg) < ncols then ncols else AsInt(AsInt(reg) + 1)
  }

  // A register number that survives the conversion, and the addition of one.
  ghost predicate Small(reg: nat) {
    reg < INT_MAX
  }

  // After frame_need_space the column exists exactly if the number is small.
  lemma GrowLaw(ncols: int, reg: nat)
    requires ncols <= INT_MAX
    ensures reg < Grow(ncols, reg) <==> Small(reg)
    ensures Small(reg) <==> reg < 0x7FFF_FFFF
    ensures Grow(ncols, reg) <= INT_MAX && (Small(reg) ==> ncols <= Grow(ncols, reg))
  {
  }

  ghost predicate Bytes(data: seq<nat>) {
    forall i :: 0 <= i < |data| ==> data[i] < 256
  }

  // The shapes operands come in, unfolded.
  lemma Shapes(data: seq<nat>, pos: nat, n: nat)
    ensures Behind(data, pos, []) == Some(pos) && Behind(data, pos, [Field(n)]) == Some(pos + n)
    ensures Behind(data, pos, [Leb]) == if !LebOk(data, pos) then None else Some(LebEnd(data, pos))
    ensures Behind(data, pos, [Block]) ==
      if !LebOk(data, pos) || LebEnd(data, pos) + Length(data, pos) > |data| then None else Some(LebEnd(data, pos) + Length(data, pos))
  {
    hide LebEnd, LebValue, LebOk;
    assert [Field(n)][1..] == [] && [Leb][1..] == [] && [Block][1..] == [];
  }

  lemma PairShapes(data: seq<nat>, pos: nat)
    ensures Behind(data, pos, [Leb, Leb]) == if !LebOk(data, pos) then None else Behind(data, LebEnd(data, pos), [Leb])
    ensures Behind(data, pos, [Leb, Block]) == if !LebOk(data, pos) then None else Behind(data, LebEnd(data, pos), [Block])
  {
    hide LebEnd, LebValue, LebOk;
    assert [Leb, Leb][1..] == [Leb] && [Leb, Block][1..] == [Block];
  }

  // ---- The instructions byte by byte ----

  // Behind a number, and behind a block.
  ghost function Past(data: seq<nat>, p: nat): Option<nat> {
    if LebOk(data, p) then Some(LebEnd(data, p)) else None
  }

  ghost function PastBlock(data: seq<nat>, p: nat): Option<nat> {
    if LebOk(data, p) && LebEnd(data, p) + Length(data, p) <= |data| then Some(LebEnd(data, p) + Length(data, p)) else None
  }

  ghost predicate IsByte(data: seq<nat>, pos: nat) {
    pos < |data| && data[pos] < 256
  }

  // How far an instruction goes, for every first byte.
  lemma StepBytes(data: seq<nat>, pos: nat, ptr: nat)
    requires IsByte(data, pos)
    ensures var b, p := data[pos], pos + 1;
      Next(data, pos, ptr) ==
      if 0x80 <= b < 0xC0 || b in {0x06, 0x07, 0x08, 0x0D, 0x0E, 0x13, 0x2E} then Past(data, p)
      else if b in {0x05, 0x09, 0x0C, 0x11, 0x12, 0x14, 0x15, 0x2F} then (if Past(data, p).None? then None else Past(data, Past(data, p).value))
      else if b == 0x0F then PastBlock(data, p)
      else if b in {0x10, 0x16} then (if Past(data, p).None? then None else PastBlock(data, Past(data, p).value))
      else if b == 0x01 then Some(p + ptr)
      else if b == 0x02 then Some(p + 1)
      else if b == 0x03 then Some(p + 2)
      else if b == 0x04 then Some(p + 4)
      else if b == 0x1D then Some(p + 8)
      else Some(p)
  {
    hide LebEnd, LebOk, Length, Behind, Op;
    FirstBytes(data[pos]);
    Shapes(data, pos + 1, ptr);
    Shapes(data, pos + 1, 1);
    Shapes(data, pos + 1, 2);
    Shapes(data, pos + 1, 4);
    Shapes(data, pos + 1, 8);
    PairShapes(data, pos + 1);
    Shapes(data, LebEnd(data, pos + 1), 0);
  }

  lemma FirstBytes(b: nat)
    requires b < 256
    ensures Op(b) == if b < 0x40 then b else if b < 0x80 then 0x40 else if b < 0xC0 then 0x80 else 0xC0
    ensures 0x80 <= b < 0xC0 ==> Opa(b) == b - 0x80
    ensures 0xC0 <= b ==> Opa(b) == b - 0xC0
  {
  }

  // The column it names, for every first byte.
  lemma ColumnBytes(data: seq<nat>, pos: nat)
    requires IsByte(data, pos)
    ensures var b := data[pos];
      Column(data, pos) ==
      if 0xC0 <= b then Some(b - 0xC0)
      else if 0x80 <= b then Some(b - 0x80)
      else if b in {0x05, 0x06, 0x07, 0x08, 0x09, 0x10, 0x11, 0x14, 0x15, 0x16, 0x2F} then
        Some(LebValue(data, pos + 1, false) % 0x1_0000_0000_0000_0000)
      else None
  {
    hide LebValue, Op, Opa;
    FirstBytes(data[pos]);
  }

  // The opcodes at which the second pass goes on, and what it does besides writing the column.
  lemma ActionBytes(data: seq<nat>, pos: nat, r: Registers)
    requires IsByte(data, pos)
    ensures Known(Op(data[pos])) <==> data[pos] <= 0x16 || data[pos] in {0x1D, 0x2D, 0x2E, 0x2F} || data[pos] >= 0x40
    ensures data[pos] == 0x0A ==> Acts(data, pos, r) == Registers(r.ncols, [r.ncols] + r.remembered)
    ensures data[pos] == 0x0B && r.remembered != [] ==>
              && Acts(data, pos, r) == Registers(Grow(r.ncols, r.remembered[0] - 1), r.remembered[1..])
              && |Puts(data, pos, r)| == (if r.remembered[0] < 0 then 0 else r.remembered[0])
              && forall i :: 0 <= i < |Puts(data, pos, r)| ==> Puts(data, pos, r)[i] == i
    ensures data[pos] in {0x11, 0x15, 0x2F} ==>
              Acts(data, pos, r) == Registers(Grow(r.ncols, LebValue(data, pos + 1, false) % 0x1_0000_0000_0000_0000), r.remembered)
    ensures data[pos] !in {0x0A, 0x0B, 0x11, 0x15, 0x2F} || (data[pos] == 0x0B && r.remembered == []) ==> Acts(data, pos, r) == r
    ensures data[pos] != 0x0B ==> Puts(data, pos, r) == match Column(data, pos) { case None => [] case Some(c) => [c] }
    ensures data[pos] == 0x0B && r.remembered == [] ==> Puts(data, pos, r) == []
  {
    hide LebValue, Op, Grow;
    FirstBytes(data[pos]);
    ColumnBytes(data, pos);
  }

  // ---- The two passes ----

  class Chunk {
    var ncols: int
    var remembered: seq<int>
    // Whether every column written so far existed when it was written.
    ghost var safe: bool
    // The columns written, in order.
    ghost var writes: seq<nat>

    ghost function Regs(): Registers
      reads this
    {
      Registers(ncols, remembered)
    }

    ghost predicate InRange()
      reads this
    {
      RegistersOk(Regs())
    }

    constructor (ncols: int, remembered: seq<int>)
      ensures this.ncols == ncols && this.remembered == remembered && safe && writes == []
    {
      this.ncols, this.remembered, safe, writes := ncols, remembered, true, [];
    }

    // frame_need_space.
    method NeedSpace(reg: int)
      modifies this`ncols
      ensures ncols == Grow(old(ncols), reg)
    {
      var r := AsInt(reg);
      if r < ncols {
        return;
      }
      ncols := AsInt(r + 1);
    }

    // A write to fc->col_type[reg].
    method Write(reg: nat)
      modifies this`safe, this`writes
      ensures safe == (old(safe) && reg < ncols) && writes == old(writes) + [reg]
    {
      safe, writes := safe && reg < ncols, writes + [reg];
    }

    // LEB() and SLEB().
    method Number(data: seq<nat>, start: nat, sign: bool) returns (ok: bool, v: nat, start': nat)
      requires Bytes(data)
      ensures ok <==> LebOk(data, start)
      ensures ok ==> start' == LebEnd(data, start) && (!sign ==> v == Length(data, start))
    {
      var n;
      ok, v, n := ReadLeb128(data, start, sign);
      start' := start + n;
    }

    // Allocates the column in the first pass.
    method Allocate(reg: nat)
      modifies this`ncols, this`safe, this`writes
      ensures ncols == Grow(old(ncols), reg) && safe == (old(safe) && reg < ncols) && writes == old(writes) + [reg]
    {
      NeedSpace(reg);
      Write(reg);
    }

    // One round of the first pass, at `pos`.
    method FirstStep(data: seq<nat>, pos: nat, ptr: nat) returns (ok: bool, start: nat)
      requires Bytes(data) && pos < |data|
      modifies this`ncols, this`safe, this`writes
      ensures ok <==> Next(data, pos, ptr).Some?
      ensures ok ==> start == Next(data, pos, ptr).value
      ensures ok ==> match Column(data, pos)
                     case None => ncols == old(ncols) && safe == old(safe) && writes == old(writes)
                     case Some(r) => ncols == Grow(old(ncols), r) && safe == (old(safe) && r < ncols) && writes == old(writes) + [r]
    {
      hide LebEnd, LebOk, Length, Behind, Grow;
      var op, opa := FirstByte(data[pos]);
      var v;
      start, ok := pos + 1, true;
      Shapes(data, pos + 1, ptr);
      Shapes(data, pos + 1, 1);
      Shapes(data, pos + 1, 2);
      Shapes(data, pos + 1, 4);
      Shapes(data, pos + 1, 8);
      PairShapes(data, pos + 1);
      Shapes(data, LebEnd(data, pos + 1), 0);
      if op == DW_CFA_advance_loc {
      } else if op == DW_CFA_set_loc {
        start := start + ptr;
      } else if op == DW_CFA_advance_loc1 {
        start := start + 1;
      } else if op == DW_CFA_advance_loc2 {
        start := start + 2;
      } else if op == DW_CFA_advance_loc4 {
        start := start + 4;
      } else if op == DW_CFA_MIPS_advance_loc8 {
        start := start + 8;
      } else if op == DW_CFA_def_cfa {
        ok, v, start := Number(data, start, false);
        if ok { ok, v, start := Number(data, start, false); }
      } else if op == DW_CFA_def_cfa_register || op == DW_CFA_def_cfa_offset || op == DW_CFA_GNU_args_size {
        ok, v, start := Number(data, start, false);
      } else if op == DW_CFA_def_cfa_expression {
        ok, v, start := Number(data, start, false);
        start := start + v;
        ok := ok && start <= |data|;
      } else if op == DW_CFA_def_cfa_sf {
        ok, v, start := Number(data, start, false);
        if ok { ok, v, start := Number(data, start, true); }
      } else if op == DW_CFA_def_cfa_offset_sf {
        ok, v, start := Number(data, start, true);
      } else {
        ok, start := FirstColumn(data, pos, ptr);
      }
    }

    // The cases of the first switch that allocate a column, and its default, which does nothing.
    method FirstColumn(data: seq<nat>, pos: nat, ptr: nat) returns (ok: bool, start: nat)
      requires Bytes(data) && pos < |data|
      requires Column(data, pos).Some? || Operands(Op(data[pos]), ptr) == []
      modifies this`ncols, this`safe, this`writes
      ensures ok <==> Next(data, pos, ptr).Some?
      ensures ok ==> start == Next(data, pos, ptr).value
      ensures ok ==> match Column(data, pos)
                     case None => ncols == old(ncols) && safe == old(safe) && writes == old(writes)
                     case Some(r) => ncols == Grow(old(ncols), r) && safe == (old(safe) && r < ncols) && writes == old(writes) + [r]
    {
      hide LebEnd, LebOk, Length, Behind, Grow;
      var op, opa := FirstByte(data[pos]);
      var reg, v;
      start, ok := pos + 1, true;
      Shapes(data, pos + 1, 0);
      PairShapes(data, pos + 1);
      Shapes(data, LebEnd(data, pos + 1), 0);
      if op == DW_CFA_offset {
        ok, v, start := Number(data, start, false);
        if ok { Allocate(opa); }
      } else if op == DW_CFA_restore {
        Allocate(opa);
      } else if op == DW_CFA_offset_extended || op == DW_CFA_val_offset || op == DW_CFA_register {
        ok, reg, start := Number(data, start, false);
        if ok {
          ok, v, start := Number(data, start, false);
          if ok { Allocate(reg); }
        }
      } else if op == DW_CFA_restore_extended || op == DW_CFA_undefined || op == DW_CFA_same_value {
        ok, reg, start := Number(data, start, false);
        if ok { Allocate(reg); }
      } else if op == DW_CFA_expression || op == DW_CFA_val_expression {
        ok, reg, start := Number(data, start, false);
        if ok {
          ok, v, start := Number(data, start, false);
          start := start + v;
          ok := ok && start <= |data|;
          if ok { Allocate(reg); }
        }
      } else if op == DW_CFA_offset_extended_sf || op == DW_CFA_val_offset_sf {
        ok, reg, start := Number(data, start, false);
        if ok {
          ok, v, start := Number(data, start, true);
          if ok { Allocate(reg); }
        }
      } else if op == DW_CFA_GNU_negative_offset_extended {
        ok, reg, start := Number(data, start, false);
        if ok {
          ok, v, start := Number(data, start, false);
          if ok { Allocate(reg); }
        }
      }
    }

    // One round of the second pass; `known` is false at an opcode that ends it.
    method SecondStep(data: seq<nat>, pos: nat, ptr: nat) returns (ok: bool, known: bool, start: nat)
      requires Bytes(data) && pos < |data|
      modifies this
      ensures known <==> Known(Op(data[pos]))
      ensures ok <==> (known ==> Next(data, pos, ptr).Some?)
      ensures ok && known ==> start == Next(data, pos, ptr).value
      ensures ok ==> Regs() == Acts(data, pos, old(Regs())) && writes == old(writes) + Puts(data, pos, old(Regs()))
      ensures ok ==> safe == (old(safe) && Within(Puts(data, pos, old(Regs())), ncols))
      ensures safe ==> old(safe)
    {
      hide LebEnd, LebOk, Length, Behind, Grow, Acts, Puts, Within, Restored, Rewritten, GrowsAgain;
      var op, opa := FirstByte(data[pos]);
      var v;
      start, ok, known := pos + 1, true, true;
      Deeds(data, pos, Regs());
      assert writes + [] == writes;
      Shapes(data, pos + 1, ptr);
      Shapes(data, pos + 1, 1);
      Shapes(data, pos + 1, 2);
      Shapes(data, pos + 1, 4);
      Shapes(data, pos + 1, 8);
      PairShapes(data, pos + 1);
      Shapes(data, LebEnd(data, pos + 1), 0);
      if op == DW_CFA_advance_loc || op == DW_CFA_nop || op == DW_CFA_GNU_window_save {
      } else if op == DW_CFA_set_loc {
        start := start + ptr;
      } else if op == DW_CFA_advance_loc1 {
        start := start + 1;
      } else if op == DW_CFA_advance_loc2 {
        start := start + 2;
      } else if op == DW_CFA_advance_loc4 {
        start := start + 4;
      } else if op == DW_CFA_MIPS_advance_loc8 {
        start := start + 8;
      } else if op == DW_CFA_remember_state {
        remembered := [ncols] + remembered;
      } else if op == DW_CFA_restore_state {
        RestoreState();
      } else if op == DW_CFA_def_cfa {
        ok, v, start := Number(data, start, false);
        if ok { ok, v, start := Number(data, start, false); }
      } else if op == DW_CFA_def_cfa_register || op == DW_CFA_def_cfa_offset || op == DW_CFA_GNU_args_size {
        ok, v, start := Number(data, start, false);
      } else if op == DW_CFA_def_cfa_expression {
        ok, v, start := Number(data, start, false);
        start := start + v;
        ok := ok && start <= |data|;
      } else if op == DW_CFA_def_cfa_sf {
        ok, v, start := Number(data, start, false);
        if ok { ok, v, start := Number(data, start, true); }
      } else if op == DW_CFA_def_cfa_offset_sf {
        ok, v, start := Number(data, start, true);
      } else {
        known, ok, start := SecondColumn(data, pos, ptr);
      }
    }

    // The cases of the second switch that write a column, and its default.
    method SecondColumn(data: seq<nat>, pos: nat, ptr: nat) returns (known: bool, ok: bool, start: nat)
      requires Bytes(data) && pos < |data|
      modifies this`ncols, this`safe, this`writes
      ensures known <==> Column(data, pos).Some?
      ensures ok <==> (known ==> Next(data, pos, ptr).Some?)
      ensures ok && known ==> start == Next(data, pos, ptr).value && writes == old(writes) + [Column(data, pos).value]
      ensures ok && known ==> ncols == (if GrowsAgain(Op(data[pos])) then Grow(old(ncols), Column(data, pos).value) else old(ncols))
      ensures ok && known ==> safe == (old(safe) && Column(data, pos).value < ncols)
      ensures !known ==> writes == old(writes) && ncols == old(ncols) && safe == old(safe)
      ensures safe ==> old(safe)
    {
      hide LebEnd, LebOk, Length, Behind, Grow, Small;
      var op, opa := FirstByte(data[pos]);
      var reg, v;
      start, ok, known := pos + 1, true, true;
      Shapes(data, pos + 1, 0);
      PairShapes(data, pos + 1);
      Shapes(data, LebEnd(data, pos + 1), 0);
      if op == DW_CFA_offset {
        ok, v, start := Number(data, start, false);
        if ok { Write(opa); }
      } else if op == DW_CFA_restore {
        Write(opa);
      } else if op == DW_CFA_offset_extended || op == DW_CFA_val_offset || op == DW_CFA_register {
        ok, reg, start := Number(data, start, false);
        if ok {
          ok, v, start := Number(data, start, false);
          if ok { Write(reg); }
        }
      } else if op == DW_CFA_restore_extended || op == DW_CFA_undefined || op == DW_CFA_same_value {
        ok, reg, start := Number(data, start, false);
        if ok { Write(reg); }
      } else if op == DW_CFA_expression || op == DW_CFA_val_expression {
        ok, reg, start := Number(data, start, false);
        if ok {
          ok, v, start := Number(data, start, false);
          ok := ok && start + v <= |data|;
          if ok { Write(reg); }
          start := start + v;
        }
      } else if op == DW_CFA_offset_extended_sf || op == DW_CFA_val_offset_sf {
        ok, reg, start := Number(data, start, false);
        if ok {
          ok, v, start := Number(data, start, true);
          if ok { Allocate(reg); }
        }
      } else if op == DW_CFA_GNU_negative_offset_extended {
        ok, reg, start := Number(data, start, false);
        if ok {
          ok, v, start := Number(data, start, false);
          if ok { Allocate(reg); }
        }
      } else {
        known := false;
      }
    }

    // DW_CFA_restore_state: the columns up to the remembered number are overwritten.
    method RestoreState()
      modifies this
      ensures Regs() == Restored(old(Regs())) && writes == old(writes) + Rewritten(old(Regs()))
      ensures safe == (old(safe) && Within(Rewritten(old(Regs())), ncols))
    {
      hide Grow;
      if remembered == [] {
        return;
      }
      var rs := remembered[0];
      remembered := remembered[1..];
      NeedSpace(rs - 1);
      ghost var all := Rewritten(old(Regs()));
      if rs > 0 { UpTo(rs, ncols); }
      safe, writes := safe && Within(all, ncols), writes + all;
    }

    // The first pass allocates the columns that the instructions name, in order.
    method FirstPass(data: seq<nat>, start: nat, end: nat, ptr: nat) returns (ok: bool)
      requires Bytes(data)
      modifies this`ncols, this`safe, this`writes
      ensures ok <==> Ends(data, start, end, ptr)
      ensures ok ==> writes == old(writes) + Columns(data, Visits(data, start, end, ptr))
      ensures ok ==> ncols == GrowAll(old(ncols), Columns(data, Visits(data, start, end, ptr)))
      ensures ok && old(InRange()) ==> (safe <==> old(safe) && AllSmall(data, Visits(data, start, end, ptr)))
      ensures ok && old(InRange()) && AllSmall(data, Visits(data, start, end, ptr)) ==>
                InRange() && Below(data, Visits(data, start, end, ptr), ncols)
    {
      hide Next, Column, Small, Grow, Visits, SmallAt, BelowAt, Ends, Columns, GrowAll;
      var pos := start;
      ghost var done: seq<nat> := [];
      NothingYet(data, ncols);
      assert [] + Visits(data, start, end, ptr) == Visits(data, start, end, ptr);
      while pos < end
        invariant Visits(data, start, end, ptr) == done + Visits(data, pos, end, ptr)
        invariant Ends(data, start, end, ptr) <==> Ends(data, pos, end, ptr)
        invariant remembered == old(remembered)
        invariant writes == old(writes) + Columns(data, done) && ncols == GrowAll(old(ncols), Columns(data, done))
        invariant old(InRange()) ==> (safe <==> old(safe) && AllSmall(data, done))
        invariant old(InRange()) && AllSmall(data, done) ==> InRange() && Below(data, done, ncols)
        decreases end - pos
      {
        ghost var n := ncols;
        VisitStep(data, pos, end, ptr);
        if pos >= |data| {
          return false;
        }
        var next;
        ok, next := FirstStep(data, pos, ptr);
        if !ok {
          return;
        }
        Allocated(data, done, pos, n, ncols);
        ColumnsStep(data, done, pos, old(ncols));
        done := done + [pos];
        pos := next;
      }
      NoVisits(data, pos, end, ptr);
      assert done + [] == done;
      ok := true;
    }

    // The second pass replays the instructions up to an unknown opcode.
    method SecondPass(data: seq<nat>, start: nat, end: nat, ptr: nat) returns (ok: bool)
      requires Bytes(data)
      modifies this
      ensures ok <==> EndsKnown(data, start, end, ptr)
      ensures ok ==> Regs() == Replay(data, VisitsKnown(data, start, end, ptr), old(Regs()))
      ensures ok ==> writes == old(writes) + Written(data, VisitsKnown(data, start, end, ptr), old(Regs()))
      ensures safe ==> old(safe)
      ensures ok && old(InRange()) ==>
                AllSmall(data, VisitsKnown(data, start, end, ptr)) && Below(data, VisitsKnown(data, start, end, ptr), old(ncols)) ==>
                InRange() && safe == old(safe)
    {
      hide Next, Column, Small, Grow, VisitsKnown, Known, AllSmall, Below, SmallAt, BelowAt, EndsKnown, Replay, Written, Acts, Puts, Within, RegistersOk;
      var pos := start;
      ghost var done: seq<nat> := [];
      NothingYet(data, ncols);
      NothingReplayed(data, Regs());
      assert [] + VisitsKnown(data, start, end, ptr) == VisitsKnown(data, start, end, ptr);
      while pos < end
        invariant VisitsKnown(data, start, end, ptr) == done + VisitsKnown(data, pos, end, ptr)
        invariant EndsKnown(data, start, end, ptr) <==> EndsKnown(data, pos, end, ptr)
        invariant Regs() == Replay(data, done, old(Regs())) && writes == old(writes) + Written(data, done, old(Regs()))
        invariant safe ==> old(safe)
        invariant old(InRange()) && AllSmall(data, done) && Below(data, done, old(ncols)) ==>
                    InRange() && old(ncols) <= ncols && safe == old(safe)
        decreases end - pos
      {
        KnownStep(data, pos, end, ptr);
        if pos >= |data| {
          return false;
        }
        LastOf(data, done, pos, old(ncols));
        ReplayStep(data, done, pos, old(Regs()));
        ActsSafely(data, pos, Regs(), old(ncols));
        var next, known;
        ok, known, next := SecondStep(data, pos, ptr);
        if !ok {
          return;
        }
        done := done + [pos];
        if !known {
          return;
        }
        pos := next;
      }
      NoVisits(data, pos, end, ptr);
      assert done + [] == done;
      ok := true;
    }

    // Both passes over one chunk.  The first writes the columns of its instructions, the second those of
    // the same instructions up to an unknown opcode and the columns it restores; every column written
    // exists exactly if every register number the first pass meets is small.
    method Interpret(data: seq<nat>, start: nat, end: nat, ptr: nat) returns (ok: bool)
      requires Bytes(data) && InRange() && safe
      modifies this
      ensures ok <==> Ends(data, start, end, ptr)
      ensures VisitsKnown(data, start, end, ptr) <= Visits(data, start, end, ptr)
      ensures ok ==>
        var first := Columns(data, Visits(data, start, end, ptr));
        var mid := Registers(GrowAll(old(ncols), first), old(remembered));
        && writes == old(writes) + first + Written(data, VisitsKnown(data, start, end, ptr), mid)
        && Regs() == Replay(data, VisitsKnown(data, start, end, ptr), mid)
      ensures ok ==> (safe <==> AllSmall(data, Visits(data, start, end, ptr)))
      ensures ok && safe ==> InRange()
    {
      hide Next, Column, Small, Visits, VisitsKnown, SmallAt, BelowAt, Ends, EndsKnown, Columns, GrowAll, Written, Replay;
      Lockstep(data, start, end, ptr);
      ok := FirstPass(data, start, end, ptr);
      if !ok {
        return;
      }
      PrefixAll(data, VisitsKnown(data, start, end, ptr), Visits(data, start, end, ptr), ncols);
      ok := SecondPass(data, start, end, ptr);
    }
  }

  // ---- What instructions do to the columns ----

  datatype Registers = Registers(ncols: int, remembered: seq<int>)

  // The columns allocated for the instructions at `l`.
  ghost function Columns(data: seq<nat>, l: seq<nat>): seq<nat> {
    if l == [] then [] else Columns(data, l[..|l| - 1]) + ColumnAt(data, l[|l| - 1])
  }

  ghost function ColumnAt(data: seq<nat>, p: nat): seq<nat> {
    if p < |data| && Column(data, p).Some? then [Column(data, p).value] else []
  }

  ghost function GrowAll(ncols: int, cols: seq<nat>): int {
    if cols == [] then ncols else Grow(GrowAll(ncols, cols[..|cols| - 1]), cols[|cols| - 1])
  }

  lemma ColumnsStep(data: seq<nat>, done: seq<nat>, pos: nat, ncols: int)
    requires pos < |data|
    ensures Columns(data, done + [pos]) == Columns(data, done) + ColumnAt(data, pos)
    ensures ColumnAt(data, pos) == match Column(data, pos) { case None => [] case Some(r) => [r] }
    ensures GrowAll(ncols, Columns(data, done + [pos])) ==
      match Column(data, pos) { case None => GrowAll(ncols, Columns(data, done)) case Some(r) => Grow(GrowAll(ncols, Columns(data, done)), r) }
  {
    hide Column, Grow;
    assert (done + [pos])[..|done|] == done;
    var c := Columns(data, done);
    if Column(data, pos).Some? {
      assert (c + ColumnAt(data, pos))[..|c|] == c;
    } else {
      assert c + [] == c;
    }
  }

  // The opcodes for which the second pass calls frame_need_space once more.
  ghost predicate GrowsAgain(op: nat) {
    op in {DW_CFA_offset_extended_sf, DW_CFA_val_offset_sf, DW_CFA_GNU_negative_offset_extended}
  }

  ghost function Restored(r: Registers): Registers {
    if r.remembered == [] then r else Registers(Grow(r.ncols, r.remembered[0] - 1), r.remembered[1..])
  }

  // The columns that restoring overwrites.
  ghost function Rewritten(r: Registers): seq<nat> {
    if r.remembered == [] || r.remembered[0] <= 0 then [] else seq(r.remembered[0], i => i)
  }

  // One instruction of the second pass: the columns and the remembered states behind it, and the
  // columns it writes.
  ghost function Acts(data: seq<nat>, pos: nat, r: Registers): Registers
    requires pos < |data|
  {
    var op := Op(data[pos]);
    if op == DW_CFA_remember_state then r.(remembered := [r.ncols] + r.remembered)
    else if op == DW_CFA_restore_state then Restored(r)
    else if GrowsAgain(op) && Column(data, pos).Some? then r.(ncols := Grow(r.ncols, Column(data, pos).value))
    else r
  }

  ghost function Puts(data: seq<nat>, pos: nat, r: Registers): seq<nat>
    requires pos < |data|
  {
    if Op(data[pos]) == DW_CFA_restore_state then Rewritten(r) else ColumnAt(data, pos)
  }

  ghost predicate Within(cols: seq<nat>, ncols: int) {
    forall i :: 0 <= i < |cols| ==> cols[i] < ncols
  }

  // What an instruction does and writes, by kind.
  lemma Deeds(data: seq<nat>, pos: nat, r: Registers)
    requires pos < |data|
    ensures Op(data[pos]) == DW_CFA_restore_state ==> Acts(data, pos, r) == Restored(r) && Puts(data, pos, r) == Rewritten(r)
    ensures Op(data[pos]) == DW_CFA_remember_state ==>
              Acts(data, pos, r) == Registers(r.ncols, [r.ncols] + r.remembered) && Puts(data, pos, r) == []
    ensures Op(data[pos]) !in {DW_CFA_restore_state, DW_CFA_remember_state} && Column(data, pos).None? ==>
              Acts(data, pos, r) == r && Puts(data, pos, r) == []
    ensures Column(data, pos).Some? ==> Puts(data, pos, r) == [Column(data, pos).value]
    ensures Column(data, pos).Some? ==>
              Acts(data, pos, r) == Registers(if GrowsAgain(Op(data[pos])) then Grow(r.ncols, Column(data, pos).value) else r.ncols, r.remembered)
    ensures forall n :: Within([], n)
    ensures forall n :: Column(data, pos).Some? ==> (Within([Column(data, pos).value], n) <==> Column(data, pos).value < n)
  {
    hide Restored, Rewritten, Grow, Length, Op;
    if Column(data, pos).Some? { assert [Column(data, pos).value][0] == Column(data, pos).value; }
  }

  lemma UpTo(n: nat, ncols: int)
    ensures Within(seq(n, i => i), ncols) <==> n <= ncols || n == 0
  {
    var s: seq<nat> := seq(n, i => i);
    if n > 0 { assert s[n - 1] == n - 1; }
  }

  // The second pass over the instructions at `l`.
  ghost function Replay(data: seq<nat>, l: seq<nat>, r: Registers): Registers {
    if l == [] then r
    else
      var mid := Replay(data, l[..|l| - 1], r);
      if l[|l| - 1] < |data| then Acts(data, l[|l| - 1], mid) else mid
  }

  ghost function Written(data: seq<nat>, l: seq<nat>, r: Registers): seq<nat> {
    if l == [] then []
    else
      var mid := Replay(data, l[..|l| - 1], r);
      Written(data, l[..|l| - 1], r) + if l[|l| - 1] < |data| then Puts(data, l[|l| - 1], mid) else []
  }

  lemma NothingReplayed(data: seq<nat>, r: Registers)
    ensures Replay(data, [], r) == r && Written(data, [], r) == []
  {
  }

  lemma ReplayStep(data: seq<nat>, done: seq<nat>, pos: nat, r: Registers)
    requires pos < |data|
    ensures Replay(data, done + [pos], r) == Acts(data, pos, Replay(data, done, r))
    ensures Written(data, done + [pos], r) == Written(data, done, r) + Puts(data, pos, Replay(data, done, r))
  {
    hide Acts, Puts;
    assert (done + [pos])[..|done|] == done;
  }

  ghost predicate RegistersOk(r: Registers) {
    0 <= r.ncols <= INT_MAX && forall i :: 0 <= i < |r.remembered| ==> 0 <= r.remembered[i] <= INT_MAX
  }

  // An instruction whose column is there leaves the columns in order, and writes only such as exist.
  lemma ActsSafely(data: seq<nat>, pos: nat, r: Registers, n: int)
    requires pos < |data|
    ensures RegistersOk(r) && n <= r.ncols && SmallAt(data, pos) && BelowAt(data, pos, n) ==>
              RegistersOk(Acts(data, pos, r)) && r.ncols <= Acts(data, pos, r).ncols && Within(Puts(data, pos, r), Acts(data, pos, r).ncols)
  {
    hide Grow, Op;
    if RegistersOk(r) {
      if r.remembered != [] && r.remembered[0] > 0 {
        GrowLaw(r.ncols, r.remembered[0] - 1);
        UpTo(r.remembered[0], Grow(r.ncols, r.remembered[0] - 1));
      } else {
        GrowLess(r.ncols);
      }
      if Column(data, pos).Some? { GrowLaw(r.ncols, Column(data, pos).value); }
    }
  }

  lemma GrowLess(ncols: int)
    requires 0 <= ncols
    ensures Grow(ncols, -1) == ncols
  {
  }

  // ---- Where the passes go ----

  // The instructions the first pass steps through.
  ghost function Visits(data: seq<nat>, pos: nat, end: nat, ptr: nat): seq<nat>
    decreases end - pos
  {
    if pos >= end || pos >= |data| then []
    else [pos] + match Next(data, pos, ptr)
                 case None => []
                 case Some(n) => Visits(data, n, end, ptr)
  }

  // It gets to the end of the chunk, staying inside the data.
  ghost predicate Ends(data: seq<nat>, pos: nat, end: nat, ptr: nat)
    decreases end - pos
  {
    pos >= end || (pos < |data| && match Next(data, pos, ptr)
                                   case None => false
                                   case Some(n) => Ends(data, n, end, ptr))
  }

  // The same for the second pass, which ends at an unknown opcode.
  ghost function VisitsKnown(data: seq<nat>, pos: nat, end: nat, ptr: nat): seq<nat>
    decreases end - pos
  {
    if pos >= end || pos >= |data| then []
    else if !Known(Op(data[pos])) then [pos]
    else [pos] + match Next(data, pos, ptr)
                 case None => []
                 case Some(n) => VisitsKnown(data, n, end, ptr)
  }

  ghost predicate EndsKnown(data: seq<nat>, pos: nat, end: nat, ptr: nat)
    decreases end - pos
  {
    pos >= end || (pos < |data| && (Known(Op(data[pos])) ==> match Next(data, pos, ptr)
                                                             case None => false
                                                             case Some(n) => EndsKnown(data, n, end, ptr)))
  }

  // The second pass is at the same positions as the first until it meets an unknown opcode.
  lemma {:induction false} Lockstep(data: seq<nat>, pos: nat, end: nat, ptr: nat)
    ensures VisitsKnown(data, pos, end, ptr) <= Visits(data, pos, end, ptr)
    ensures VisitsKnown(data, pos, end, ptr) == Visits(data, pos, end, ptr) ||
      var l := VisitsKnown(data, pos, end, ptr);
      l != [] && l[|l| - 1] < |data| && !Known(Op(data[l[|l| - 1]]))
    ensures Ends(data, pos, end, ptr) ==> EndsKnown(data, pos, end, ptr)
    decreases end - pos
  {
    hide Next, Known;
    if pos < end && pos < |data| && Known(Op(data[pos])) && Next(data, pos, ptr).Some? {
      NextLater(data, pos, ptr);
      Lockstep(data, Next(data, pos, ptr).value, end, ptr);
    }
  }

  lemma NextLater(data: seq<nat>, pos: nat, ptr: nat)
    requires pos < |data| && Next(data, pos, ptr).Some?
    ensures Next(data, pos, ptr).value > pos
  {
    hide Behind;
  }

  lemma VisitStep(data: seq<nat>, pos: nat, end: nat, ptr: nat)
    requires pos < end
    ensures pos < |data| && Next(data, pos, ptr).Some? ==> Next(data, pos, ptr).value > pos
    ensures pos < |data| ==>
              Visits(data, pos, end, ptr) == [pos] + if Next(data, pos, ptr).Some? then Visits(data, Next(data, pos, ptr).value, end, ptr) else []
    ensures Ends(data, pos, end, ptr) <==> pos < |data| && Next(data, pos, ptr).Some? && Ends(data, Next(data, pos, ptr).value, end, ptr)
  {
    hide Behind;
  }

  lemma KnownStep(data: seq<nat>, pos: nat, end: nat, ptr: nat)
    requires pos < end
    ensures pos < |data| && Next(data, pos, ptr).Some? ==> Next(data, pos, ptr).value > pos
    ensures pos < |data| ==>
              VisitsKnown(data, pos, end, ptr) ==
              if Known(Op(data[pos])) && Next(data, pos, ptr).Some? then [pos] + VisitsKnown(data, Next(data, pos, ptr).value, end, ptr) else [pos]
    ensures EndsKnown(data, pos, end, ptr) <==>
      pos < |data| && (Known(Op(data[pos])) ==> Next(data, pos, ptr).Some? && EndsKnown(data, Next(data, pos, ptr).value, end, ptr))
  {
    hide Behind, Known;
  }

  lemma NoVisits(data: seq<nat>, pos: nat, end: nat, ptr: nat)
    requires pos >= end
    ensures Visits(data, pos, end, ptr) == VisitsKnown(data, pos, end, ptr) == []
    ensures Ends(data, pos, end, ptr) && EndsKnown(data, pos, end, ptr)
  {
  }

  ghost predicate SmallAt(data: seq<nat>, p: nat) {
    p < |data| && Column(data, p).Some? ==> Small(Column(data, p).value)
  }

  ghost predicate BelowAt(data: seq<nat>, p: nat, ncols: int) {
    p < |data| && Column(data, p).Some? ==> Column(data, p).value < ncols
  }

  ghost predicate AllSmall(data: seq<nat>, l: seq<nat>) {
    forall i :: 0 <= i < |l| ==> SmallAt(data, l[i])
  }

  ghost predicate Below(data: seq<nat>, l: seq<nat>, ncols: int) {
    forall i :: 0 <= i < |l| ==> BelowAt(data, l[i], ncols)
  }

  // One more instruction in the first pass.
  lemma Allocated(data: seq<nat>, done: seq<nat>, pos: nat, n: int, n': int)
    requires pos < |data| && n' == match Column(data, pos) { case None => n case Some(r) => Grow(n, r) }
    ensures AllSmall(data, done + [pos]) <==> AllSmall(data, done) && SmallAt(data, pos)
    ensures 0 <= n <= INT_MAX ==> (Column(data, pos).Some? ==> (Column(data, pos).value < n' <==> Small(Column(data, pos).value)))
    ensures 0 <= n <= INT_MAX && SmallAt(data, pos) && Below(data, done, n) ==> 0 <= n' <= INT_MAX && Below(data, done + [pos], n')
    ensures Column(data, pos).Some? ==> (SmallAt(data, pos) <==> Small(Column(data, pos).value))
    ensures Column(data, pos).None? ==> SmallAt(data, pos)
  {
    hide Column, Small, Grow;
    if Column(data, pos).Some? && 0 <= n <= INT_MAX { GrowLaw(n, Column(data, pos).value); }
    LastOf(data, done, pos, n');
    if 0 <= n <= INT_MAX && SmallAt(data, pos) && Below(data, done, n) {
      forall i | 0 <= i < |done| ensures BelowAt(data, done[i], n') {
        assert BelowAt(data, done[i], n);
      }
    }
  }

  lemma LastOf(data: seq<nat>, done: seq<nat>, pos: nat, n: int)
    ensures AllSmall(data, done + [pos]) <==> AllSmall(data, done) && SmallAt(data, pos)
    ensures Below(data, done + [pos], n) <==> Below(data, done, n) && BelowAt(data, pos, n)
  {
    hide SmallAt, BelowAt;
    var l := done + [pos];
    assert forall i :: 0 <= i < |done| ==> l[i] == done[i];
    assert l[|done|] == pos;
  }

  lemma NothingYet(data: seq<nat>, n: int)
    ensures AllSmall(data, []) && Below(data, [], n) && Columns(data, []) == [] && GrowAll(n, []) == n
  {
  }

  lemma PrefixAll(data: seq<nat>, a: seq<nat>, b: seq<nat>, n: int)
    requires a <= b
    ensures AllSmall(data, b) ==> AllSmall(data, a)
    ensures Below(data, b, n) ==> Below(data, a, n)
  {
    hide SmallAt, BelowAt;
    forall i | 0 <= i < |a| ensures a[i] == b[i] {
    }
  }

  // A register number of 2^31 becomes negative as an int, so that no column is allocated for it.
  lemma LargeRegister()
    ensures var data := [DW_CFA_undefined, 0x80, 0x80, 0x80, 0x80, 0x08];
      Visits(data, 0, 6, 0) == [0] && !AllSmall(data, Visits(data, 0, 6, 0))
  {
    var data := [DW_CFA_undefined, 0x80, 0x80, 0x80, 0x80, 0x08];
    assert LebEnd(data, 5) == 6 && LebEnd(data, 4) == 6 && LebEnd(data, 3) == 6 && LebEnd(data, 2) == 6;
    assert LebValue(data, 5, false) == 8 && LebValue(data, 4, false) == 1024 && LebValue(data, 3, false) == 0x2_0000;
    assert LebValue(data, 2, false) == 0x100_0000 && LebValue(data, 1, false) == 0x8000_0000;
    Shapes(data, 1, 0);
    assert Next(data, 0, 0) == Some(6);
    VisitStep(data, 0, 6, 0);
    NoVisits(data, 6, 6, 0);
    var l := Visits(data, 0, 6, 0);
    assert l[0] == 0 && !SmallAt(data, l[0]);
  }

  // The length of a block is added to a 64-bit pointer.  Here it leads back from the end of the data
  // to position 1, into the operand of the first instruction, where a register number of 2^31 is
  // met; the bytes up to there name no column at all.
  lemma WrappingBlock()
    ensures var data := Wrapping();
      && Visits(data, 0, 20, 0) == [0, 9] && Next(data, 9, 0) == None
      && (LebEnd(data, 10) + Length(data, 10)) % WORD64 == 1
      && Op(data[1]) == DW_CFA_undefined && Column(data, 1) == Some(0x8000_0000)
  {
    hide LebEnd, LebValue, Behind, Visits;
    var data := Wrapping();
    Tail();
    Shapes(data, 1, 8);
    Shapes(data, 10, 0);
    assert Next(data, 0, 0) == Behind(data, 1, [Field(8)]) == Some(9);
    assert Next(data, 9, 0) == Behind(data, 10, [Block]) == None;
    VisitStep(data, 0, 20, 0);
    VisitStep(data, 9, 20, 0);
  }

  function Wrapping(): seq<nat> {
    [0x1D, 0x07] + Register() + [0x00, 0x00, 0x0F] + Back()
  }

  function Register(): seq<nat> {
    [0x80, 0x80, 0x80, 0x80, 0x08]
  }

  function Back(): seq<nat> {
    [0xED, 0xFF, 0xFF, 0xFF, 0xFF, 0xFF, 0xFF, 0xFF, 0xFF, 0x01]
  }

  lemma Tail()
    ensures LebEnd(Wrapping(), 10) == 20 && LebValue(Wrapping(), 10, false) == WORD64 - 19
    ensures LebEnd(Wrapping(), 2) == 7 && LebValue(Wrapping(), 2, false) == 0x8000_0000
  {
    hide LebEnd, LebValue;
    EncodedDistance();
    EncodedRegister();
    var a, b := [0x1D, 0x07], [0x1D, 0x07] + Register() + [0x00, 0x00, 0x0F];
    LebRoundTrip(WORD64 - 19, b, []);
    assert b + Back() + [] == Wrapping();
    LebRoundTrip(0x8000_0000, a, [0x00, 0x00, 0x0F] + Back());
    assert a + Register() + ([0x00, 0x00, 0x0F] + Back()) == Wrapping();
  }

  lemma EncodedRegister()
    ensures Encode(0x8000_0000) == Register()
  {
    assert Encode(8) == [8];
    assert Encode(1024) == [0x80] + Encode(8);
    assert Encode(0x2_0000) == [0x80] + Encode(1024);
    assert Encode(0x100_0000) == [0x80] + Encode(0x2_0000);
    assert Encode(0x8000_0000) == [0x80] + Encode(0x100_0000);
  }

  // 2^64 - 19, digit by digit from the top.
  lemma EncodedDistance()
    ensures Encode(WORD64 - 19) == Back()
  {
    hide Encode;
    EncodeStep(WORD64 - 19, 0x6D, 0x1FF_FFFF_FFFF_FFFF);
    EncodeStep(0x1FF_FFFF_FFFF_FFFF, 0x7F, 0x3_FFFF_FFFF_FFFF);
    EncodeStep(0x3_FFFF_FFFF_FFFF, 0x7F, 0x7FF_FFFF_FFFF);
    EncodeStep(0x7FF_FFFF_FFFF, 0x7F, 0xF_FFFF_FFFF);
    EncodeStep(0xF_FFFF_FFFF, 0x7F, 0x1FFF_FFFF);
    EncodeStep(0x1FFF_FFFF, 0x7F, 0x3F_FFFF);
    EncodeStep(0x3F_FFFF, 0x7F, 0x7FFF);
    EncodeStep(0x7FFF, 0x7F, 0xFF);
    EncodeStep(0xFF, 0x7F, 0x01);
    EncodeLast(1);
  }

  lemma EncodeStep(v: nat, digit: nat, rest: nat)
    requires v == digit + 128 * rest && digit < 128 && rest > 0
    ensures Encode(v) == [digit + 128] + Encode(rest)
  {
  }

  lemma EncodeLast(v: nat)
    requires v < 128
    ensures Encode(v) == [v]
  {
  }

  // read_leb128 where shifts count modulo 64, as on common processors.
  ghost function Compiled(data: seq<bv8>, pos: nat, shift: bv6): bv64
    decreases |data| - pos
  {
    if pos >= |data| then 0
    else (((data[pos] & 0x7F) as bv64) << shift) | if data[pos] & 0x80 == 0 then 0 else Compiled(data, pos + 1, shift + 7)
  }

  // A number of fourteen bytes: the last one is shifted by 91.  Its bit may come back at place 31,
  // and the register is 2^31; as a number it has no bits below the 64th.
  lemma LongNumber()
    ensures var data := TooLong();
      && !LebOk(data, 1) && Next(data, 0, 0) == None && !Ends(data, 0, 15, 0)
      && Length(data, 1) == 0 && Compiled(TooLongBytes(), 1, 0) == 0x8000_0000
  {
    hide LebEnd, LebValue, Behind, Ends, LebOk, Compiled, Next;
    var data := TooLong();
    Zeros(data, 1, 13);
    CompiledZeros(TooLongBytes(), 1, 13, 0);
    LastBit(TooLongBytes(), 14);
    Shapes(data, 1, 0);
    TooLongIs(data);
    VisitStep(data, 0, 15, 0);
  }

  ghost function Sevens(n: nat): bv6 {
    if n == 0 then 0 else Sevens(n - 1) + 7
  }

  lemma {:induction false} CompiledZeros(data: seq<bv8>, pos: nat, n: nat, shift: bv6)
    requires pos + n <= |data| && forall i :: pos <= i < pos + n ==> data[i] == 0x80
    ensures Compiled(data, pos, shift) == Compiled(data, pos + n, shift + Sevens(n))
    decreases n
  {
    hide Compiled;
    if n > 0 {
      CompiledZeros(data, pos, n - 1, shift);
      NoBits(data, pos + n - 1, shift + Sevens(n - 1));
    }
  }

  lemma NoBits(data: seq<bv8>, pos: nat, shift: bv6)
    requires pos < |data| && data[pos] == 0x80
    ensures Compiled(data, pos, shift) == Compiled(data, pos + 1, shift + 7)
  {
  }

  lemma LastBit(data: seq<bv8>, pos: nat)
    requires pos < |data| && data[pos] == 0x10
    ensures Compiled(data, pos, 0 + Sevens(13)) == 0x8000_0000
  {
    assert Sevens(4) == 28 && Sevens(8) == 56 && Sevens(12) == 20;
  }

  function TooLongBytes(): (r: seq<bv8>)
    ensures |r| == 15 && r[0] == 0x07 && r[14] == 0x10 && forall i :: 1 <= i < 14 ==> r[i] == 0x80
  {
    [7] + seq(13, _ => 0x80) + [0x10]
  }

  function TooLong(): (r: seq<nat>)
    ensures |r| == 15 && r[0] == 0x07 && r[14] == 0x10 && forall i :: 1 <= i < 14 ==> r[i] == 0x80
  {
    [DW_CFA_undefined] + seq(13, _ => 0x80) + [0x10]
  }

  lemma TooLongIs(data: seq<nat>)
    requires LebEnd(data, 1) == 15 && |data| > 0 && data[0] == DW_CFA_undefined
    ensures !LebOk(data, 1) && Next(data, 0, 0) == None
  {
    hide LebEnd, Behind;
    Shapes(data, 1, 0);
    assert Next(data, 0, 0) == Behind(data, 1, [Leb]);
  }

  // `n` bytes without bits before the last.
  lemma {:induction false} Zeros(data: seq<nat>, pos: nat, n: nat)
    requires pos + n < |data| && data[pos + n] == 0x10 && forall i :: pos <= i < pos + n ==> data[i] == 0x80
    ensures LebEnd(data, pos) == pos + n + 1 && LebValue(data, pos, false) == 0x10 * Pow128(n)
    ensures n >= 10 ==> LebValue(data, pos, false) % WORD64 == 0
    decreases n
  {
    hide LebEnd, LebValue;
    if n > 0 {
      Zeros(data, pos + 1, n - 1);
      More(data, pos);
      if n > 10 { Shifted(LebValue(data, pos + 1, false)); }
      if n == 10 { TenBytes(); }
    } else {
      Last(data, pos);
    }
  }

  lemma Shifted(p: nat)
    requires p % WORD64 == 0
    ensures (128 * p) % WORD64 == 0
  {
    var q := p / WORD64;
    assert 128 * p == WORD64 * (128 * q);
  }

  lemma Last(data: seq<nat>, pos: nat)
    requires pos < |data| && data[pos] < 128
    ensures LebEnd(data, pos) == pos + 1 && LebValue(data, pos, false) == data[pos]
  {
  }

  lemma More(data: seq<nat>, pos: nat)
    requires pos < |data| && data[pos] >= 128
    ensures LebEnd(data, pos) == LebEnd(data, pos + 1)
    ensures LebValue(data, pos, false) == data[pos] % 128 + 128 * LebValue(data, pos + 1, false)
  {
  }
}
