/**
 File contents in external/genext2fs/genext2fs.c: mkfile_fs reads them into a zeroed
 buffer and appends it block by block (lines 1435-1452), write_blocks saves the
 blocks again (lines 2183-2199).  Words are stored with the low byte first.
*/
module Ext2Bytes {
  import opened Basics
  import opened Ext2Paths

  // Byte `i` of the buffer: what fread delivered, and zero elsewhere.
  function Buffered(bytes: seq<byte>, size: nat, i: nat): byte {
    if i < |bytes| && i < size then bytes[i] else 0
  }

  function WordAt(bytes: seq<byte>, size: nat, i: nat): nat {
    Buffered(bytes, size, i) + 256 * Buffered(bytes, size, i + 1)
    + 0x1_0000 * Buffered(bytes, size, i + 2) + 0x100_0000 * Buffered(bytes, size, i + 3)
  }

  // The k-th block of the buffer.
  function Chunk(bytes: seq<byte>, size: nat, k: nat): (r: seq<nat>)
    ensures |r| == WORDS
  {
    seq(WORDS, j requires 0 <= j => WordAt(bytes, size, BLOCKSIZE * k + 4 * j))
  }

  // rndup(size, BLOCKSIZE) / BLOCKSIZE.
  function BlockCount(size: nat): nat {
    (size + BLOCKSIZE - 1) / BLOCKSIZE
  }

  function Chunks(bytes: seq<byte>, size: nat): (r: seq<seq<nat>>)
    ensures |r| == BlockCount(size) && forall k :: 0 <= k < |r| ==> |r[k]| == WORDS
  {
    seq(BlockCount(size), k requires 0 <= k => Chunk(bytes, size, k))
  }

  // Byte `i` of a block.
  function ByteAt(b: seq<nat>, i: nat): nat
    requires |b| == WORDS && i < BLOCKSIZE
  {
    ByteOf(b[i / 4], i % 4)
  }

  function ByteOf(w: nat, i: nat): nat {
    (if i == 0 then w else if i == 1 then w / 256 else if i == 2 then w / 0x1_0000 else w / 0x100_0000) % 256
  }

  lemma FourBytes(a: byte, b: byte, c: byte, d: byte)
    ensures var w := a + 256 * b + 0x1_0000 * c + 0x100_0000 * d;
      ByteOf(w, 0) == a && ByteOf(w, 1) == b && ByteOf(w, 2) == c && ByteOf(w, 3) == d
  {
    var w := a + 256 * b + 0x1_0000 * c + 0x100_0000 * d;
    assert w / 256 == b + 256 * c + 0x1_0000 * d;
    assert w / 0x1_0000 == c + 256 * d;
    assert w / 0x100_0000 == d;
  }

  // Byte `i` of block `k` is that of the file, and zero behind what was read and behind the size.
  lemma ChunkByte(bytes: seq<byte>, size: nat, k: nat, i: nat)
    requires i < 1024
    ensures ByteAt(Chunk(bytes, size, k), i) == Buffered(bytes, size, 1024 * k + i)
    ensures ByteAt(Chunk(bytes, size, k), i) == if 1024 * k + i < |bytes| && 1024 * k + i < size then bytes[1024 * k + i] else 0
  {
    hide ByteOf;
    var j := BLOCKSIZE * k + 4 * (i / 4);
    FourBytes(Buffered(bytes, size, j), Buffered(bytes, size, j + 1), Buffered(bytes, size, j + 2), Buffered(bytes, size, j + 3));
    assert j + i % 4 == BLOCKSIZE * k + i;
    assert i % 4 == 0 || i % 4 == 1 || i % 4 == 2 || i % 4 == 3;
  }

  // ---- write_blocks ----

  ghost predicate Blocky(c: seq<seq<nat>>) {
    forall k :: 0 <= k < |c| ==> |c[k]| == WORDS
  }

  // The first `n` bytes of the blocks.
  ghost function Spilled(c: seq<seq<nat>>, n: nat): (r: seq<nat>)
    requires Blocky(c) && n <= BLOCKSIZE * |c|
    ensures |r| == n
  {
    seq(n, i requires 0 <= i < n => ByteAt(c[i / BLOCKSIZE], i % BLOCKSIZE))
  }

  // Every block begins inside the size, which is taken as an int.
  ghost predicate Savable(blocks: nat, size: nat) {
    blocks == 0 || BLOCKSIZE * (blocks - 1) < AsInt(size)
  }

  ghost function SavedLength(blocks: nat, size: nat): (r: nat)
    requires Savable(blocks, size)
    ensures r <= BLOCKSIZE * blocks
  {
    if blocks == 0 then 0 else if AsInt(size) < BLOCKSIZE * blocks then AsInt(size) else BLOCKSIZE * blocks
  }

  // The loop of write_blocks over the blocks that the walk returns; `c` is what they hold.
  method SaveBlocks(mem: map<nat, seq<nat>>, bks: seq<nat>, size: nat, ghost c: seq<seq<nat>>) returns (ok: bool, out: seq<nat>)
    requires Blocky(c) && |c| == |bks| && forall k :: 0 <= k < |bks| ==> bks[k] in mem && mem[bks[k]] == c[k]
    ensures ok <==> Savable(|c|, size)
    ensures ok ==> out == Spilled(c, SavedLength(|c|, size))
  {
    hide Spilled, ByteAt, AsInt;
    var fsize := AsInt(size);
    out := [];
    NothingSpilled(c);
    for k := 0 to |bks|
      invariant fsize == AsInt(size) - BLOCKSIZE * k && Savable(k, size)
      invariant out == Spilled(c, SavedLength(k, size))
    {
      if fsize <= 0 {
        return false, out;
      }
      var n := if fsize > BLOCKSIZE then BLOCKSIZE else fsize;
      var b := mem[bks[k]];
      SpillMore(c, k, n);
      out := out + seq(n, i requires 0 <= i < n => ByteAt(b, i));
      fsize := fsize - BLOCKSIZE;
    }
    ok := true;
  }

  lemma NothingSpilled(c: seq<seq<nat>>)
    requires Blocky(c)
    ensures Spilled(c, 0) == []
  {
  }

  lemma SpillMore(c: seq<seq<nat>>, k: nat, n: nat)
    requires Blocky(c) && k < |c| && n <= BLOCKSIZE
    ensures Spilled(c, BLOCKSIZE * k) + seq(n, i requires 0 <= i < n => ByteAt(c[k], i)) == Spilled(c, BLOCKSIZE * k + n)
  {
    hide ByteAt;
    var s := Spilled(c, BLOCKSIZE * k) + seq(n, i requires 0 <= i < n => ByteAt(c[k], i));
    forall i | 0 <= i < BLOCKSIZE * k + n ensures s[i] == Spilled(c, BLOCKSIZE * k + n)[i] {
      if i >= BLOCKSIZE * k { assert i / BLOCKSIZE == k && i % BLOCKSIZE == i - BLOCKSIZE * k; }
    }
  }

  // What mkfile_fs stored is saved again, exactly if the size is an int.
  lemma FileRoundTrip(bytes: seq<byte>, size: nat)
    ensures var c, i_size := Chunks(bytes, size), size % 0x1_0000_0000;
      && (Savable(|c|, i_size) <==> size <= INT_MAX)
      && (size <= INT_MAX ==> SavedLength(|c|, i_size) == size && Spilled(c, size) == seq(size, i requires 0 <= i => if i < |bytes| then bytes[i] else 0))
      && (size <= INT_MAX && |bytes| == size ==> Spilled(c, size) == bytes)
  {
    hide ByteAt, Chunk, Buffered, Spilled;
    SavableExactly(size);
    if size <= INT_MAX {
      var c := Chunks(bytes, size);
      forall i | 0 <= i < size ensures Spilled(c, size)[i] == if i < |bytes| then bytes[i] else 0 {
        SpilledByte(bytes, size, i);
        BufferedByte(bytes, size, i);
      }
    }
  }

  lemma SavableExactly(size: nat)
    ensures Savable(BlockCount(size), size % 0x1_0000_0000) <==> size <= INT_MAX
    ensures size <= INT_MAX ==> SavedLength(BlockCount(size), size % 0x1_0000_0000) == size
  {
  }

  lemma SpilledByte(bytes: seq<byte>, size: nat, i: nat)
    requires i < size <= BLOCKSIZE * BlockCount(size)
    ensures Spilled(Chunks(bytes, size), size)[i] == Buffered(bytes, size, i)
  {
    hide ByteAt, Chunk, Buffered;
    ChunkByte(bytes, size, i / BLOCKSIZE, i % BLOCKSIZE);
  }

  lemma BufferedByte(bytes: seq<byte>, size: nat, i: nat)
    requires i < size
    ensures Buffered(bytes, size, i) == if i < |bytes| then bytes[i] else 0
  {
  }
}
