/** `crates/compression/src/lz4.rs`: the LZ4 frame of independent 64 KiB blocks, over a
    block compressor that is a parameter: the fast one or the HC one. */
module Lz4 {
  import opened Base
  import opened Bytes
  import opened Chunks
  import opened Collections

  /** A block compressor, its worst case, and the decoder of its blocks. */
  datatype Codec = Codec(
    compress: seq<byte> -> seq<byte>,
    maxSize: nat -> nat,
    decode: seq<byte> -> Option<seq<byte>>)

  const BLOCK_SIZE: nat := 65536
  const MIN_COMPRESSIBLE_BLOCK: nat := 13
  const BLOCK_UNCOMPRESSED_BIT: nat := 0x8000_0000
  const FRAME_HEADER: seq<byte> := [0x04, 0x22, 0x4D, 0x18, 0x60, 0x40, 0x82]

  /** The compressor writes into a scratch slice of `maxSize` bytes, which holds the block
      itself, whose slack over the block grows with the block, and which is at most as
      large again. Nothing is asked of blocks that no frame holds. */
  ghost predicate Bounded(codec: Codec)
  {
    && (forall b :: 1 <= |b| <= BLOCK_SIZE ==> |codec.compress(b)| <= codec.maxSize(|b|))
    && (forall n: nat :: n <= BLOCK_SIZE ==> n <= codec.maxSize(n) <= 2 * BLOCK_SIZE)
    && (forall m: nat, n: nat :: m <= n <= BLOCK_SIZE ==> codec.maxSize(m) - m <= codec.maxSize(n) - n)
  }

  /** A compressed block is not empty, and decodes to the block. */
  ghost predicate RoundTrips(codec: Codec)
  {
    forall b :: 1 <= |b| <= BLOCK_SIZE ==> codec.compress(b) != [] && codec.decode(codec.compress(b)) == Some(b)
  }

  // ----- blocks -----

  /** A block is stored as it is when it is short, or when compression does not shrink it. */
  function IsStored(codec: Codec, block: seq<byte>): bool
  {
    |block| < MIN_COMPRESSIBLE_BLOCK || |codec.compress(block)| >= |block|
  }

  function Payload(codec: Codec, block: seq<byte>): (p: seq<byte>)
    ensures |p| <= |block|
  {
    if IsStored(codec, block) then block else codec.compress(block)
  }

  /** A block of thirteen bytes or more takes the shorter of its two forms, and itself when
      they are equally long; the size field's top bit tells which, and the rest how long. */
  lemma StoresTheShorter(codec: Codec, block: seq<byte>)
    requires |block| <= BLOCK_SIZE
    ensures var p, size := Payload(codec, block), SizeField(codec, block);
            && (|block| < 13 ==> p == block)
            && (|block| >= 13 ==> |p| == Min(|codec.compress(block)|, |block|))
            && (|block| >= 13 && |codec.compress(block)| < |block| ==> p == codec.compress(block) && size == |p| < 0x8000_0000)
            && (|block| < 13 || |codec.compress(block)| >= |block| ==> p == block && size == 0x8000_0000 + |p|)
  {
  }

  function SizeField(codec: Codec, block: seq<byte>): nat
  {
    |Payload(codec, block)| + (if IsStored(codec, block) then BLOCK_UNCOMPRESSED_BIT else 0)
  }

  function Block(codec: Codec, block: seq<byte>): (r: seq<byte>)
    requires |block| <= BLOCK_SIZE
    ensures |r| == 4 + |Payload(codec, block)|
  {
    Widths();
    ToLe(SizeField(codec, block), 4) + Payload(codec, block)
  }

  /** `write_block`. `grown` is the length of the buffer with its scratch space. The size's
      top bit is clear before it is set, so the source's `|` is addition. */
  method WriteBlock(out: seq<byte>, block: seq<byte>, codec: Codec) returns (r: seq<byte>, grown: nat)
    requires Bounded(codec) && 1 <= |block| <= BLOCK_SIZE
    ensures r == out + Block(codec, block)
    ensures |r| <= grown <= |out| + 4 + Need(codec, |block|)
  {
    Widths();
    if |block| < MIN_COMPRESSIBLE_BLOCK {
      r := out + ToLe(|block| + BLOCK_UNCOMPRESSED_BIT, 4) + block;
      grown := |r|;
      return;
    }
    var header := |out|;
    var sizeSlot, scratch := Zeros(4), Zeros(codec.maxSize(|block|));
    grown := header + |sizeSlot| + |scratch|;
    var compressed := codec.compress(block);
    var n := |compressed|;
    scratch := compressed + scratch[n..];
    var size, stored := n, n;
    if n >= |block| {
      scratch := block + scratch[|block|..];
      size, stored := |block| + BLOCK_UNCOMPRESSED_BIT, |block|;
    }
    sizeSlot := ToLe(size, 4);
    assert scratch[..stored] == Payload(codec, block);
    r := Cut(out, sizeSlot, scratch, stored);
  }

  /** The buffer is its old content, the size slot and the scratch space; all but
      `stored` bytes of the space are cut off. */
  method Cut(out: seq<byte>, sizeSlot: seq<byte>, scratch: seq<byte>, stored: nat) returns (r: seq<byte>)
    requires stored <= |scratch|
    ensures r == out + (sizeSlot + scratch[..stored])
  {
    r := (out + sizeSlot + scratch)[..|out| + |sizeSlot| + stored];
  }

  // ----- the frame -----

  function Blocks(codec: Codec, data: seq<byte>): seq<byte>
  {
    if data == [] then []
    else
      var n := ChunkLen(BLOCK_SIZE, |data|);
      Block(codec, data[..n]) + Blocks(codec, data[n..])
  }

  const END_MARK: seq<byte> := [0, 0, 0, 0]

  function Frame(codec: Codec, data: seq<byte>): seq<byte>
  {
    FRAME_HEADER + Blocks(codec, data) + END_MARK
  }

  /** The scratch space that the largest block needs beyond its own length. */
  function Slack(codec: Codec, n: nat): nat
    requires ChunkLen(BLOCK_SIZE, n) <= codec.maxSize(ChunkLen(BLOCK_SIZE, n))
  {
    var largest := ChunkLen(BLOCK_SIZE, n);
    if largest < MIN_COMPRESSIBLE_BLOCK then 0 else codec.maxSize(largest) - largest
  }

  /** What `frame_buffer` reserves. */
  function Reserved(n: nat, slack: nat): nat
  {
    SaturateUsize(SaturateUsize(n + SaturateUsize(ChunkCount(BLOCK_SIZE, n) * 4)) + (|FRAME_HEADER| + 4 + slack))
  }

  lemma NothingSaturates(n: nat, slack: nat)
    requires n <= I64_MAX && slack <= 2 * BLOCK_SIZE
    ensures Reserved(n, slack) == n + ChunkCount(BLOCK_SIZE, n) * 4 + 11 + slack
  {
    assert ChunkCount(BLOCK_SIZE, n) <= n / BLOCK_SIZE + 1;
  }

  /** What has been written by the time `done` bytes are in blocks. */
  predicate WithinBudget(written: nat, done: nat)
  {
    written <= 7 + done + ChunkCount(BLOCK_SIZE, done) * 4
  }

  /** The scratch space that a block of `n` bytes asks for. */
  function Need(codec: Codec, n: nat): nat { if n < MIN_COMPRESSIBLE_BLOCK then n else codec.maxSize(n) }

  lemma SlackSuffices(codec: Codec, n: nat, total: nat)
    requires Bounded(codec) && n <= ChunkLen(BLOCK_SIZE, total)
    ensures Need(codec, n) <= n + Slack(codec, total)
  {
    assert codec.maxSize(n) - n <= codec.maxSize(ChunkLen(BLOCK_SIZE, total)) - ChunkLen(BLOCK_SIZE, total);
  }

  /** A further block, with its scratch space, stays within the reservation, and what is
      left of it stays within the budget. */
  lemma NextBlockFits(written: nat, done: nat, total: nat, n: nat, slack: nat, payload: nat)
    requires WithinBudget(written, done) && done % BLOCK_SIZE == 0 && done < total
    requires n == ChunkLen(BLOCK_SIZE, total - done) && payload <= n
    ensures written + 4 + n + slack <= total + ChunkCount(BLOCK_SIZE, total) * 4 + 11 + slack
    ensures WithinBudget(written + 4 + payload, done + n)
    ensures (done + n) % BLOCK_SIZE == 0 || done + n == total
  {
    NextChunk(BLOCK_SIZE, done, total);
    CountMonotone(BLOCK_SIZE, done + n, total);
  }

  /** One turn of the loop. */
  method AppendBlock(out: seq<byte>, data: seq<byte>, done: nat, codec: Codec, ghost capacity: nat)
    returns (next: seq<byte>, grown: nat)
    requires Bounded(codec) && done < |data| <= I64_MAX && done % BLOCK_SIZE == 0 && WithinBudget(|out|, done)
    requires capacity == |data| + ChunkCount(BLOCK_SIZE, |data|) * 4 + 11 + Slack(codec, |data|)
    ensures var n := ChunkLen(BLOCK_SIZE, |data| - done);
            && next + Blocks(codec, data[done + n..]) == out + Blocks(codec, data[done..])
            && WithinBudget(|next|, done + n) && ((done + n) % BLOCK_SIZE == 0 || done + n == |data|)
    ensures |next| <= grown <= capacity
  {
    var block := data[done..done + ChunkLen(BLOCK_SIZE, |data| - done)];
    Progress(codec, data, done, out);
    next, grown := WriteBlock(out, block, codec);
    SlackSuffices(codec, |block|, |data|);
    NextBlockFits(|out|, done, |data|, |block|, Slack(codec, |data|), |Payload(codec, block)|);
  }

  /** `compress` and `compress_with_level`: the frame, in a buffer that never outgrows
      what was reserved. */
  method Compress(data: seq<byte>, codec: Codec) returns (out: seq<byte>, peak: nat)
    requires Bounded(codec) && |data| <= I64_MAX
    ensures out == Frame(codec, data)
    ensures |out| <= |data| + 4 * ChunkCount(BLOCK_SIZE, |data|) + 11
    ensures |out| <= peak <= Reserved(|data|, Slack(codec, |data|))
  {
    ghost var capacity := Capacity(codec, |data|);
    out := FRAME_HEADER;
    peak := |out|;
    var done := 0;
    while done < |data|
      invariant done <= |data| && (done % BLOCK_SIZE == 0 || done == |data|)
      invariant out + Blocks(codec, data[done..]) == FRAME_HEADER + Blocks(codec, data)
      invariant WithinBudget(|out|, done) && |out| <= peak <= capacity
    {
      var grown := 0;
      out, grown := AppendBlock(out, data, done, codec, capacity);
      peak := if grown > peak then grown else peak;
      done := done + ChunkLen(BLOCK_SIZE, |data| - done);
    }
    assert data[done..] == [] && out == FRAME_HEADER + Blocks(codec, data);
    out := out + END_MARK;
    peak := if |out| > peak then |out| else peak;
  }

  /** What is reserved holds the whole frame, and one block's slack beside it. */
  lemma Capacity(codec: Codec, n: nat) returns (capacity: nat)
    requires Bounded(codec) && n <= I64_MAX
    ensures capacity == Reserved(n, Slack(codec, n)) == n + ChunkCount(BLOCK_SIZE, n) * 4 + 11 + Slack(codec, n)
  {
    NothingSaturates(n, Slack(codec, n));
    capacity := Reserved(n, Slack(codec, n));
  }

  lemma Progress(codec: Codec, data: seq<byte>, done: nat, out: seq<byte>)
    requires done < |data|
    ensures var n := ChunkLen(BLOCK_SIZE, |data| - done);
            out + Blocks(codec, data[done..]) == out + Block(codec, data[done..done + n]) + Blocks(codec, data[done + n..])
  {
    var n := ChunkLen(BLOCK_SIZE, |data| - done);
    assert data[done..][..n] == data[done..done + n] && data[done..][n..] == data[done + n..];
    Associates(out, Block(codec, data[done..done + n]), Blocks(codec, data[done + n..]));
  }

  // ----- a reader of the frame format -----

  /** The next block: its payload, whether it is stored, and what follows. A size of
      zero is the end mark. */
  datatype Next = End(rest: seq<byte>) | Data(payload: seq<byte>, stored: bool, rest: seq<byte>) | Broken

  function NextBlock(s: seq<byte>): (r: Next)
    ensures r.Data? ==> |r.rest| < |s|
  {
    if |s| < 4 then Broken
    else
      var size, tail := FromLe(s[..4]), s[4..];
      if size == 0 then End(tail)
      else
        var stored := size >= BLOCK_UNCOMPRESSED_BIT;
        var n := if stored then size - BLOCK_UNCOMPRESSED_BIT else size;
        if |tail| < n then Broken else Data(tail[..n], stored, tail[n..])
  }

  /** Blocks up to the end mark, decoded one by one; nothing may follow the mark. */
  function ReadBlocks(codec: Codec, s: seq<byte>): Option<seq<byte>>
    decreases |s|
  {
    match NextBlock(s)
    case Broken => None
    case End(rest) => if rest == [] then Some([]) else None
    case Data(payload, stored, rest) =>
      var block := if stored then Some(payload) else codec.decode(payload);
      var after := ReadBlocks(codec, rest);
      if block.Some? && after.Some? then Some(block.value + after.value) else None
  }

  function ReadFrame(codec: Codec, s: seq<byte>): Option<seq<byte>>
  {
    if FRAME_HEADER <= s then ReadBlocks(codec, s[|FRAME_HEADER|..]) else None
  }

  lemma NextBlockOf(codec: Codec, block: seq<byte>, rest: seq<byte>)
    requires |block| <= BLOCK_SIZE && SizeField(codec, block) != 0
    ensures NextBlock(Block(codec, block) + rest) == Data(Payload(codec, block), IsStored(codec, block), rest)
  {
    var size, all := SizeField(codec, block), Block(codec, block) + rest;
    Widths();
    FromToLe(size, 4);
    assert all[..4] == ToLe(size, 4) && all[4..] == Payload(codec, block) + rest;
  }

  lemma ReadOne(codec: Codec, block: seq<byte>, rest: seq<byte>, all: seq<byte>, after: seq<byte>)
    requires RoundTrips(codec) && 1 <= |block| <= BLOCK_SIZE
    requires all == Block(codec, block) + rest && ReadBlocks(codec, rest) == Some(after)
    ensures ReadBlocks(codec, all) == Some(block + after)
  {
    NextBlockOf(codec, block, rest);
  }

  lemma ReadEnd(codec: Codec)
    ensures ReadBlocks(codec, END_MARK) == Some([])
  {
    var s := END_MARK;
    assert s[..4] == [0, 0, 0, 0] && s[4..] == [];
    assert [0, 0, 0, 0][1..] == [0, 0, 0] && [0, 0, 0][1..] == [0, 0] && [0, 0][1..] == [0] && [0][1..] == [];
    assert FromLe([0]) == 0 && FromLe([0, 0]) == 0 && FromLe([0, 0, 0]) == 0 && FromLe([0, 0, 0, 0]) == 0;
  }

  lemma FrameTail(codec: Codec, data: seq<byte>)
    requires data != []
    ensures var n := ChunkLen(BLOCK_SIZE, |data|);
            Blocks(codec, data) + END_MARK == Block(codec, data[..n]) + (Blocks(codec, data[n..]) + END_MARK)
  {
    var n := ChunkLen(BLOCK_SIZE, |data|);
    Associates(Block(codec, data[..n]), Blocks(codec, data[n..]), END_MARK);
  }

  /** The data, block by block. */
  ghost function Joined(data: seq<byte>): seq<byte>
  {
    if data == [] then [] else data[..ChunkLen(BLOCK_SIZE, |data|)] + Joined(data[ChunkLen(BLOCK_SIZE, |data|)..])
  }

  lemma {:induction false} JoinedIs(data: seq<byte>)
    ensures Joined(data) == data
    decreases |data|
  {
    if data != [] { JoinedIs(data[ChunkLen(BLOCK_SIZE, |data|)..]); }
  }

  lemma {:induction false} ReadAll(codec: Codec, data: seq<byte>)
    requires RoundTrips(codec)
    ensures ReadBlocks(codec, Blocks(codec, data) + END_MARK) == Some(Joined(data))
    decreases |data|
  {
    if data == [] {
      ReadEnd(codec);
      assert Blocks(codec, data) + END_MARK == END_MARK;
    } else {
      var n := ChunkLen(BLOCK_SIZE, |data|);
      ReadAll(codec, data[n..]);
      FrameTail(codec, data);
      ReadOne(codec, data[..n], Blocks(codec, data[n..]) + END_MARK, Blocks(codec, data) + END_MARK, Joined(data[n..]));
    }
  }

  /** A frame reads back as the data. */
  lemma ReadCompress(codec: Codec, data: seq<byte>)
    requires RoundTrips(codec)
    ensures ReadFrame(codec, Frame(codec, data)) == Some(data)
  {
    ReadAll(codec, data);
    JoinedIs(data);
    var body := Blocks(codec, data) + END_MARK;
    assert Frame(codec, data) == FRAME_HEADER + body;
    assert (FRAME_HEADER + body)[7..] == body;
  }
}
