/** `crates/compression/src/snappy.rs`: xerial framing over raw Snappy blocks. The raw
    block codec is a parameter. */
module Snappy {
  import opened Base
  import opened Bytes
  import opened Chunks
  import opened Collections

  /** Raw blocks: the encoder, the length a block claims to decode to, and the decoder. */
  datatype Codec = Codec(
    encode: seq<byte> -> seq<byte>,
    decodeLen: seq<byte> -> Option<nat>,
    decode: seq<byte> -> Option<seq<byte>>)

  const XERIAL_HEADER: seq<byte> := [0x82, 83, 78, 65, 80, 80, 89, 0, 0, 0, 0, 1, 0, 0, 0, 1]
  const XERIAL_CHUNK: nat := 32768

  datatype CompressionError = InvalidData | TooLarge(limit: nat)

  /** `max_compress_len`. */
  function MaxCompressLen(n: nat): nat { 32 + n + n / 6 }

  /** The encoder writes into a scratch slice of `max_compress_len` bytes. */
  ghost predicate Bounded(codec: Codec)
  {
    forall c :: |c| <= XERIAL_CHUNK ==> |codec.encode(c)| <= MaxCompressLen(|c|)
  }

  /** The decoder writes into a slice of the length that the block claims. */
  ghost predicate Measured(codec: Codec)
  {
    forall b :: codec.decodeLen(b).Some? && codec.decode(b).Some? ==> |codec.decode(b).value| <= codec.decodeLen(b).value
  }

  /** Encoding a chunk and decoding it gives the chunk, and the block says how long it is. */
  ghost predicate RoundTrips(codec: Codec)
  {
    forall c :: |c| <= XERIAL_CHUNK ==>
      codec.decode(codec.encode(c)) == Some(c) && codec.decodeLen(codec.encode(c)) == Some(|c|)
  }

  // ----- compress -----

  lemma BlockFits(codec: Codec, c: seq<byte>)
    requires Bounded(codec) && |c| <= XERIAL_CHUNK
    ensures |codec.encode(c)| <= MaxCompressLen(|c|) <= U32_MAX
  {
  }

  ghost function Blocks(codec: Codec, data: seq<byte>): seq<byte>
    requires Bounded(codec)
  {
    if data == [] then []
    else
      var n := ChunkLen(XERIAL_CHUNK, |data|);
      BlockFits(codec, data[..n]);
      Framed(codec.encode(data[..n])) + Blocks(codec, data[n..])
  }

  ghost function Compressed(codec: Codec, data: seq<byte>): seq<byte>
    requires Bounded(codec)
  {
    XERIAL_HEADER + Blocks(codec, data)
  }

  /** What `compress` reserves up front. */
  function Reserved(n: nat): nat
  {
    SaturateUsize(SaturateUsize(SaturateUsize(|XERIAL_HEADER| + n) + n / 6) + SaturateUsize(ChunkCount(XERIAL_CHUNK, n) * 36))
  }

  /** A slice is at most `isize::MAX` bytes long, so no term saturates. */
  lemma NothingSaturates(n: nat)
    requires n <= I64_MAX
    ensures Reserved(n) == 16 + n + n / 6 + ChunkCount(XERIAL_CHUNK, n) * 36
  {
    assert ChunkCount(XERIAL_CHUNK, n) <= n / XERIAL_CHUNK + 1;
  }

  /** What has been written by the time `done` bytes are framed. */
  predicate WithinBudget(written: nat, done: nat)
  {
    written <= 16 + done + done / 6 + ChunkCount(XERIAL_CHUNK, done) * 36
  }

  /** A further chunk, with its worst-case scratch space, stays within the reservation,
      and what is left of it stays within the budget. */
  lemma NextChunkFits(written: nat, done: nat, total: nat, n: nat, block: nat)
    requires WithinBudget(written, done) && done % XERIAL_CHUNK == 0 && done < total <= I64_MAX
    requires n == ChunkLen(XERIAL_CHUNK, total - done) && block <= MaxCompressLen(n)
    ensures written + 4 + MaxCompressLen(n) <= Reserved(total)
    ensures WithinBudget(written + 4 + block, done + n)
    ensures (done + n) % XERIAL_CHUNK == 0 || done + n == total
  {
    NothingSaturates(total);
    NextChunk(XERIAL_CHUNK, done, total);
    CountMonotone(XERIAL_CHUNK, done + n, total);
    assert done / 6 + n / 6 <= (done + n) / 6 <= total / 6;
  }

  lemma BlocksStep(codec: Codec, data: seq<byte>, done: nat)
    requires Bounded(codec) && done < |data|
    ensures var n := ChunkLen(XERIAL_CHUNK, |data| - done);
            var chunk := data[done..done + n];
            && |codec.encode(chunk)| <= U32_MAX
            && Blocks(codec, data[done..]) == Framed(codec.encode(chunk)) + Blocks(codec, data[done + n..])
  {
    var n := ChunkLen(XERIAL_CHUNK, |data| - done);
    BlockFits(codec, data[done..done + n]);
    assert data[done..][..n] == data[done..done + n] && data[done..][n..] == data[done + n..];
  }

  /** One turn of the loop: `grown` is the length of the buffer with its scratch space,
      which the encoder fills from the front; the length goes into its slot, and the
      rest of the space is cut off. */
  method WriteChunk(out: seq<byte>, chunk: seq<byte>, codec: Codec) returns (r: seq<byte>, grown: nat)
    requires Bounded(codec) && |chunk| <= XERIAL_CHUNK
    ensures |codec.encode(chunk)| <= U32_MAX && r == out + Framed(codec.encode(chunk))
    ensures grown == |out| + 4 + MaxCompressLen(|chunk|)
  {
    var header := |out|;
    r := out + Zeros(4 + MaxCompressLen(|chunk|));
    grown := |r|;
    BlockFits(codec, chunk);
    var block := codec.encode(chunk);
    var n := |block|;
    Widths();
    r := r[..header] + ToBe(n, 4) + block + r[header + 4 + n..];
    r := r[..header + 4 + n];
  }

  /** `compress`. The buffer never outgrows what was reserved: `peak` is its greatest
      length, scratch space included. */
  method Compress(data: seq<byte>, codec: Codec) returns (out: seq<byte>, peak: nat)
    requires Bounded(codec) && |data| <= I64_MAX
    ensures out == Compressed(codec, data)
    ensures |out| <= peak <= Reserved(|data|)
  {
    NothingSaturates(|data|);
    out := XERIAL_HEADER;
    peak := |out|;
    var done := 0;
    while done < |data|
      invariant done <= |data| && (done % XERIAL_CHUNK == 0 || done == |data|)
      invariant out + Blocks(codec, data[done..]) == Compressed(codec, data)
      invariant WithinBudget(|out|, done) && |out| <= peak <= Reserved(|data|)
    {
      var chunk := data[done..done + ChunkLen(XERIAL_CHUNK, |data| - done)];
      BlockFits(codec, chunk);
      NextChunkFits(|out|, done, |data|, |chunk|, |codec.encode(chunk)|);
      Progress(codec, data, done, out);
      var grown := 0;
      out, grown := WriteChunk(out, chunk, codec);
      peak := if grown > peak then grown else peak;
      done := done + |chunk|;
    }
    assert data[done..] == [];
  }

  lemma Progress(codec: Codec, data: seq<byte>, done: nat, out: seq<byte>)
    requires Bounded(codec) && done < |data|
    ensures var n := ChunkLen(XERIAL_CHUNK, |data| - done);
            var block := codec.encode(data[done..done + n]);
            && |block| <= U32_MAX
            && out + Blocks(codec, data[done..]) == out + Framed(block) + Blocks(codec, data[done + n..])
  {
    var n := ChunkLen(XERIAL_CHUNK, |data| - done);
    BlocksStep(codec, data, done);
    Associates(out, Framed(codec.encode(data[done..done + n])), Blocks(codec, data[done + n..]));
  }

  // ----- decompress -----

  /** The next chunk's block, and what follows it. */
  function NextBlock(rest: seq<byte>): (r: Option<(seq<byte>, seq<byte>)>)
    ensures r.Some? ==> |r.value.1| < |rest|
  {
    if |rest| < 4 then None
    else
      var len, tail := FromBe(rest[..4]), rest[4..];
      if |tail| < len then None else Some((tail[..len], tail[len..]))
  }

  /** A block decoded onto `out`, unless it claims to pass the cap. */
  function Admit(codec: Codec, block: seq<byte>, out: seq<byte>, cap: nat): Result<seq<byte>, CompressionError>
  {
    match codec.decodeLen(block)
    case None => Err(InvalidData)
    case Some(n) =>
      if |out| + n > cap then Err(TooLarge(cap))
      else
        match codec.decode(block)
        case None => Err(InvalidData)
        case Some(d) => Ok(out + d)
  }

  /** The chunk loop, from the point where `rest` is still to be read. */
  function Unframe(codec: Codec, rest: seq<byte>, out: seq<byte>, cap: nat): Result<seq<byte>, CompressionError>
    decreases |rest|
  {
    if rest == [] then Ok(out)
    else
      match NextBlock(rest)
      case None => Err(InvalidData)
      case Some((block, tail)) =>
        var longer :- Admit(codec, block, out, cap);
        Unframe(codec, tail, longer, cap)
  }

  function Decompressed(codec: Codec, data: seq<byte>, cap: nat): Result<seq<byte>, CompressionError>
  {
    if |data| < 16 || data[..8] != XERIAL_HEADER[..8] then Err(InvalidData)
    else Unframe(codec, data[16..], [], cap)
  }

  /** `decompress`, which ends on any bytes. The buffer is never longer than the cap. */
  method Decompress(data: seq<byte>, cap: nat, codec: Codec)
    returns (r: Result<seq<byte>, CompressionError>, peak: nat)
    requires Measured(codec)
    ensures r == Decompressed(codec, data, cap)
    ensures r.Ok? ==> |r.value| <= cap
    ensures peak <= cap
  {
    peak := 0;
    if |data| < 16 || data[..8] != XERIAL_HEADER[..8] { return Err(InvalidData), peak; }
    var rest, out: seq<byte> := data[16..], [];
    while rest != []
      invariant Unframe(codec, rest, out, cap) == Decompressed(codec, data, cap)
      invariant |out| <= cap && peak <= cap
      decreases |rest|
    {
      if |rest| < 4 { return Err(InvalidData), peak; }
      var len, tail := FromBe(rest[..4]), rest[4..];
      if |tail| < len { return Err(InvalidData), peak; }
      var block := tail[..len];
      rest := tail[len..];
      var maxOut := codec.decodeLen(block);
      if maxOut.None? { return Err(InvalidData), peak; }
      var end := |out| + maxOut.value;
      if end > cap { return Err(TooLarge(cap)), peak; }
      peak := if end > peak then end else peak;
      var d := codec.decode(block);
      if d.None? { return Err(InvalidData), peak; }
      out := out + d.value;
    }
    return Ok(out), peak;
  }

  // ----- round trip -----

  lemma NextBlockOf(block: seq<byte>, rest: seq<byte>)
    requires |block| <= U32_MAX
    ensures NextBlock(Framed(block) + rest) == Some((block, rest))
  {
    var all := Framed(block) + rest;
    Widths();
    FromToBe(|block|, 4);
    assert all[..4] == ToBe(|block|, 4) && all[4..] == block + rest;
  }

  lemma AdmitChunk(codec: Codec, chunk: seq<byte>, out: seq<byte>, cap: nat)
    requires RoundTrips(codec) && |chunk| <= XERIAL_CHUNK
    ensures Admit(codec, codec.encode(chunk), out, cap)
         == if |out| + |chunk| > cap then Err(TooLarge(cap)) else Ok(out + chunk)
  {
  }

  lemma UnframeOne(codec: Codec, block: seq<byte>, rest: seq<byte>, out: seq<byte>, cap: nat)
    requires |block| <= U32_MAX
    ensures var step := Admit(codec, block, out, cap);
            Unframe(codec, Framed(block) + rest, out, cap)
            == if step.Err? then Err(step.error) else Unframe(codec, rest, step.value, cap)
  {
    NextBlockOf(block, rest);
    assert Framed(block) + rest != [];
  }

  lemma UnframeChunk(codec: Codec, data: seq<byte>, out: seq<byte>, cap: nat)
    requires Bounded(codec) && RoundTrips(codec) && data != []
    ensures var n := ChunkLen(XERIAL_CHUNK, |data|);
            Unframe(codec, Blocks(codec, data), out, cap)
            == if |out| + n > cap then Err(TooLarge(cap)) else Unframe(codec, Blocks(codec, data[n..]), out + data[..n], cap)
  {
    var n := ChunkLen(XERIAL_CHUNK, |data|);
    BlockFits(codec, data[..n]);
    UnframeOne(codec, codec.encode(data[..n]), Blocks(codec, data[n..]), out, cap);
    AdmitChunk(codec, data[..n], out, cap);
  }

  // ----- what is accepted -----

  ghost predicate Framable(blocks: seq<seq<byte>>)
  {
    forall i :: 0 <= i < |blocks| ==> |blocks[i]| <= U32_MAX
  }

  /** Blocks one after the other, each behind its length. */
  ghost function Stream(blocks: seq<seq<byte>>): seq<byte>
    requires Framable(blocks)
  {
    if blocks == [] then [] else Framed(blocks[0]) + Stream(blocks[1..])
  }

  /** Every block decodes, none claims to pass the cap, and `r` is `out` with all of them. */
  ghost predicate Yields(codec: Codec, blocks: seq<seq<byte>>, out: seq<byte>, cap: nat, r: seq<byte>)
    decreases |blocks|
  {
    if blocks == [] then r == out
    else
      var n, d := codec.decodeLen(blocks[0]), codec.decode(blocks[0]);
      n.Some? && d.Some? && |out| + n.value <= cap && Yields(codec, blocks[1..], out + d.value, cap, r)
  }

  lemma {:induction false} StreamUnframes(codec: Codec, blocks: seq<seq<byte>>, out: seq<byte>, cap: nat, r: seq<byte>)
    requires Framable(blocks) && Yields(codec, blocks, out, cap, r)
    ensures Unframe(codec, Stream(blocks), out, cap) == Ok(r)
    decreases |blocks|
  {
    if blocks != [] {
      var longer := out + codec.decode(blocks[0]).value;
      UnframeOne(codec, blocks[0], Stream(blocks[1..]), out, cap);
      StreamUnframes(codec, blocks[1..], longer, cap, r);
    }
  }

  lemma BlockIsFramed(rest: seq<byte>)
    requires NextBlock(rest).Some?
    ensures var (block, tail) := NextBlock(rest).value;
            |block| <= U32_MAX && rest == Framed(block) + tail
  {
    var (block, tail) := NextBlock(rest).value;
    var head := rest[..4];
    assert |block| == FromBe(head);
    Widths();
    ToFromBe(head);
    JoinAgain(rest, head, block, tail);
  }

  lemma JoinAgain(rest: seq<byte>, head: seq<byte>, block: seq<byte>, tail: seq<byte>)
    requires |rest| >= 4 && head == rest[..4] && block + tail == rest[4..]
    ensures rest == head + block + tail
  {
  }

  lemma {:induction false} UnframedIsStream(codec: Codec, rest: seq<byte>, out: seq<byte>, cap: nat)
    returns (blocks: seq<seq<byte>>)
    requires Unframe(codec, rest, out, cap).Ok?
    ensures Framable(blocks) && rest == Stream(blocks) && Yields(codec, blocks, out, cap, Unframe(codec, rest, out, cap).value)
    decreases |rest|
  {
    if rest == [] {
      blocks := [];
    } else {
      BlockIsFramed(rest);
      var (block, tail) := NextBlock(rest).value;
      var more := UnframedIsStream(codec, tail, Admit(codec, block, out, cap).value, cap);
      blocks := [block] + more;
      assert blocks[1..] == more;
    }
  }

  /** Exactly these bytes decompress: the magic, eight bytes of any version, and framed blocks
      that decode one after the other within the cap. The result is what they decode to. */
  lemma DecompressesIff(codec: Codec, data: seq<byte>, cap: nat, r: seq<byte>)
    ensures Decompressed(codec, data, cap) == Ok(r) <==>
              && |data| >= 16 && data[..8] == [0x82, 83, 78, 65, 80, 80, 89, 0]
              && exists blocks :: Framable(blocks) && data[16..] == Stream(blocks) && Yields(codec, blocks, [], cap, r)
  {
    assert XERIAL_HEADER[..8] == [0x82, 83, 78, 65, 80, 80, 89, 0];
    if Decompressed(codec, data, cap) == Ok(r) {
      var blocks := UnframedIsStream(codec, data[16..], [], cap);
      assert Framable(blocks) && Yields(codec, blocks, [], cap, r);
    }
    if |data| >= 16 {
      forall blocks | Framable(blocks) && data[16..] == Stream(blocks) && Yields(codec, blocks, [], cap, r)
        ensures Unframe(codec, data[16..], [], cap) == Ok(r)
      {
        StreamUnframes(codec, blocks, [], cap, r);
      }
    }
  }

  /** The data chunk by chunk, as far as the cap lets it. */
  ghost function Fill(data: seq<byte>, out: seq<byte>, cap: nat): Result<seq<byte>, CompressionError>
    decreases |data|
  {
    if data == [] then Ok(out)
    else
      var n := ChunkLen(XERIAL_CHUNK, |data|);
      if |out| + n > cap then Err(TooLarge(cap)) else Fill(data[n..], out + data[..n], cap)
  }

  lemma {:induction false} FillIs(data: seq<byte>, out: seq<byte>, cap: nat)
    requires |out| <= cap
    ensures Fill(data, out, cap) == if |out| + |data| <= cap then Ok(out + data) else Err(TooLarge(cap))
    decreases |data|
  {
    if data == [] {
      assert out + data == out;
    } else {
      var n := ChunkLen(XERIAL_CHUNK, |data|);
      if |out| + n <= cap {
        FillIs(data[n..], out + data[..n], cap);
        assert out + data[..n] + data[n..] == out + data;
      }
    }
  }

  lemma {:induction false} UnframeBlocks(codec: Codec, data: seq<byte>, out: seq<byte>, cap: nat)
    requires Bounded(codec) && RoundTrips(codec)
    ensures Unframe(codec, Blocks(codec, data), out, cap) == Fill(data, out, cap)
    decreases |data|
  {
    if data != [] {
      var n := ChunkLen(XERIAL_CHUNK, |data|);
      UnframeChunk(codec, data, out, cap);
      if |out| + n <= cap { UnframeBlocks(codec, data[n..], out + data[..n], cap); }
    }
  }

  lemma SplitHeader(header: seq<byte>, rest: seq<byte>)
    requires |header| == 16
    ensures (header + rest)[..8] == header[..8] && (header + rest)[16..] == rest
  {
  }

  /** What was compressed decompresses to itself under a cap that holds it, and is too
      large under any smaller cap. */
  lemma DecompressCompress(codec: Codec, data: seq<byte>, cap: nat)
    requires Bounded(codec) && RoundTrips(codec)
    ensures Decompressed(codec, Compressed(codec, data), cap)
         == if |data| <= cap then Ok(data) else Err(TooLarge(cap))
  {
    SplitHeader(XERIAL_HEADER, Blocks(codec, data));
    UnframeBlocks(codec, data, [], cap);
    FillIs(data, [], cap);
    assert [] + data == data;
  }
}
