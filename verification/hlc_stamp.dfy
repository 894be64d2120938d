/** `crates/hlc/src/stamp.rs` and `headers.rs`: the stamp, its order, its
    16-byte layout, and its carriage on record headers. */
module HlcStamp {
  import opened Base
  import opened Bytes

  datatype Hlc = Hlc(wall: int, counter: nat, node: nat)

  /** The ranges of the three Rust fields. */
  predicate IsStamp(h: Hlc)
  {
    IsI64(h.wall) && h.counter <= U32_MAX && h.node <= U64_MAX
  }

  /** The derived `Ord`: wall time, then counter, then node id. */
  predicate Less(a: Hlc, b: Hlc)
  {
    a.wall < b.wall
    || (a.wall == b.wall && (a.counter < b.counter
                             || (a.counter == b.counter && a.node < b.node)))
  }

  datatype HlcError =
    | PeerTooFarAhead(aheadMicros: int, maxMicros: int)
    | CounterOverflow
    | NodeIdTooLarge(node: nat)
    | Length(len: nat)

  /** The two's complement bits of an `i64`. */
  function Bits(wall: int): (u: nat)
    requires IsI64(wall)
    ensures u <= U64_MAX
  {
    if wall < 0 then wall + U64_MAX + 1 else wall
  }

  function FromBits(u: nat): (wall: int)
    requires u <= U64_MAX
    ensures IsI64(wall)
  {
    if u > I64_MAX then u - U64_MAX - 1 else u
  }

  // ----- the stamp on the wire -----

  const HLC_ENCODED_LEN: nat := 16

  function Encode(h: Hlc): (r: Result<seq<byte>, HlcError>)
    requires IsStamp(h)
    ensures r.Ok? <==> h.node <= U32_MAX
    ensures r.Ok? ==> |r.value| == HLC_ENCODED_LEN
  {
    Widths();
    if h.node > U32_MAX then Err(NodeIdTooLarge(h.node))
    else Ok(ToBe(Bits(h.wall), 8) + ToBe(h.counter, 4) + ToBe(h.node, 4))
  }

  function Decode(bytes: seq<byte>): (r: Result<Hlc, HlcError>)
    ensures r.Ok? <==> |bytes| == HLC_ENCODED_LEN
    ensures r.Ok? ==> IsStamp(r.value) && r.value.node <= U32_MAX
  {
    Widths();
    if |bytes| != HLC_ENCODED_LEN then Err(Length(|bytes|))
    else
      Ok(Hlc(FromBits(FromBe(bytes[..8])), FromBe(bytes[8..12]), FromBe(bytes[12..])))
  }

  /** The layout: eight bytes of wall time, four of counter and four of node id, each in
      big-endian order, the wall time as its two's complement. */
  lemma EncodeLayout(h: Hlc)
    requires IsStamp(h) && h.node <= U32_MAX
    ensures var b := Encode(h).value;
            && FromBe(b[..8]) == (if h.wall < 0 then h.wall + 0x1_0000_0000_0000_0000 else h.wall)
            && FromBe(b[8..12]) == h.counter && FromBe(b[12..]) == h.node
  {
    var b := Encode(h).value;
    Widths();
    FromToBe(Bits(h.wall), 8);
    FromToBe(h.counter, 4);
    FromToBe(h.node, 4);
    assert b[..8] == ToBe(Bits(h.wall), 8) && b[8..12] == ToBe(h.counter, 4) && b[12..] == ToBe(h.node, 4);
  }

  /** A stamp survives the wire whenever `encode` accepts it. */
  lemma DecodeEncode(h: Hlc)
    requires IsStamp(h) && h.node <= U32_MAX
    ensures Decode(Encode(h).value) == Ok(h)
  {
    Widths();
    var w, c, n := ToBe(Bits(h.wall), 8), ToBe(h.counter, 4), ToBe(h.node, 4);
    var b := Encode(h).value;
    assert b == w + c + n;
    assert b[..8] == w && b[8..12] == c && b[12..] == n;
    FromToBe(Bits(h.wall), 8);
    FromToBe(h.counter, 4);
    FromToBe(h.node, 4);
  }

  /** Every 16-byte value is the encoding of exactly one stamp. */
  lemma EncodeDecode(bytes: seq<byte>)
    requires |bytes| == HLC_ENCODED_LEN
    ensures Encode(Decode(bytes).value) == Ok(bytes)
  {
    Widths();
    ToFromBe(bytes[..8]);
    ToFromBe(bytes[8..12]);
    ToFromBe(bytes[12..]);
    assert bytes == bytes[..8] + bytes[8..12] + bytes[12..];
  }

  // ----- record headers -----

  datatype Header = Header(key: Str, value: seq<byte>)

  const HLC_HEADER: Str := "krabka.hlc"

  /** The value of the last header under the stamp key. */
  function LastStampValue(headers: seq<Header>): Option<seq<byte>>
  {
    if headers == [] then None
    else
      var last := headers[|headers| - 1];
      if last.key == HLC_HEADER then Some(last.value)
      else LastStampValue(headers[..|headers| - 1])
  }

  function ExtractFromHeaders(headers: seq<Header>): Option<Hlc>
  {
    match LastStampValue(headers)
    case None => None
    case Some(value) =>
      match Decode(value)
      case Ok(h) => Some(h)
      case Err(_) => None
  }

  /** A stamp put on a record is the one a reader extracts, whatever headers
      (stamps included) stand before it and whatever other keys stand after. */
  lemma {:induction false} StampCarriage(before: seq<Header>, h: Hlc, after: seq<Header>)
    requires IsStamp(h) && h.node <= U32_MAX
    requires forall i :: 0 <= i < |after| ==> after[i].key != HLC_HEADER
    ensures ExtractFromHeaders(before + [Header(HLC_HEADER, Encode(h).value)] + after) == Some(h)
    decreases |after|
  {
    var all := before + [Header(HLC_HEADER, Encode(h).value)] + after;
    if after == [] {
      DecodeEncode(h);
      assert all[|all| - 1] == Header(HLC_HEADER, Encode(h).value);
    } else {
      StampCarriage(before, h, after[..|after| - 1]);
      assert all[|all| - 1] == after[|after| - 1];
      assert all[..|all| - 1] == before + [Header(HLC_HEADER, Encode(h).value)] + after[..|after| - 1];
    }
  }
}
