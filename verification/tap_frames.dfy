/** `crates/kafka-tap/src/frame.rs`: request and response headers, and the map
    from a correlation id to the request that carried it. */
module TapFrames {
  import opened Base
  import opened Bytes

  type Body = seq<byte>

  /** `from_be_bytes` of a signed integer. */
  function Signed(s: seq<byte>): int
  {
    var v := FromBe(s);
    if v < Pow256(|s|) / 2 then v else v - Pow256(|s|)
  }

  datatype RequestPrefix = RequestPrefix(apiKey: int, apiVersion: int, correlationId: int)

  function ParseRequestPrefix(body: Body): Option<RequestPrefix>
  {
    if |body| < 8 then None
    else Some(RequestPrefix(Signed(body[..2]), Signed(body[2..4]), Signed(body[4..8])))
  }

  function ReadCorrelationId(body: Body): Option<int>
  {
    if |body| < 4 then None else Some(Signed(body[..4]))
  }

  // ----- the layout of a header -----

  /** A big-endian `i16`. */
  function Int16(a: byte, b: byte): int { 256 * a + b - (if a >= 128 then 0x1_0000 else 0) }

  /** A big-endian `i32`. */
  function Int32(a: byte, b: byte, c: byte, d: byte): int
  {
    0x100_0000 * a + 0x1_0000 * b + 256 * c + d - (if a >= 128 then 0x1_0000_0000 else 0)
  }

  lemma SignedTwo(a: byte, b: byte)
    ensures Signed([a, b]) == Int16(a, b)
  {
    assert [a, b][..1] == [a] && [a][..0] == [];
    assert FromBe([]) == 0 && FromBe([a]) == a && FromBe([a, b]) == 256 * a + b;
    assert Pow256(1) == 256 && Pow256(2) == 65536;
  }

  lemma SignedFour(a: byte, b: byte, c: byte, d: byte)
    ensures Signed([a, b, c, d]) == Int32(a, b, c, d)
  {
    var w := [a, b, c, d];
    assert w[..3] == [a, b, c] && [a, b, c][..2] == [a, b] && [a, b][..1] == [a] && [a][..0] == [];
    assert FromBe([a]) == a && FromBe([a, b]) == 256 * a + b;
    assert FromBe([a, b, c]) == 256 * FromBe([a, b]) + c && FromBe(w) == 256 * FromBe([a, b, c]) + d;
    Widths();
  }

  /** The first two bytes of a request are its key, the next two its version and the next four
      its correlation id, whatever follows; a shorter body has no header. */
  lemma RequestLayout(k0: byte, k1: byte, v0: byte, v1: byte, c0: byte, c1: byte, c2: byte, c3: byte, rest: Body)
    ensures ParseRequestPrefix([k0, k1, v0, v1, c0, c1, c2, c3] + rest)
         == Some(RequestPrefix(Int16(k0, k1), Int16(v0, v1), Int32(c0, c1, c2, c3)))
  {
    var body := [k0, k1, v0, v1, c0, c1, c2, c3] + rest;
    assert body[..2] == [k0, k1] && body[2..4] == [v0, v1] && body[4..8] == [c0, c1, c2, c3];
    SignedTwo(k0, k1);
    SignedTwo(v0, v1);
    SignedFour(c0, c1, c2, c3);
  }

  /** The first four bytes of a response are its correlation id. */
  lemma ResponseLayout(c0: byte, c1: byte, c2: byte, c3: byte, rest: Body)
    ensures ReadCorrelationId([c0, c1, c2, c3] + rest) == Some(Int32(c0, c1, c2, c3))
  {
    var body := [c0, c1, c2, c3] + rest;
    assert body[..4] == [c0, c1, c2, c3];
    SignedFour(c0, c1, c2, c3);
  }

  lemma ShortBodiesHaveNoHeader(body: Body)
    ensures ParseRequestPrefix(body).None? <==> |body| < 8
    ensures ReadCorrelationId(body).None? <==> |body| < 4
  {
  }

  datatype CapturedFrame = CapturedFrame(apiKey: int, version: int, isRequest: bool, body: Body)

  class Pending {
    var table: map<int, (int, int)>

    constructor ()
      ensures table == map[]
    {
      table := map[];
    }

    method Record(correlationId: int, apiKey: int, apiVersion: int)
      modifies this
      ensures table == old(table)[correlationId := (apiKey, apiVersion)]
    {
      table := table[correlationId := (apiKey, apiVersion)];
    }

    method Take(correlationId: int) returns (r: Option<(int, int)>)
      modifies this
      ensures table == old(table) - {correlationId}
      ensures r == if correlationId in old(table) then Some(old(table)[correlationId]) else None
    {
      r := if correlationId in table then Some(table[correlationId]) else None;
      table := table - {correlationId};
    }
  }
}
