/** `crates/kafka-tap/src/lib.rs`: one direction of the relay on its byte stream. */
module TapPump {
  import opened Base
  import opened Bytes
  import opened Collections
  import opened TapFrames

  /** The length of the first frame's body, once the whole frame has arrived. */
  function FirstFrame(src: seq<byte>): (n: Option<nat>)
    ensures n.Some? ==> 4 + n.value <= |src|
  {
    if |src| < 4 then None
    else
      var n := Signed(src[..4]);
      if n < 0 || |src| < 4 + n then None else Some(n)
  }

  /** The complete frames a stream starts with. A negative length ends the relay. */
  function Bodies(src: seq<byte>): seq<Body>
  {
    match FirstFrame(src)
    case None => []
    case Some(n) => [src[4..4 + n]] + Bodies(src[4 + n..])
  }

  /** What one frame does to the pending map, and what it tells the recorder. */
  function Tee(isRequest: bool, table: map<int, (int, int)>, body: Body): (map<int, (int, int)>, seq<CapturedFrame>)
  {
    if isRequest then
      match ParseRequestPrefix(body)
      case None => (table, [])
      case Some(p) =>
        (table[p.correlationId := (p.apiKey, p.apiVersion)], [CapturedFrame(p.apiKey, p.apiVersion, true, body)])
    else
      match ReadCorrelationId(body)
      case None => (table, [])
      case Some(c) =>
        (table - {c}, if c in table then [CapturedFrame(table[c].0, table[c].1, false, body)] else [])
  }

  /** A request is captured under its own label and a response with its id after it under the
      same, once: the id is then free. No other id is touched. */
  lemma TeePairs(table: map<int, (int, int)>, request: Body, response: Body, p: RequestPrefix)
    requires ParseRequestPrefix(request) == Some(p) && ReadCorrelationId(response) == Some(p.correlationId)
    ensures var (asked, a) := Tee(true, table, request);
            var (answered, b) := Tee(false, asked, response);
            && a == [CapturedFrame(p.apiKey, p.apiVersion, true, request)]
            && b == [CapturedFrame(p.apiKey, p.apiVersion, false, response)]
            && asked - {p.correlationId} == table - {p.correlationId} == answered
            && Tee(false, answered, response) == (answered, [])
  {
    var c, l := p.correlationId, (p.apiKey, p.apiVersion);
    assert table[c := l] - {c} == table - {c} == table - {c} - {c};
  }

  /** A body without a header passes unseen. */
  lemma ShortBodiesAreNotTold(table: map<int, (int, int)>, body: Body)
    ensures |body| < 8 ==> Tee(true, table, body) == (table, [])
    ensures |body| < 4 ==> Tee(false, table, body) == (table, [])
  {
  }

  function TeeAll(isRequest: bool, table: map<int, (int, int)>, bodies: seq<Body>)
    : (map<int, (int, int)>, seq<CapturedFrame>)
  {
    if bodies == [] then (table, [])
    else
      var before := TeeAll(isRequest, table, bodies[..|bodies| - 1]);
      var last := Tee(isRequest, before.0, bodies[|bodies| - 1]);
      (last.0, before.1 + last.1)
  }

  /** Frames on the wire. */
  function FramedAll(bodies: seq<Body>): seq<byte>
    requires forall i :: 0 <= i < |bodies| ==> |bodies[i]| <= I32_MAX
  {
    if bodies == [] then [] else Framed(bodies[0]) + FramedAll(bodies[1..])
  }

  /** The part of the stream that complete frames make up. */
  function Relayed(src: seq<byte>): seq<byte>
  {
    match FirstFrame(src)
    case None => []
    case Some(n) => src[..4 + n] + Relayed(src[4 + n..])
  }

  /** One frame on its way through the tap. */
  method TeeFrame(isRequest: bool, body: Body, pending: Pending) returns (recorded: seq<CapturedFrame>)
    modifies pending
    ensures (pending.table, recorded) == Tee(isRequest, old(pending.table), body)
  {
    recorded := [];
    if isRequest {
      var p := ParseRequestPrefix(body);
      if p.Some? {
        pending.Record(p.value.correlationId, p.value.apiKey, p.value.apiVersion);
        recorded := [CapturedFrame(p.value.apiKey, p.value.apiVersion, true, body)];
      }
    } else {
      var c := ReadCorrelationId(body);
      if c.Some? {
        var request := pending.Take(c.value);
        if request.Some? {
          recorded := [CapturedFrame(request.value.0, request.value.1, false, body)];
        }
      }
    }
  }

  lemma TeeNext(isRequest: bool, table: map<int, (int, int)>, bodies: seq<Body>, body: Body)
    ensures var before := TeeAll(isRequest, table, bodies);
            var last := Tee(isRequest, before.0, body);
            TeeAll(isRequest, table, bodies + [body]) == (last.0, before.1 + last.1)
  {
    assert (bodies + [body])[..|bodies|] == bodies;
  }

  /** `pump`, run alone to the end of its stream. It writes on what it read, byte for
      byte, up to the end of the last complete frame. */
  method Pump(src: seq<byte>, isRequest: bool, pending: Pending)
    returns (dst: seq<byte>, recorded: seq<CapturedFrame>, ghost bodies: seq<Body>)
    modifies pending
    ensures dst <= src && dst == Relayed(src) && FirstFrame(src[|dst|..]).None?
    ensures bodies == Bodies(src)
    ensures (pending.table, recorded) == TeeAll(isRequest, old(pending.table), bodies)
  {
    dst, recorded, bodies := [], [], [];
    var rest := src;
    while |rest| >= 4
      invariant src == dst + rest
      invariant bodies + Bodies(rest) == Bodies(src) && dst + Relayed(rest) == Relayed(src)
      invariant (pending.table, recorded) == TeeAll(isRequest, old(pending.table), bodies)
      decreases |rest|
    {
      var n := Signed(rest[..4]);
      if n < 0 || |rest| < 4 + n { break; }
      var lenBuf, body := rest[..4], rest[4..4 + n];
      var frames := TeeFrame(isRequest, body, pending);
      TeeNext(isRequest, old(pending.table), bodies, body);
      Advance(dst, rest, bodies, n);
      recorded := recorded + frames;
      bodies := bodies + [body];
      dst := dst + lenBuf + body;
      rest := rest[4 + n..];
    }
    assert src[|dst|..] == rest;
  }

  lemma AssociatesFour<T>(a: seq<T>, b: seq<T>, c: seq<T>, d: seq<T>)
    ensures a + (b + c + d) == a + b + c + d
  {
  }

  lemma Advance(dst: seq<byte>, rest: seq<byte>, bodies: seq<Body>, n: nat)
    requires FirstFrame(rest) == Some(n)
    ensures bodies + Bodies(rest) == bodies + [rest[4..4 + n]] + Bodies(rest[4 + n..])
    ensures dst + Relayed(rest) == dst + rest[..4] + rest[4..4 + n] + Relayed(rest[4 + n..])
    ensures dst + rest == dst + rest[..4] + rest[4..4 + n] + rest[4 + n..]
  {
    var len, body, after := rest[..4], rest[4..4 + n], rest[4 + n..];
    CutFrame(rest, n);
    Associates(bodies, [body], Bodies(after));
    AssociatesFour(dst, len, body, Relayed(after));
    AssociatesFour(dst, len, body, after);
  }

  lemma CutFrame(rest: seq<byte>, n: nat)
    requires 4 + n <= |rest|
    ensures rest[..4 + n] == rest[..4] + rest[4..4 + n] && rest == rest[..4] + rest[4..4 + n] + rest[4 + n..]
  {
  }

  lemma FirstOfFramed(body: Body, rest: seq<byte>)
    requires |body| <= I32_MAX
    ensures var src, n := Framed(body) + rest, |body|;
            FirstFrame(src) == Some(n) && src[4..4 + n] == body && src[..4 + n] == Framed(body) && src[4 + n..] == rest
  {
    var src, n := Framed(body) + rest, |body|;
    Widths();
    FromToBe(n, 4);
    assert src[..4] == ToBe(n, 4);
  }

  /** Whole frames pass through unchanged, and are seen one by one. */
  lemma {:induction false} WholeFramesPass(bodies: seq<Body>)
    requires forall i :: 0 <= i < |bodies| ==> |bodies[i]| <= I32_MAX
    ensures Bodies(FramedAll(bodies)) == bodies && Relayed(FramedAll(bodies)) == FramedAll(bodies)
    decreases |bodies|
  {
    if bodies != [] {
      WholeFramesPass(bodies[1..]);
      FirstOfFramed(bodies[0], FramedAll(bodies[1..]));
      assert bodies == [bodies[0]] + bodies[1..];
    }
  }
}
