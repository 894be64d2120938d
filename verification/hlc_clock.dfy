/** `crates/hlc/src/clock.rs`: one node's clock. The pure steps describe the
    section under the lock; the class runs them in place. The physical reading
    is an argument, because the source takes it before it takes the lock. */
module HlcClocks {
  import opened Base
  import opened HlcStamp

  /** A node id, its fence, and the state behind the mutex. */
  datatype Clock = Clock(
    node: nat,
    maxOffset: int,
    wall: int,
    counter: nat,
    peerAdvances: nat,
    refusals: nat,
    maxPeerAhead: int)

  function Fresh(node: nat, reading: int, maxOffset: int): Clock
  {
    Clock(node, Max(maxOffset, 0), reading, 0, 0, 0, 0)
  }

  function Stamp(c: Clock): Hlc { Hlc(c.wall, c.counter, c.node) }

  function NextCounter(counter: nat): Result<nat, HlcError>
  {
    if counter < U32_MAX then Ok(counter + 1) else Err(CounterOverflow)
  }

  function SaturatingSucc(n: nat): nat { Min(n + 1, U64_MAX) }

  /** Moves the clock to a wall time and a counter, or reports the overflow. */
  function Adopt(c: Clock, wall: int, counter: Result<nat, HlcError>): (Clock, Result<Hlc, HlcError>)
  {
    match counter
    case Err(e) => (c, Err(e))
    case Ok(k) => var c' := c.(wall := wall, counter := k); (c', Ok(Stamp(c')))
  }

  /** The send event. */
  function NowStep(c: Clock, physical: int): (Clock, Result<Hlc, HlcError>)
  {
    var wall := Max(c.wall, physical);
    Adopt(c, wall, if wall == c.wall then NextCounter(c.counter) else Ok(0))
  }

  function AheadMicros(peer: Hlc, physical: int): int { SaturateI64(peer.wall - physical) }

  predicate Refuses(c: Clock, physical: int, peer: Hlc)
  {
    AheadMicros(peer, physical) > c.maxOffset
  }

  /** The receive event. */
  function ObserveStep(c: Clock, physical: int, peer: Hlc): (Clock, Result<Hlc, HlcError>)
  {
    var ahead := AheadMicros(peer, physical);
    var seen := c.(maxPeerAhead := Max(c.maxPeerAhead, ahead));
    if Refuses(c, physical, peer) then
      (seen.(refusals := SaturatingSucc(c.refusals)), Err(PeerTooFarAhead(ahead, c.maxOffset)))
    else
      var wall := Max(Max(c.wall, peer.wall), physical);
      var counter :=
        if wall == c.wall && wall == peer.wall then NextCounter(Max(c.counter, peer.counter))
        else if wall == c.wall then NextCounter(c.counter)
        else if wall == peer.wall then NextCounter(peer.counter)
        else Ok(0);
      var advanced :=
        if counter.Ok? && peer.wall > c.wall && peer.wall > physical
        then seen.(peerAdvances := SaturatingSucc(c.peerAdvances))
        else seen;
      Adopt(advanced, wall, counter)
  }

  /** A minted stamp is above everything the clock held; a failed call leaves
      the whole clock alone. */
  lemma NowAdvances(c: Clock, physical: int)
    ensures var (c', r) := NowStep(c, physical);
            match r
            case Ok(h) => h == Stamp(c') && Less(Stamp(c), h) && h.wall >= physical
            case Err(e) => c' == c && e == CounterOverflow && c.counter >= U32_MAX && physical <= c.wall
  {
  }

  /** A merged stamp is above the local clock and above the peer's stamp; a
      refused or overflowing call moves neither wall nor counter. */
  lemma ObserveAdvances(c: Clock, physical: int, peer: Hlc)
    ensures var (c', r) := ObserveStep(c, physical, peer);
            match r
            case Ok(h) => h == Stamp(c') && Less(Stamp(c), h) && Less(peer, h) && h.wall >= physical
            case Err(e) => Stamp(c') == Stamp(c) && c'.peerAdvances == c.peerAdvances
                           && (e.PeerTooFarAhead? <==> Refuses(c, physical, peer))
  {
  }

  // ----- which calls succeed, and with what -----

  /** The peer's wall time is further ahead of the reading than the fence allows. At the
      largest `i64` the fence is open. */
  predicate TooFarAhead(maxOffset: int, reading: int, peer: Hlc)
  {
    maxOffset < I64_MAX && peer.wall - reading > maxOffset
  }

  /** A peer is refused exactly when it is too far ahead, whatever the clock holds, and the
      refusal is counted. */
  lemma RefusedIff(c: Clock, physical: int, peer: Hlc)
    requires IsI64(physical) && IsStamp(peer) && 0 <= c.maxOffset <= I64_MAX
    ensures var (c', r) := ObserveStep(c, physical, peer);
            && ((r.Err? && r.error.PeerTooFarAhead?) <==> TooFarAhead(c.maxOffset, physical, peer))
            && (TooFarAhead(c.maxOffset, physical, peer) ==>
                  && r == Err(PeerTooFarAhead(Min(peer.wall - physical, I64_MAX), c.maxOffset))
                  && c'.refusals == Min(c.refusals + 1, U64_MAX))
            && (!TooFarAhead(c.maxOffset, physical, peer) ==> c'.refusals == c.refusals)
  {
  }

  /** No room for a stamp at this wall time above one that stands at it. */
  predicate Exhausted(h: Hlc, wall: int) { h.wall == wall && h.counter >= U32_MAX }

  /** The least stamp that a node may mint after the stamps in `past`, at the reading or
      later. */
  ghost predicate LeastAbove(h: Hlc, node: nat, physical: int, past: set<Hlc>)
  {
    && h.node == node && h.wall >= physical
    && (forall p :: p in past ==> Above(h, p))
    && (forall g: Hlc :: g.node == node && g.wall >= physical && (forall p :: p in past ==> Above(g, p)) ==>
          g == h || Above(g, h))
  }

  /** Above in wall time and counter, node ids aside. */
  predicate Above(h: Hlc, p: Hlc)
  {
    h.wall > p.wall || (h.wall == p.wall && h.counter > p.counter)
  }

  /** A send mints the least stamp above the clock at the reading or later. It fails exactly
      when the counter is exhausted at the clock's wall time and the reading is not past it. */
  lemma NowMintsTheLeast(c: Clock, physical: int)
    ensures var r := NowStep(c, physical).1;
            if Exhausted(Stamp(c), Max(c.wall, physical)) then r == Err(CounterOverflow)
            else r.Ok? && LeastAbove(r.value, c.node, physical, {Stamp(c)})
  {
    var r := NowStep(c, physical).1;
    if r.Ok? { LeastOf(r.value, c.node, physical, Stamp(c), Stamp(c)); }
  }

  /** An accepted receive mints the least stamp above the clock and the peer at the reading
      or later; its wall time is the latest of the three. It fails exactly when a counter is
      exhausted at that wall time. */
  lemma ObserveMintsTheLeast(c: Clock, physical: int, peer: Hlc)
    requires IsI64(physical) && IsStamp(peer) && 0 <= c.maxOffset <= I64_MAX
    requires !TooFarAhead(c.maxOffset, physical, peer)
    ensures var (c', r) := ObserveStep(c, physical, peer);
            var wall := Max(Max(c.wall, peer.wall), physical);
            if Exhausted(Stamp(c), wall) || Exhausted(peer, wall) then r == Err(CounterOverflow)
            else && r.Ok? && r.value.wall == wall && LeastAbove(r.value, c.node, physical, {Stamp(c), peer})
                 && c'.peerAdvances
                    == if peer.wall > c.wall && peer.wall > physical then Min(c.peerAdvances + 1, U64_MAX) else c.peerAdvances
  {
    var r := ObserveStep(c, physical, peer).1;
    RefusedIff(c, physical, peer);
    if r.Ok? { LeastOf(r.value, c.node, physical, Stamp(c), peer); }
  }

  /** What a receive adds to the two counters. */
  lemma ObserveCounts(c: Clock, physical: int, peer: Hlc)
    requires IsI64(physical) && IsStamp(peer) && 0 <= c.maxOffset <= I64_MAX
    ensures var (c', r) := ObserveStep(c, physical, peer);
            && (TooFarAhead(c.maxOffset, physical, peer) ==> r.Err?)
            && c'.refusals == (if TooFarAhead(c.maxOffset, physical, peer) then Min(c.refusals + 1, U64_MAX) else c.refusals)
            && c'.peerAdvances
               == if r.Ok? && peer.wall > c.wall && peer.wall > physical then Min(c.peerAdvances + 1, U64_MAX) else c.peerAdvances
  {
    RefusedIff(c, physical, peer);
  }

  /** A fresh clock stands at its reading, and refuses exactly the peers that are further ahead
      of a reading than its offset, or than zero if that is negative. */
  lemma FreshRefusesIff(node: nat, start: int, maxOffset: int, physical: int, peer: Hlc)
    requires IsI64(start) && IsI64(maxOffset) && IsI64(physical) && IsStamp(peer)
    ensures var c := Fresh(node, start, maxOffset);
            var r := ObserveStep(c, physical, peer).1;
            && Stamp(c) == Hlc(start, 0, node)
            && ((r.Err? && r.error.PeerTooFarAhead?) <==>
                  peer.wall - physical > (if maxOffset < 0 then 0 else maxOffset) && maxOffset < I64_MAX)
  {
    RefusedIff(Fresh(node, start, maxOffset), physical, peer);
  }

  lemma LeastOf(h: Hlc, node: nat, physical: int, a: Hlc, b: Hlc)
    requires h.node == node && h.wall >= physical && Above(h, a) && Above(h, b)
    requires h.wall == Max(Max(a.wall, b.wall), physical)
    requires h.counter == 0 || (a.wall == h.wall && h.counter == a.counter + 1) || (b.wall == h.wall && h.counter == b.counter + 1)
    ensures LeastAbove(h, node, physical, {a, b})
  {
    forall g: Hlc | g.node == node && g.wall >= physical && (forall p :: p in {a, b} ==> Above(g, p))
      ensures g == h || Above(g, h)
    {
      assert a in {a, b} && b in {a, b};
      assert Above(g, a) && Above(g, b);
    }
  }

  /** Refused, overflowing or accepted, a call lifts the wall no further than
      the reading plus the offset, and it records the delta it saw. */
  lemma ObserveFenced(c: Clock, physical: int, peer: Hlc)
    requires IsI64(physical) && 0 <= c.maxOffset
    ensures var c' := ObserveStep(c, physical, peer).0;
            && c'.maxOffset == c.maxOffset
            && (c.maxOffset < I64_MAX ==> c'.wall <= Max(c.wall, physical + c.maxOffset))
            && c'.maxPeerAhead == Max(c.maxPeerAhead, AheadMicros(peer, physical))
  {
  }

  /** The fence bounds what a peer can impose exactly when the configured
      offset is below the largest `i64`: at that value the saturated delta can
      never exceed the offset, so nothing is refused. */
  lemma FenceIsTight(maxOffset: int)
    requires 0 <= maxOffset <= I64_MAX
    ensures (forall c: Clock, physical: int, peer: Hlc ::
               c.maxOffset == maxOffset && IsI64(physical) && IsStamp(peer) && !Refuses(c, physical, peer)
               ==> peer.wall <= physical + maxOffset)
            <==> maxOffset < I64_MAX
  {
    if maxOffset == I64_MAX {
      var c := Fresh(1, -10, I64_MAX);
      var peer := Hlc(I64_MAX, 0, 2);
      assert !Refuses(c, -10, peer) && IsStamp(peer);
    }
  }

  class HlcClock {
    const node: nat
    const maxOffset: int
    var wall: int
    var counter: nat
    var peerAdvances: nat
    var refusals: nat
    var maxPeerAhead: int

    function Value(): Clock
      reads this
    {
      Clock(node, maxOffset, wall, counter, peerAdvances, refusals, maxPeerAhead)
    }

    constructor (node: nat, reading: int, maxOffset: int)
      ensures Value() == Fresh(node, reading, maxOffset)
    {
      this.node, this.maxOffset := node, Max(maxOffset, 0);
      wall, counter := reading, 0;
      peerAdvances, refusals, maxPeerAhead := 0, 0, 0;
    }

    method Now(physical: int) returns (r: Result<Hlc, HlcError>)
      modifies this
      ensures (Value(), r) == NowStep(old(Value()), physical)
    {
      var wall' := Max(wall, physical);
      var counter' := 0;
      if wall' == wall {
        if counter >= U32_MAX { return Err(CounterOverflow); }
        counter' := counter + 1;
      }
      wall, counter := wall', counter';
      r := Ok(Hlc(wall', counter', node));
    }

    method Observe(physical: int, peer: Hlc) returns (r: Result<Hlc, HlcError>)
      modifies this
      ensures (Value(), r) == ObserveStep(old(Value()), physical, peer)
    {
      var ahead := SaturateI64(peer.wall - physical);
      maxPeerAhead := Max(maxPeerAhead, ahead);
      if ahead > maxOffset {
        refusals := SaturatingSucc(refusals);
        return Err(PeerTooFarAhead(ahead, maxOffset));
      }
      var local := wall;
      var wall' := Max(Max(local, peer.wall), physical);
      var counter' := 0;
      if wall' == local || wall' == peer.wall {
        var base :=
          if wall' == local && wall' == peer.wall then Max(counter, peer.counter)
          else if wall' == local then counter
          else peer.counter;
        if base >= U32_MAX { return Err(CounterOverflow); }
        counter' := base + 1;
      }
      if peer.wall > local && peer.wall > physical {
        peerAdvances := SaturatingSucc(peerAdvances);
      }
      wall, counter := wall', counter';
      r := Ok(Hlc(wall', counter', node));
    }
  }
}
