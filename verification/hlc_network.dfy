/** Every interleaved run of any number of clocks. Each call is two steps, as
    in the source: a thread reads the physical clock, and later, after any
    number of other steps, runs the section under the lock with that reading. */
module HlcNetwork {
  import opened Base
  import opened HlcStamp
  import opened HlcClocks

  /** One event that gave a clock a stamp. `peer` is the stamp a receive
      merged, and `cause` the earlier event that stamp came from. A receive of
      a stamp that no clock of the network minted has no `cause`. */
  datatype Event = Event(reading: int, stamp: Hlc, peer: Option<Hlc>, cause: Option<nat>)

  /** One receive that ran under the lock: the wall time it met there, the reading it
      brought, the peer's stamp, and whether it minted a stamp. */
  datatype Call = Call(before: int, reading: int, peer: Hlc, minted: bool)

  /** A clock, the readings its threads hold, and the record the theorems are
      about: its latest event, its largest reading, every peer delta and every receive. */
  datatype Node = Node(
    clock: Clock,
    pending: map<nat, int>,
    last: nat,
    maxReading: int,
    deltas: seq<int>,
    calls: seq<Call>)

  datatype Net = Net(nodes: map<nat, Node>, events: seq<Event>)

  datatype Step =
    | Create(node: nat, reading: int, maxOffset: int)
    | Read(node: nat, thread: nat, reading: int)
    | Send(node: nat, thread: nat)
    | Receive(node: nat, thread: nat, peer: Hlc, cause: Option<nat>)

  predicate Enabled(s: Net, step: Step)
  {
    match step
    case Create(n, reading, maxOffset) =>
      n !in s.nodes && IsI64(reading) && IsI64(maxOffset)
    case Read(n, thread, reading) => n in s.nodes && IsI64(reading)
    case Send(n, thread) => n in s.nodes && thread in s.nodes[n].pending
    case Receive(n, thread, peer, cause) =>
      n in s.nodes && thread in s.nodes[n].pending && IsStamp(peer)
      && (cause.Some? ==> cause.value < |s.events| && s.events[cause.value].stamp == peer)
  }

  /** The locked section's outcome, written back; a stamp is a new event. */
  function Settle(s: Net, n: nat, thread: nat, outcome: (Clock, Result<Hlc, HlcError>),
                  peer: Option<Hlc>, cause: Option<nat>): Net
    requires n in s.nodes && thread in s.nodes[n].pending
  {
    var node := s.nodes[n];
    var reading := node.pending[thread];
    var done := node.(clock := outcome.0,
                      pending := node.pending - {thread},
                      deltas := if peer.None? then node.deltas
                                else node.deltas + [AheadMicros(peer.value, reading)],
                      calls := if peer.None? then node.calls
                               else node.calls + [Call(node.clock.wall, reading, peer.value, outcome.1.Ok?)]);
    match outcome.1
    case Err(_) => s.(nodes := s.nodes[n := done])
    case Ok(h) =>
      Net(s.nodes[n := done.(last := |s.events|)], s.events + [Event(reading, h, peer, cause)])
  }

  function Next(s: Net, step: Step): Net
    requires Enabled(s, step)
  {
    match step
    case Create(n, reading, maxOffset) =>
      var clock := Fresh(n, reading, maxOffset);
      Net(s.nodes[n := Node(clock, map[], |s.events|, reading, [], [])],
          s.events + [Event(reading, Stamp(clock), None, None)])
    case Read(n, thread, reading) =>
      var node := s.nodes[n];
      s.(nodes := s.nodes[n := node.(pending := node.pending[thread := reading],
                                     maxReading := Max(node.maxReading, reading))])
    case Send(n, thread) =>
      var node := s.nodes[n];
      Settle(s, n, thread, NowStep(node.clock, node.pending[thread]), None, None)
    case Receive(n, thread, peer, cause) =>
      var node := s.nodes[n];
      Settle(s, n, thread, ObserveStep(node.clock, node.pending[thread], peer), Some(peer), cause)
  }

  /** The state after `steps`, if each was enabled in turn. */
  function Run(steps: seq<Step>): Option<Net>
  {
    if steps == [] then Some(Net(map[], []))
    else
      match Run(steps[..|steps| - 1])
      case None => None
      case Some(s) =>
        var step := steps[|steps| - 1];
        if Enabled(s, step) then Some(Next(s, step)) else None
  }

  // ----- cause and effect -----

  /** Event `i` comes directly before `j`: an earlier event of the same node,
      or the event whose stamp `j` merged. */
  ghost predicate Edge(events: seq<Event>, i: nat, j: nat)
  {
    i < j < |events|
    && (events[i].stamp.node == events[j].stamp.node || events[j].cause == Some(i))
  }

  /** The happens-before relation: one or more edges. */
  ghost predicate HappensBefore(events: seq<Event>, i: nat, j: nat)
    decreases j
  {
    Edge(events, i, j)
    || exists k :: i < k < j && HappensBefore(events, i, k) && Edge(events, k, j)
  }

  ghost predicate InPastOf(events: seq<Event>, i: nat, j: nat)
  {
    i == j || HappensBefore(events, i, j)
  }

  /** Every received stamp was minted by a clock of the network. */
  ghost predicate Closed(events: seq<Event>)
  {
    forall j :: 0 <= j < |events| && events[j].peer.Some? ==> events[j].cause.Some?
  }

  // ----- what every step keeps -----

  /** How event `j` came by its wall time and counter: a fresh reading, the
      successor of a direct predecessor, or a stamp from outside the network. */
  ghost predicate Justified(events: seq<Event>, j: nat)
    requires j < |events|
  {
    var e := events[j];
    || (e.stamp.counter == 0 && e.stamp.wall == e.reading)
    || (exists p: nat :: Edge(events, p, j) && events[p].stamp.wall == e.stamp.wall
                    && events[p].stamp.counter + 1 == e.stamp.counter)
    || (e.peer.Some? && e.cause.None?)
  }

  /** The latest event carries the clock's stamp, and threads hold readings. */
  ghost predicate NodeShape(s: Net, n: nat)
    requires n in s.nodes
  {
    var node := s.nodes[n];
    && node.clock.node == n
    && node.last < |s.events|
    && s.events[node.last].stamp == Stamp(node.clock)
    && (forall t :: t in node.pending ==> IsI64(node.pending[t]) && node.pending[t] <= node.maxReading)
  }

  ghost predicate Fenced(node: Node)
  {
    && 0 <= node.clock.maxOffset <= I64_MAX
    && (node.clock.maxOffset < I64_MAX ==> node.clock.wall <= node.maxReading + node.clock.maxOffset)
    && node.clock.maxPeerAhead == MaxDelta(node.deltas)
  }

  /** The fence refuses the peer of this receive. */
  predicate IsRefused(call: Call, maxOffset: int)
  {
    TooFarAhead(maxOffset, call.reading, call.peer)
  }

  /** The peer alone moves the clock: its wall time is past the clock's and past the reading. */
  predicate IsAdvance(call: Call)
  {
    call.minted && call.peer.wall > call.before && call.peer.wall > call.reading
  }

  function RefusedCount(calls: seq<Call>, maxOffset: int): nat
  {
    if calls == [] then 0
    else RefusedCount(calls[..|calls| - 1], maxOffset) + (if IsRefused(calls[|calls| - 1], maxOffset) then 1 else 0)
  }

  function AdvanceCount(calls: seq<Call>): nat
  {
    if calls == [] then 0
    else AdvanceCount(calls[..|calls| - 1]) + (if IsAdvance(calls[|calls| - 1]) then 1 else 0)
  }

  /** The counters count, up to the largest `u64`, and a refused receive mints nothing. */
  ghost predicate Counted(node: Node)
  {
    && |node.calls| == |node.deltas|
    && node.clock.refusals == Min(RefusedCount(node.calls, node.clock.maxOffset), U64_MAX)
    && node.clock.peerAdvances == Min(AdvanceCount(node.calls), U64_MAX)
    && (forall i :: 0 <= i < |node.calls| && IsRefused(node.calls[i], node.clock.maxOffset) ==> !node.calls[i].minted)
  }

  ghost predicate NodeInv(s: Net, n: nat)
    requires n in s.nodes
  {
    NodeShape(s, n) && Fenced(s.nodes[n]) && Counted(s.nodes[n])
  }

  /** The largest of zero and the deltas seen. */
  function MaxDelta(deltas: seq<int>): int
  {
    if deltas == [] then 0 else Max(MaxDelta(deltas[..|deltas| - 1]), deltas[|deltas| - 1])
  }

  ghost predicate EventsInv(s: Net)
  {
    forall j :: 0 <= j < |s.events| ==>
      && s.events[j].stamp.node in s.nodes
      && j <= s.nodes[s.events[j].stamp.node].last
      && Justified(s.events, j)
  }

  ghost predicate Ordered(events: seq<Event>)
  {
    forall i: nat, j: nat :: Edge(events, i, j) ==> Less(events[i].stamp, events[j].stamp)
  }

  ghost predicate NetInv(s: Net)
  {
    (forall n :: n in s.nodes ==> NodeInv(s, n)) && EventsInv(s) && Ordered(s.events)
  }

  /** Appending an event changes nothing that was said of the earlier ones. */
  lemma JustifiedExtends(events: seq<Event>, e: Event, j: nat)
    requires j < |events| && Justified(events, j)
    ensures Justified(events + [e], j)
  {
    var all := events + [e];
    if exists p: nat :: Edge(events, p, j) && events[p].stamp.wall == events[j].stamp.wall
                   && events[p].stamp.counter + 1 == events[j].stamp.counter {
      var p: nat :| Edge(events, p, j) && events[p].stamp.wall == events[j].stamp.wall
               && events[p].stamp.counter + 1 == events[j].stamp.counter;
      assert Edge(all, p, j);
    }
  }

  /** An event of node `n` above the node's last event and above its cause
      keeps the order. */
  lemma AppendKeepsEvents(s: Net, n: nat, node: Node, e: Event)
    requires NetInv(s)
    requires e.stamp.node == n && node.last == |s.events|
    requires n in s.nodes ==> Less(s.events[s.nodes[n].last].stamp, e.stamp)
    requires e.cause.Some? ==> e.cause.value < |s.events| && Less(s.events[e.cause.value].stamp, e.stamp)
    requires Justified(s.events + [e], |s.events|)
    ensures var s' := Net(s.nodes[n := node], s.events + [e]);
            EventsInv(s') && Ordered(s'.events)
  {
    var s' := Net(s.nodes[n := node], s.events + [e]);
    var m := |s.events|;
    forall j | 0 <= j < |s'.events|
      ensures s'.events[j].stamp.node in s'.nodes && j <= s'.nodes[s'.events[j].stamp.node].last
              && Justified(s'.events, j)
    {
      if j < m { JustifiedExtends(s.events, e, j); }
    }
    forall i: nat, j: nat | Edge(s'.events, i, j)
      ensures Less(s'.events[i].stamp, s'.events[j].stamp)
    {
      if j < m {
        assert Edge(s.events, i, j);
      } else if s.events[i].stamp.node == n {
        var last := s.nodes[n].last;
        assert i <= last;
        if i < last { assert Edge(s.events, i, last); }
      }
    }
  }

  /** A thread of node `n` runs the section under the lock. */
  ghost predicate Runs(s: Net, n: nat, thread: nat, outcome: (Clock, Result<Hlc, HlcError>),
                       peer: Option<Hlc>, cause: Option<nat>)
  {
    n in s.nodes && thread in s.nodes[n].pending &&
    var clock, reading := s.nodes[n].clock, s.nodes[n].pending[thread];
    match peer
    case None => cause.None? && outcome == NowStep(clock, reading)
    case Some(p) =>
      && IsStamp(p)
      && outcome == ObserveStep(clock, reading, p)
      && (cause.Some? ==> cause.value < |s.events| && s.events[cause.value].stamp == p)
  }

  lemma SettleKeeps(s: Net, n: nat, thread: nat, outcome: (Clock, Result<Hlc, HlcError>),
                    peer: Option<Hlc>, cause: Option<nat>)
    requires NetInv(s) && Runs(s, n, thread, outcome, peer, cause)
    ensures NetInv(Settle(s, n, thread, outcome, peer, cause))
  {
    var s' := Settle(s, n, thread, outcome, peer, cause);
    forall m | m in s'.nodes ensures NodeInv(s', m) {
      if m == n {
        SettleKeepsShape(s, n, thread, outcome, peer, cause);
        SettleKeepsFence(s, n, thread, outcome, peer, cause);
        SettleKeepsCounts(s, n, thread, outcome, peer, cause);
      } else {
        assert NodeInv(s, m);
      }
    }
    SettleKeepsEvents(s, n, thread, outcome, peer, cause);
  }

  lemma SettleKeepsShape(s: Net, n: nat, thread: nat, outcome: (Clock, Result<Hlc, HlcError>),
                         peer: Option<Hlc>, cause: Option<nat>)
    requires n in s.nodes && NodeShape(s, n) && Runs(s, n, thread, outcome, peer, cause)
    ensures NodeShape(Settle(s, n, thread, outcome, peer, cause), n)
  {
    var node := s.nodes[n];
    if peer.None? { NowAdvances(node.clock, node.pending[thread]); }
    else { ObserveAdvances(node.clock, node.pending[thread], peer.value); }
  }

  lemma SettleKeepsFence(s: Net, n: nat, thread: nat, outcome: (Clock, Result<Hlc, HlcError>),
                         peer: Option<Hlc>, cause: Option<nat>)
    requires n in s.nodes && NodeInv(s, n) && Runs(s, n, thread, outcome, peer, cause)
    ensures Fenced(Settle(s, n, thread, outcome, peer, cause).nodes[n])
  {
    var node := s.nodes[n];
    var node' := Settle(s, n, thread, outcome, peer, cause).nodes[n];
    if peer.Some? {
      ObserveFenced(node.clock, node.pending[thread], peer.value);
      assert node'.deltas[..|node'.deltas| - 1] == node.deltas;
    }
  }

  lemma CountCall(node: Node, node': Node, call: Call)
    requires Counted(node) && node'.calls == node.calls + [call] && |node'.deltas| == |node.deltas| + 1
    requires node'.clock.maxOffset == node.clock.maxOffset
    requires node'.clock.refusals == if IsRefused(call, node.clock.maxOffset) then Min(node.clock.refusals + 1, U64_MAX)
                                     else node.clock.refusals
    requires node'.clock.peerAdvances == if IsAdvance(call) then Min(node.clock.peerAdvances + 1, U64_MAX)
                                         else node.clock.peerAdvances
    requires IsRefused(call, node.clock.maxOffset) ==> !call.minted
    ensures Counted(node')
  {
    assert node'.calls[..|node'.calls| - 1] == node.calls;
  }

  lemma SettleKeepsCounts(s: Net, n: nat, thread: nat, outcome: (Clock, Result<Hlc, HlcError>),
                          peer: Option<Hlc>, cause: Option<nat>)
    requires n in s.nodes && NodeInv(s, n) && Runs(s, n, thread, outcome, peer, cause)
    ensures Counted(Settle(s, n, thread, outcome, peer, cause).nodes[n])
  {
    var node := s.nodes[n];
    var node' := Settle(s, n, thread, outcome, peer, cause).nodes[n];
    if peer.Some? {
      var reading := node.pending[thread];
      ObserveCounts(node.clock, reading, peer.value);
      ObserveFenced(node.clock, reading, peer.value);
      CountCall(node, node', Call(node.clock.wall, reading, peer.value, outcome.1.Ok?));
    }
  }

  lemma SettleKeepsEvents(s: Net, n: nat, thread: nat, outcome: (Clock, Result<Hlc, HlcError>),
                          peer: Option<Hlc>, cause: Option<nat>)
    requires NetInv(s) && Runs(s, n, thread, outcome, peer, cause)
    ensures var s' := Settle(s, n, thread, outcome, peer, cause);
            EventsInv(s') && Ordered(s'.events)
  {
    var node, s' := s.nodes[n], Settle(s, n, thread, outcome, peer, cause);
    if outcome.1.Ok? {
      assert NodeInv(s, n);
      var reading, h := node.pending[thread], outcome.1.value;
      if peer.None? { NowAdvances(node.clock, reading); }
      else { ObserveAdvances(node.clock, reading, peer.value); }
      SettleJustified(s, n, reading, h, peer, cause);
      AppendKeepsEvents(s, n, s'.nodes[n], Event(reading, h, peer, cause));
    }
  }

  lemma SettleJustified(s: Net, n: nat, reading: int, h: Hlc, peer: Option<Hlc>, cause: Option<nat>)
    requires NetInv(s) && n in s.nodes
    requires match peer
             case None => NowStep(s.nodes[n].clock, reading).1 == Ok(h)
             case Some(p) =>
               && ObserveStep(s.nodes[n].clock, reading, p).1 == Ok(h)
               && (cause.Some? ==> cause.value < |s.events| && s.events[cause.value].stamp == p)
    ensures Justified(s.events + [Event(reading, h, peer, cause)], |s.events|)
  {
    var m := |s.events|;
    var all := s.events + [Event(reading, h, peer, cause)];
    var last := s.nodes[n].last;
    assert all[last] == s.events[last];
    assert Edge(all, last, m);
    if cause.Some? && peer.Some? {
      assert all[cause.value] == s.events[cause.value];
      assert Edge(all, cause.value, m);
    }
  }

  lemma CreateKeeps(s: Net, n: nat, reading: int, maxOffset: int)
    requires NetInv(s) && n !in s.nodes && IsI64(reading) && IsI64(maxOffset)
    ensures NetInv(Next(s, Create(n, reading, maxOffset)))
  {
    var s' := Next(s, Create(n, reading, maxOffset));
    AppendKeepsEvents(s, n, s'.nodes[n], s'.events[|s.events|]);
  }

  lemma ReadKeeps(s: Net, n: nat, thread: nat, reading: int)
    requires NetInv(s) && Enabled(s, Read(n, thread, reading))
    ensures NetInv(Next(s, Read(n, thread, reading)))
  {
  }

  lemma StepKeeps(s: Net, step: Step)
    requires NetInv(s) && Enabled(s, step)
    ensures NetInv(Next(s, step))
  {
    match step
    case Create(n, reading, maxOffset) => CreateKeeps(s, n, reading, maxOffset);
    case Read(n, thread, reading) => ReadKeeps(s, n, thread, reading);
    case Send(n, thread) =>
      SettleKeeps(s, n, thread, NowStep(s.nodes[n].clock, s.nodes[n].pending[thread]), None, None);
    case Receive(n, thread, peer, cause) =>
      SettleKeeps(s, n, thread, ObserveStep(s.nodes[n].clock, s.nodes[n].pending[thread], peer),
                  Some(peer), cause);
  }

  lemma {:induction false} RunKeeps(steps: seq<Step>)
    requires Run(steps).Some?
    ensures NetInv(Run(steps).value)
  {
    if steps != [] {
      RunKeeps(steps[..|steps| - 1]);
      StepKeeps(Run(steps[..|steps| - 1]).value, steps[|steps| - 1]);
    }
  }

  // ----- theorems over whole runs -----

  /** Cause and effect agree with the stamp order, whatever the physical
      clocks do and whatever foreign stamps arrive. */
  lemma Causality(steps: seq<Step>, i: nat, j: nat)
    requires Run(steps).Some?
    requires HappensBefore(Run(steps).value.events, i, j)
    ensures j < |Run(steps).value.events|
    ensures Less(Run(steps).value.events[i].stamp, Run(steps).value.events[j].stamp)
  {
    RunKeeps(steps);
    CausalOrder(Run(steps).value.events, i, j);
  }

  lemma {:induction false} CausalOrder(events: seq<Event>, i: nat, j: nat)
    requires Ordered(events) && HappensBefore(events, i, j)
    ensures i < j < |events| && Less(events[i].stamp, events[j].stamp)
    decreases j
  {
    if !Edge(events, i, j) {
      var k :| i < k < j && HappensBefore(events, i, k) && Edge(events, k, j);
      CausalOrder(events, i, k);
    }
  }

  /** No two events of the network share a stamp. */
  lemma StampsAreUnique(steps: seq<Step>, i: nat, j: nat)
    requires Run(steps).Some? && i < j < |Run(steps).value.events|
    ensures Run(steps).value.events[i].stamp != Run(steps).value.events[j].stamp
  {
    RunKeeps(steps);
    var events := Run(steps).value.events;
    if events[i].stamp.node == events[j].stamp.node { assert Edge(events, i, j); }
  }

  /** In a closed network every wall time is a physical reading made at the
      event or in its causal past. */
  lemma WallTimeIsAReading(steps: seq<Step>, j: nat) returns (i: nat)
    requires Run(steps).Some? && Closed(Run(steps).value.events) && j < |Run(steps).value.events|
    ensures i <= j && InPastOf(Run(steps).value.events, i, j)
    ensures Run(steps).value.events[i].reading == Run(steps).value.events[j].stamp.wall
  {
    RunKeeps(steps);
    i := ReadingOf(Run(steps).value.events, j);
  }

  lemma {:induction false} ReadingOf(events: seq<Event>, j: nat) returns (i: nat)
    requires Closed(events) && j < |events|
    requires forall m :: 0 <= m < |events| ==> Justified(events, m)
    ensures i <= j && InPastOf(events, i, j) && events[i].reading == events[j].stamp.wall
    decreases j
  {
    if events[j].stamp.counter == 0 && events[j].stamp.wall == events[j].reading {
      i := j;
    } else {
      assert Justified(events, j);
      var p: nat :| Edge(events, p, j) && events[p].stamp.wall == events[j].stamp.wall;
      i := ReadingOf(events, p);
    }
  }

  /** `chain` runs along edges, through events of one wall time whose counters
      are 0, 1, 2, ... */
  ghost predicate CounterChain(events: seq<Event>, chain: seq<nat>, wall: int)
  {
    && (forall m :: 0 <= m < |chain| ==>
          chain[m] < |events| && events[chain[m]].stamp.wall == wall && events[chain[m]].stamp.counter == m)
    && (forall m :: 0 < m < |chain| ==> Edge(events, chain[m - 1], chain[m]))
  }

  /** In a closed network a counter of `k` is paid for by `k` earlier events of
      the same wall time, each directly before the next. */
  lemma CounterIsPaidFor(steps: seq<Step>, j: nat) returns (chain: seq<nat>)
    requires Run(steps).Some? && Closed(Run(steps).value.events) && j < |Run(steps).value.events|
    ensures var events := Run(steps).value.events;
            && |chain| == events[j].stamp.counter + 1
            && chain[|chain| - 1] == j
            && CounterChain(events, chain, events[j].stamp.wall)
  {
    RunKeeps(steps);
    chain := ChainOf(Run(steps).value.events, j);
  }

  lemma {:induction false} ChainOf(events: seq<Event>, j: nat) returns (chain: seq<nat>)
    requires Closed(events) && j < |events|
    requires forall m :: 0 <= m < |events| ==> Justified(events, m)
    ensures |chain| == events[j].stamp.counter + 1 && chain[|chain| - 1] == j
    ensures CounterChain(events, chain, events[j].stamp.wall)
    decreases j
  {
    if events[j].stamp.counter == 0 {
      chain := [j];
    } else {
      assert Justified(events, j);
      var p: nat :| Edge(events, p, j) && events[p].stamp.wall == events[j].stamp.wall
               && events[p].stamp.counter + 1 == events[j].stamp.counter;
      var shorter := ChainOf(events, p);
      chain := shorter + [j];
    }
  }

  /** Whatever stamps peers send, a clock never leads its own largest physical
      reading by more than its maximum offset; and the skew it reports is the
      largest of zero and every peer delta it saw, refused stamps included. */
  lemma FenceBound(steps: seq<Step>, n: nat)
    requires Run(steps).Some? && n in Run(steps).value.nodes
    ensures var node := Run(steps).value.nodes[n];
            && (node.clock.maxOffset < I64_MAX ==> node.clock.wall <= node.maxReading + node.clock.maxOffset)
            && node.clock.maxPeerAhead == MaxDelta(node.deltas)
  {
    RunKeeps(steps);
  }

  /** Over every run, a clock's refusals are the receives whose peer was too far ahead of
      their reading, its peer advances the stamps it minted at a peer's wall time that was past
      both its own and the reading, and no refused receive minted a stamp. */
  lemma CountersCount(steps: seq<Step>, n: nat)
    requires Run(steps).Some? && n in Run(steps).value.nodes
    ensures var node := Run(steps).value.nodes[n];
            && node.clock.refusals == Min(RefusedCount(node.calls, node.clock.maxOffset), U64_MAX)
            && node.clock.peerAdvances == Min(AdvanceCount(node.calls), U64_MAX)
            && (forall i :: 0 <= i < |node.calls| && IsRefused(node.calls[i], node.clock.maxOffset) ==> !node.calls[i].minted)
  {
    RunKeeps(steps);
  }

  /** `MaxDelta` is the maximum it is named for. */
  lemma {:induction false} MaxDeltaIsMax(deltas: seq<int>)
    ensures MaxDelta(deltas) == 0 || MaxDelta(deltas) in deltas
    ensures forall i :: 0 <= i < |deltas| ==> deltas[i] <= MaxDelta(deltas)
    ensures MaxDelta(deltas) >= 0
  {
    if deltas != [] {
      MaxDeltaIsMax(deltas[..|deltas| - 1]);
      assert deltas == deltas[..|deltas| - 1] + [deltas[|deltas| - 1]];
    }
  }
}
