/** The two pumps of one connection as an interleaved protocol. Each locked section
    and each write is one step; the steps of the two pumps mix in any order. */
module TapProtocol {
  import opened Base
  import opened Bytes
  import opened TapFrames

  /** Where a pump stands with the frame it holds: read, looked up in the pending
      map, told to the recorder. */
  datatype Phase = Idle | Got(body: Body) | Marked(body: Body, found: Option<(int, int)>) | Told(body: Body)
  {
    function InHand(): seq<Body> { if Idle? then [] else [body] }

    /** The pending map has been consulted for the frame in hand. */
    function Consulted(): nat { if Marked? || Told? then 1 else 0 }

    function Recorded(): nat { if Told? then 1 else 0 }
  }

  /** Which frame a captured frame is: the i-th request or the k-th response. */
  datatype Origin = Request(i: nat) | Response(k: nat)

  /** What happened to the pending map: the i-th request was marked under an id, the
      k-th response took an id out. */
  datatype Event = Mark(i: nat, id: int) | Take(k: nat, id: int)

  /** `requests` and `responses` are the frames read; `toServer` and `toClient` those
      written on. `answers[k]` is the request that the upstream answers with the k-th
      response, if any. `events` is the history of the pending map, and `cuts[k]` how much
      of it was there when the k-th response was looked up. */
  datatype State = State(
    requests: seq<Body>, toServer: seq<Body>, request: Phase,
    responses: seq<Body>, toClient: seq<Body>, response: Phase,
    answers: seq<Option<nat>>, pending: map<int, (int, int)>, events: seq<Event>, cuts: seq<nat>,
    recorded: seq<CapturedFrame>, origins: seq<Origin>)

  const START: State := State([], [], Idle, [], [], Idle, [], map[], [], [], [], [])

  /** The upstream may send any frame, whether it answers a request or not. */
  datatype Action =
    | ReadRequest(body: Body) | MarkRequest | TellRequest | ForwardRequest
    | ReadResponse(answer: Body, to: Option<nat>) | MarkResponse | TellResponse | ForwardResponse

  function Label(p: RequestPrefix): (int, int) { (p.apiKey, p.apiVersion) }

  predicate Enabled(s: State, a: Action)
  {
    match a
    case ReadRequest(_) => s.request.Idle?
    case MarkRequest => s.request.Got?
    case TellRequest => s.request.Marked?
    case ForwardRequest => s.request.Told?
    case ReadResponse(_, _) => s.response.Idle?
    case MarkResponse => s.response.Got?
    case TellResponse => s.response.Marked?
    case ForwardResponse => s.response.Told?
  }

  function Do(s: State, a: Action): State
    requires Enabled(s, a)
  {
    match a
    case ReadRequest(body) => s.(requests := s.requests + [body], request := Got(body))
    case MarkRequest =>
      (match ParseRequestPrefix(s.request.body)
       case None => s.(request := Told(s.request.body))
       case Some(p) =>
         s.(pending := s.pending[p.correlationId := Label(p)], events := s.events + [Mark(|s.toServer|, p.correlationId)],
            request := Marked(s.request.body, Some(Label(p)))))
    case TellRequest => Tell(s.(request := Told(s.request.body)), s.request.found, true, s.request.body)
    case ForwardRequest => s.(toServer := s.toServer + [s.request.body], request := Idle)
    case ReadResponse(body, to) =>
      s.(responses := s.responses + [body], answers := s.answers + [to], response := Got(body))
    case MarkResponse =>
      (match ReadCorrelationId(s.response.body)
       case None => s.(cuts := s.cuts + [|s.events|], response := Told(s.response.body))
       case Some(c) =>
         s.(pending := s.pending - {c}, events := s.events + [Take(|s.toClient|, c)], cuts := s.cuts + [|s.events|],
            response := Marked(s.response.body, if c in s.pending then Some(s.pending[c]) else None)))
    case TellResponse => Tell(s.(response := Told(s.response.body)), s.response.found, false, s.response.body)
    case ForwardResponse => s.(toClient := s.toClient + [s.response.body], response := Idle)
  }

  /** The recorder's own step; a response without a request is not recorded. */
  function Tell(s: State, tag: Option<(int, int)>, isRequest: bool, body: Body): State
  {
    match tag
    case None => s
    case Some(l) =>
      s.(recorded := s.recorded + [CapturedFrame(l.0, l.1, isRequest, body)],
         origins := s.origins + [if isRequest then Request(|s.toServer|) else Response(|s.toClient|)])
  }

  // ----- clients and upstreams that keep to the protocol -----

  /** The client has the answer to the i-th request. */
  predicate Delivered(s: State, i: nat)
  {
    exists k :: 0 <= k < |s.toClient| && k < |s.answers| && s.answers[k] == Some(i)
  }

  /** The client does not use a correlation id that one of its requests still holds. */
  predicate FreshId(s: State, body: Body)
  {
    var p := ParseRequestPrefix(body);
    p.Some? ==>
      forall i :: 0 <= i < |s.requests| ==>
        var q := ParseRequestPrefix(s.requests[i]);
        q.Some? && q.value.correlationId == p.value.correlationId ==> Delivered(s, i)
  }

  /** The upstream answers a request that reached it, once, under its id. */
  predicate Answers(s: State, body: Body, i: nat)
  {
    && i < |s.toServer| && Some(i) !in s.answers
    && ParseRequestPrefix(s.toServer[i]).Some?
    && ReadCorrelationId(body) == Some(ParseRequestPrefix(s.toServer[i]).value.correlationId)
  }

  predicate Disciplined(s: State, a: Action)
  {
    && (a.ReadRequest? ==> FreshId(s, a.body))
    && (a.ReadResponse? ==> a.to.Some? && Answers(s, a.answer, a.to.value))
  }

  /** A run of the two pumps in any interleaving; in a strict one the client and the
      upstream keep to the protocol. */
  predicate Run(s: State, actions: seq<Action>, strict: bool)
    decreases |actions|
  {
    actions == []
    || (&& Enabled(s, actions[0]) && (strict ==> Disciplined(s, actions[0]))
        && Run(Do(s, actions[0]), actions[1..], strict))
  }

  function After(s: State, actions: seq<Action>, strict: bool): State
    requires Run(s, actions, strict)
    decreases |actions|
  {
    if actions == [] then s else After(Do(s, actions[0]), actions[1..], strict)
  }

  /** The states that some run reaches. */
  ghost predicate Reachable(s: State, strict: bool)
  {
    exists actions :: Run(START, actions, strict) && After(START, actions, strict) == s
  }

  // ----- who holds an id -----

  /** The request whose entry the pending map has for an id. */
  function Holder(events: seq<Event>, id: int): Option<nat>
  {
    if events == [] then None
    else
      var e := events[|events| - 1];
      if e.id != id then Holder(events[..|events| - 1], id) else if e.Mark? then Some(e.i) else None
  }

  lemma HolderNext(events: seq<Event>, e: Event, id: int)
    ensures Holder(events + [e], id)
         == if e.id != id then Holder(events, id) else if e.Mark? then Some(e.i) else None
  {
    assert (events + [e])[..|events|] == events;
  }

  /** A request holds an id exactly when it was marked under it and nothing was marked or
      taken under it since. */
  lemma {:induction false} HolderIff(events: seq<Event>, id: int, i: nat)
    ensures Holder(events, id) == Some(i) <==>
              exists m :: 0 <= m < |events| && events[m] == Mark(i, id) && forall j :: m < j < |events| ==> events[j].id != id
    decreases |events|
  {
    if events != [] {
      var n := |events| - 1;
      HolderIff(events[..n], id, i);
      assert events[n] == Mark(i, id) ==> 0 <= n < |events|;
    }
  }

  /** The request whose entry the k-th response took. */
  function TakenFrom(s: State, k: nat): Option<nat>
    requires k < |s.cuts| && k < |s.responses| && s.cuts[k] <= |s.events|
  {
    match ReadCorrelationId(s.responses[k])
    case None => None
    case Some(c) => Holder(s.events[..s.cuts[k]], c)
  }

  function LabelOf(s: State, i: nat): Option<(int, int)>
  {
    if i < |s.requests| && ParseRequestPrefix(s.requests[i]).Some?
    then Some(Label(ParseRequestPrefix(s.requests[i]).value)) else None
  }

  /** The label under which the k-th response is captured, if it is. */
  function TakenLabel(s: State, k: nat): Option<(int, int)>
    requires k < |s.cuts| && k < |s.responses| && s.cuts[k] <= |s.events|
  {
    match TakenFrom(s, k)
    case None => None
    case Some(i) => LabelOf(s, i)
  }

  // ----- what every run keeps -----

  function TakenCount(s: State): nat { |s.toClient| + s.response.Consulted() }

  /** Each direction has written on what it read, in order, but for the frame in hand. */
  ghost predicate InOrder(s: State)
  {
    && s.requests == s.toServer + s.request.InHand()
    && s.responses == s.toClient + s.response.InHand()
    && |s.answers| == |s.responses|
  }

  ghost predicate CutsFit(s: State)
  {
    |s.cuts| == TakenCount(s) && |s.cuts| <= |s.responses| && forall k :: 0 <= k < |s.cuts| ==> s.cuts[k] <= |s.events|
  }

  /** The i-th request carries the id. */
  predicate Carries(s: State, i: nat, id: int)
  {
    i < |s.requests| && ParseRequestPrefix(s.requests[i]).Some?
    && ParseRequestPrefix(s.requests[i]).value.correlationId == id
  }

  ghost predicate MarksCarry(s: State)
  {
    forall m :: 0 <= m < |s.events| && s.events[m].Mark? ==> Carries(s, s.events[m].i, s.events[m].id)
  }

  /** The pending map is what its history says. */
  ghost predicate PendingIsHolder(s: State)
  {
    forall id: int ::
      if Holder(s.events, id).Some? then id in s.pending && LabelOf(s, Holder(s.events, id).value) == Some(s.pending[id])
      else id !in s.pending
  }

  /** What a pump is about to tell. */
  ghost predicate FoundRight(s: State)
  {
    && (s.request.Marked? ==> s.request.found.Some? && s.request.found == LabelOf(s, |s.toServer|))
    && (s.response.Marked? ==> CutsFit(s) && s.response.found == TakenLabel(s, |s.toClient|))
  }

  /** The captured frame at `j` is the frame it stands for: a request under its own label, a
      response under that of the request whose entry it took. */
  ghost predicate CaptureRight(s: State, j: nat)
    requires j < |s.recorded| && |s.origins| == |s.recorded|
  {
    match s.origins[j]
    case Request(i) =>
      && i < |s.requests| && LabelOf(s, i).Some?
      && s.recorded[j] == CapturedFrame(LabelOf(s, i).value.0, LabelOf(s, i).value.1, true, s.requests[i])
    case Response(k) =>
      && k < |s.responses| && k < |s.cuts| && s.cuts[k] <= |s.events| && TakenLabel(s, k).Some?
      && s.recorded[j] == CapturedFrame(TakenLabel(s, k).value.0, TakenLabel(s, k).value.1, false, s.responses[k])
  }

  ghost predicate Captured(s: State)
  {
    |s.origins| == |s.recorded| && forall j :: 0 <= j < |s.recorded| ==> CaptureRight(s, j)
  }

  function ToldRequests(s: State): nat { |s.toServer| + s.request.Recorded() }

  function ToldResponses(s: State): nat { |s.toClient| + s.response.Recorded() }

  ghost predicate ResponseTold(s: State, k: nat)
  {
    k < ToldResponses(s) && k < |s.responses| && k < |s.cuts| && s.cuts[k] <= |s.events| && TakenLabel(s, k).Some?
  }

  /** Every frame that has passed the recorder was captured, once, if it had a label. */
  ghost predicate Complete(s: State)
  {
    && Distinct(s.origins)
    && (forall i: nat :: Request(i) in s.origins <==> i < ToldRequests(s) && LabelOf(s, i).Some?)
    && (forall k: nat :: Response(k) in s.origins <==> ResponseTold(s, k))
  }

  ghost predicate Inv(s: State)
  {
    InOrder(s) && CutsFit(s) && MarksCarry(s) && PendingIsHolder(s) && FoundRight(s) && Captured(s) && Complete(s)
  }

  /** What was read, marked, looked up or recorded stays. */
  ghost predicate Extends(s: State, s': State)
  {
    && s.requests <= s'.requests && s.responses <= s'.responses && s.answers <= s'.answers
    && s.events <= s'.events && s.cuts <= s'.cuts && s.recorded <= s'.recorded && s.origins <= s'.origins
    && s.toServer <= s'.toServer && s.toClient <= s'.toClient
  }

  lemma StepExtends(s: State, a: Action)
    requires Enabled(s, a)
    ensures Extends(s, Do(s, a))
  {
  }

  lemma KeepsOrder(s: State, a: Action)
    requires InOrder(s) && Enabled(s, a)
    ensures InOrder(Do(s, a))
  {
  }

  lemma KeepsCuts(s: State, a: Action)
    requires InOrder(s) && CutsFit(s) && Enabled(s, a)
    ensures CutsFit(Do(s, a))
  {
  }

  lemma LabelStays(s: State, s': State, i: nat)
    requires Extends(s, s') && i < |s.requests|
    ensures LabelOf(s', i) == LabelOf(s, i)
  {
    assert s'.requests[i] == s.requests[i];
  }

  lemma TakenStays(s: State, s': State, k: nat)
    requires Extends(s, s') && CutsFit(s) && MarksCarry(s) && k < |s.cuts|
    ensures k < |s'.cuts| && k < |s'.responses| && s'.cuts[k] == s.cuts[k] <= |s'.events|
    ensures TakenFrom(s', k) == TakenFrom(s, k) && TakenLabel(s', k) == TakenLabel(s, k)
  {
    assert s'.cuts[k] == s.cuts[k] && s'.responses[k] == s.responses[k];
    assert s'.events[..s.cuts[k]] == s.events[..s.cuts[k]];
    if TakenFrom(s, k).Some? {
      HolderIsRead(s, s.cuts[k], ReadCorrelationId(s.responses[k]).value);
      LabelStays(s, s', TakenFrom(s, k).value);
    }
  }

  /** Whoever holds an id is a request that was read with it. */
  lemma HolderIsRead(s: State, n: nat, id: int)
    requires MarksCarry(s) && n <= |s.events| && Holder(s.events[..n], id).Some?
    ensures Carries(s, Holder(s.events[..n], id).value, id)
  {
    var i := Holder(s.events[..n], id).value;
    HolderIff(s.events[..n], id, i);
    var m :| 0 <= m < n && s.events[..n][m] == Mark(i, id);
    assert s.events[m] == Mark(i, id);
  }

  lemma KeepsMarks(s: State, a: Action)
    requires InOrder(s) && MarksCarry(s) && Enabled(s, a)
    ensures MarksCarry(Do(s, a))
  {
    var s' := Do(s, a);
    StepExtends(s, a);
    forall m | 0 <= m < |s'.events| && s'.events[m].Mark? ensures Carries(s', s'.events[m].i, s'.events[m].id) {
      if m < |s.events| {
        assert s'.events[m] == s.events[m] && Carries(s, s.events[m].i, s.events[m].id);
        assert s'.requests[s.events[m].i] == s.requests[s.events[m].i];
      } else {
        assert s.requests[|s.toServer|] == s.request.body;
      }
    }
  }

  lemma MarkKeepsPending(s: State, a: Action)
    requires InOrder(s) && PendingIsHolder(s) && Enabled(s, a) && (a.MarkRequest? || a.MarkResponse?)
    ensures PendingIsHolder(Do(s, a))
  {
    var s' := Do(s, a);
    if a.MarkRequest? { assert s.requests[|s.toServer|] == s.request.body; }
    if s'.events != s.events {
      var e := s'.events[|s.events|];
      forall id: int
        ensures if Holder(s'.events, id).Some?
                then id in s'.pending && LabelOf(s', Holder(s'.events, id).value) == Some(s'.pending[id])
                else id !in s'.pending
      {
        HolderNext(s.events, e, id);
      }
    }
  }

  lemma KeepsPending(s: State, a: Action)
    requires InOrder(s) && MarksCarry(s) && PendingIsHolder(s) && Enabled(s, a)
    ensures PendingIsHolder(Do(s, a))
  {
    var s' := Do(s, a);
    if a.MarkRequest? || a.MarkResponse? {
      MarkKeepsPending(s, a);
    } else {
      StepExtends(s, a);
      forall id: int | Holder(s.events, id).Some?
        ensures LabelOf(s', Holder(s.events, id).value) == LabelOf(s, Holder(s.events, id).value)
      {
        LabelStays(s, s', Holder(s.events, id).value);
      }
    }
  }

  lemma KeepsFound(s: State, a: Action)
    requires InOrder(s) && CutsFit(s) && MarksCarry(s) && PendingIsHolder(s) && FoundRight(s) && Enabled(s, a)
    ensures FoundRight(Do(s, a))
  {
    var s' := Do(s, a);
    StepExtends(s, a);
    KeepsCuts(s, a);
    if s'.request.Marked? {
      assert s.requests[|s.toServer|] == s.request.body;
      LabelStays(s, s', |s.toServer|);
    }
    if a.MarkResponse? {
      assert s.responses[|s.toClient|] == s.response.body;
      assert s'.events[..|s.events|] == s.events;
    } else if s'.response.Marked? {
      TakenStays(s, s', |s.toClient|);
    }
  }

  lemma CaptureStays(s: State, s': State, j: nat)
    requires Extends(s, s') && CutsFit(s) && MarksCarry(s) && Captured(s) && j < |s.recorded|
    requires |s'.origins| == |s'.recorded|
    ensures j < |s'.recorded| && CaptureRight(s', j)
  {
    assert CaptureRight(s, j);
    assert s'.origins[j] == s.origins[j] && s'.recorded[j] == s.recorded[j];
    match s.origins[j]
    case Request(i) =>
      LabelStays(s, s', i);
      assert s'.requests[i] == s.requests[i];
    case Response(k) =>
      TakenStays(s, s', k);
      assert s'.responses[k] == s.responses[k];
  }

  /** A step of a pump that tells the recorder nothing leaves it alone. */
  lemma TellsNothing(s: State, a: Action)
    requires Enabled(s, a)
    ensures !(a.TellRequest? || a.TellResponse?) ==> Do(s, a).recorded == s.recorded && Do(s, a).origins == s.origins
    ensures |s.origins| == |s.recorded| ==> |Do(s, a).origins| == |Do(s, a).recorded|
  {
  }

  lemma KeepsCaptured(s: State, a: Action)
    requires InOrder(s) && CutsFit(s) && MarksCarry(s) && FoundRight(s) && Captured(s) && Enabled(s, a)
    ensures Captured(Do(s, a))
  {
    var s' := Do(s, a);
    StepExtends(s, a);
    TellsNothing(s, a);
    forall j | 0 <= j < |s'.recorded| ensures CaptureRight(s', j) {
      if j < |s.recorded| { CaptureStays(s, s', j); }
      else if a.TellResponse? { assert s.responses[|s.toClient|] == s.response.body; }
      else { assert s.requests[|s.toServer|] == s.request.body; }
    }
  }

  lemma RequestsComplete(s: State, a: Action, i: nat)
    requires InOrder(s) && FoundRight(s) && Complete(s) && Enabled(s, a)
    ensures Request(i) in Do(s, a).origins <==> i < ToldRequests(Do(s, a)) && LabelOf(Do(s, a), i).Some?
  {
    var s' := Do(s, a);
    StepExtends(s, a);
    if i < |s.requests| { LabelStays(s, s', i); }
    TellsNothing(s, a);
    if a.MarkRequest? || a.TellRequest? { assert s.requests[|s.toServer|] == s.request.body; }
  }

  lemma ResponsesComplete(s: State, a: Action, k: nat)
    requires InOrder(s) && CutsFit(s) && MarksCarry(s) && FoundRight(s) && Complete(s) && Enabled(s, a)
    ensures Response(k) in Do(s, a).origins <==> ResponseTold(Do(s, a), k)
  {
    var s' := Do(s, a);
    StepExtends(s, a);
    KeepsCuts(s, a);
    TellsNothing(s, a);
    if k < |s.cuts| { TakenStays(s, s', k); }
    if a.MarkResponse? { assert s.responses[|s.toClient|] == s.response.body; }
  }

  lemma KeepsComplete(s: State, a: Action)
    requires InOrder(s) && CutsFit(s) && MarksCarry(s) && FoundRight(s) && Complete(s) && Enabled(s, a)
    ensures Complete(Do(s, a))
  {
    var s' := Do(s, a);
    forall i: nat ensures Request(i) in s'.origins <==> i < ToldRequests(s') && LabelOf(s', i).Some? {
      RequestsComplete(s, a, i);
    }
    forall k: nat ensures Response(k) in s'.origins <==> ResponseTold(s', k) { ResponsesComplete(s, a, k); }
    OriginsStayDistinct(s, a);
  }

  lemma OriginsStayDistinct(s: State, a: Action)
    requires Complete(s) && Enabled(s, a)
    ensures Distinct(Do(s, a).origins)
  {
    TellsNothing(s, a);
  }

  lemma StepKeeps(s: State, a: Action)
    requires Inv(s) && Enabled(s, a)
    ensures Inv(Do(s, a))
  {
    KeepsOrder(s, a);
    KeepsCuts(s, a);
    KeepsMarks(s, a);
    KeepsPending(s, a);
    KeepsFound(s, a);
    KeepsCaptured(s, a);
    KeepsComplete(s, a);
  }

  lemma {:induction false} RunKeeps(s: State, actions: seq<Action>, strict: bool)
    requires Inv(s) && Run(s, actions, strict)
    ensures Inv(After(s, actions, strict))
    decreases |actions|
  {
    if actions != [] {
      StepKeeps(s, actions[0]);
      RunKeeps(Do(s, actions[0]), actions[1..], strict);
    }
  }

  lemma ReachableInv(s: State, strict: bool)
    requires Reachable(s, strict)
    ensures Inv(s)
  {
    var actions :| Run(START, actions, strict) && After(START, actions, strict) == s;
    RunKeeps(START, actions, strict);
  }

  // ----- what every run shows -----

  /** Each direction writes on exactly the frames it read, in order, whatever the client
      and the upstream send. */
  lemma RelaysInOrder(s: State, strict: bool)
    requires Reachable(s, strict)
    ensures s.toServer <= s.requests && |s.requests| <= |s.toServer| + 1
    ensures s.toClient <= s.responses && |s.responses| <= |s.toClient| + 1
    ensures s.request.Idle? ==> s.toServer == s.requests
    ensures s.response.Idle? ==> s.toClient == s.responses
  {
    ReachableInv(s, strict);
  }

  /** Nothing is captured that was not read; every captured request has its own label, and
      every captured response that of the request whose entry it took. */
  lemma CapturesAreFrames(s: State, strict: bool, j: nat)
    requires Reachable(s, strict) && j < |s.recorded|
    ensures |s.origins| == |s.recorded| && CaptureRight(s, j)
  {
    ReachableInv(s, strict);
  }

  /** Every request written on whose header could be read was captured, at one place. */
  lemma RequestsAreCaptured(s: State, strict: bool, i: nat, p: RequestPrefix) returns (at: nat)
    requires Reachable(s, strict) && i < |s.toServer| && ParseRequestPrefix(s.toServer[i]) == Some(p)
    ensures |s.origins| == |s.recorded| && at < |s.recorded|
    ensures s.recorded[at] == CapturedFrame(p.apiKey, p.apiVersion, true, s.toServer[i])
    ensures forall j :: 0 <= j < |s.origins| ==> (s.origins[j] == Request(i) <==> j == at)
  {
    ReachableInv(s, strict);
    assert s.requests[i] == s.toServer[i] && Request(i) in s.origins;
    at :| 0 <= at < |s.origins| && s.origins[at] == Request(i);
    assert CaptureRight(s, at);
  }

  /** The i-th request was marked under the id of the k-th response, and nothing else was
      marked or taken under it before that response was looked up. */
  ghost predicate LastMarked(s: State, k: nat, i: nat)
  {
    && k < |s.cuts| && k < |s.responses| && s.cuts[k] <= |s.events|
    && var id := ReadCorrelationId(s.responses[k]);
       && id.Some?
       && exists m :: 0 <= m < s.cuts[k] && s.events[m] == Mark(i, id.value)
                      && forall j :: m < j < s.cuts[k] ==> s.events[j].id != id.value
  }

  lemma TakenFromIff(s: State, k: nat, i: nat)
    requires k < |s.cuts| && k < |s.responses| && s.cuts[k] <= |s.events|
    ensures TakenFrom(s, k) == Some(i) <==> LastMarked(s, k, i)
  {
    var id := ReadCorrelationId(s.responses[k]);
    if id.Some? {
      var seen := s.events[..s.cuts[k]];
      HolderIff(seen, id.value, i);
      assert forall m :: 0 <= m < |seen| ==> seen[m] == s.events[m];
    }
  }

  /** A response is captured exactly when some request was the last to be marked under its
      id. It is then captured once, under that request's label, whosever answer it is. */
  lemma ResponsesAreCapturedIff(s: State, strict: bool, k: nat)
    requires Reachable(s, strict) && k < |s.toClient|
    ensures Response(k) in s.origins <==> exists i :: LastMarked(s, k, i)
  {
    ReachableInv(s, strict);
    if TakenFrom(s, k).Some? {
      TakenFromIff(s, k, TakenFrom(s, k).value);
      HolderIsRead(s, s.cuts[k], ReadCorrelationId(s.responses[k]).value);
    }
    if i :| LastMarked(s, k, i) { TakenFromIff(s, k, i); }
  }

  /** A response is captured under the label of the i-th request exactly when the last
      request to be marked under its id has that label. */
  lemma CapturedUnderIff(s: State, strict: bool, k: nat, l: (int, int))
    requires Reachable(s, strict) && k < |s.toClient|
    ensures (exists j :: 0 <= j < |s.origins| && j < |s.recorded| && s.origins[j] == Response(k)
                         && s.recorded[j] == CapturedFrame(l.0, l.1, false, s.toClient[k]))
            <==> exists i :: LastMarked(s, k, i) && LabelOf(s, i) == Some(l)
  {
    ReachableInv(s, strict);
    if j :| 0 <= j < |s.origins| && j < |s.recorded| && s.origins[j] == Response(k)
            && s.recorded[j] == CapturedFrame(l.0, l.1, false, s.toClient[k]) {
      assert CaptureRight(s, j);
      TakenFromIff(s, k, TakenFrom(s, k).value);
      assert LabelOf(s, TakenFrom(s, k).value) == Some(l);
    }
    if i :| LastMarked(s, k, i) && LabelOf(s, i) == Some(l) {
      TakenFromIff(s, k, i);
      assert Response(k) in s.origins;
      var j :| 0 <= j < |s.origins| && s.origins[j] == Response(k);
      assert CaptureRight(s, j);
    }
  }

  // ----- what strict runs keep -----

  ghost predicate Answered(s: State)
  {
    && Distinct(s.answers)
    && forall k :: 0 <= k < |s.answers| && k < |s.responses| ==>
         && s.answers[k].Some? && s.answers[k].value < |s.toServer| && s.answers[k].value < |s.requests|
         && var p := ParseRequestPrefix(s.requests[s.answers[k].value]);
            p.Some? && ReadCorrelationId(s.responses[k]) == Some(p.value.correlationId)
  }

  /** A request whose id came up again had been delivered first. */
  ghost predicate IdsSeparate(s: State)
  {
    forall i, j :: 0 <= i < j < |s.requests| ==>
      var p, q := ParseRequestPrefix(s.requests[i]), ParseRequestPrefix(s.requests[j]);
      p.Some? && q.Some? && p.value.correlationId == q.value.correlationId ==> Delivered(s, i)
  }

  /** How many requests the pending map has been consulted for. */
  function MarkedCount(s: State): nat { |s.toServer| + s.request.Consulted() }

  ghost predicate Taken(s: State, i: nat)
  {
    exists k :: 0 <= k < TakenCount(s) && k < |s.answers| && s.answers[k] == Some(i)
  }

  /** A marked request holds its id until it is taken. */
  ghost predicate HoldsUntilTaken(s: State)
  {
    forall i :: 0 <= i < MarkedCount(s) && i < |s.requests| && !Taken(s, i) && ParseRequestPrefix(s.requests[i]).Some? ==>
      Holder(s.events, ParseRequestPrefix(s.requests[i]).value.correlationId) == Some(i)
  }

  /** Each response took the entry of the request it answers. */
  ghost predicate TakesItsOwn(s: State)
  {
    forall k :: 0 <= k < |s.cuts| && k < |s.responses| && k < |s.answers| && s.cuts[k] <= |s.events| ==>
      TakenFrom(s, k) == s.answers[k]
  }

  /** A captured response stands after its request. */
  ghost predicate RequestsFirst(s: State)
  {
    forall j :: 0 <= j < |s.origins| && s.origins[j].Response? ==>
      && s.origins[j].k < |s.answers| && s.answers[s.origins[j].k].Some?
      && Request(s.answers[s.origins[j].k].value) in s.origins[..j]
  }

  ghost predicate StrictInv(s: State)
  {
    Inv(s) && Answered(s) && IdsSeparate(s) && HoldsUntilTaken(s) && TakesItsOwn(s) && RequestsFirst(s)
  }

  lemma KeepsAnswered(s: State, a: Action)
    requires InOrder(s) && Answered(s) && Enabled(s, a) && Disciplined(s, a)
    ensures Answered(Do(s, a))
  {
  }

  lemma DeliveredStays(s: State, s': State, i: nat)
    requires Extends(s, s') && Delivered(s, i)
    ensures Delivered(s', i)
  {
    var k :| 0 <= k < |s.toClient| && k < |s.answers| && s.answers[k] == Some(i);
    assert s'.answers[k] == Some(i);
  }

  lemma KeepsIdsSeparate(s: State, a: Action)
    requires InOrder(s) && IdsSeparate(s) && Enabled(s, a) && Disciplined(s, a)
    ensures IdsSeparate(Do(s, a))
  {
    var s' := Do(s, a);
    StepExtends(s, a);
    forall i, j | 0 <= i < j < |s'.requests|
      && ParseRequestPrefix(s'.requests[i]).Some? && ParseRequestPrefix(s'.requests[j]).Some?
      && ParseRequestPrefix(s'.requests[i]).value.correlationId == ParseRequestPrefix(s'.requests[j]).value.correlationId
      ensures Delivered(s', i)
    {
      assert s'.requests[i] == s.requests[i];
      if j == |s.requests| { assert s'.requests[j] == a.body; }
      assert Delivered(s, i);
      DeliveredStays(s, s', i);
    }
  }

  lemma TakenRequestStays(s: State, a: Action, i: nat)
    requires Enabled(s, a) && Taken(s, i)
    ensures Taken(Do(s, a), i)
  {
    var k :| 0 <= k < TakenCount(s) && k < |s.answers| && s.answers[k] == Some(i);
    assert Do(s, a).answers[k] == Some(i);
  }

  lemma DeliveredIsTaken(s: State, i: nat)
    requires Delivered(s, i)
    ensures Taken(s, i)
  {
    var k :| 0 <= k < |s.toClient| && k < |s.answers| && s.answers[k] == Some(i);
    assert 0 <= k < TakenCount(s);
  }

  /** The id of the i-th request, for one that has a header. */
  function IdOf(s: State, i: nat): int
    requires i < |s.requests| && ParseRequestPrefix(s.requests[i]).Some?
  {
    ParseRequestPrefix(s.requests[i]).value.correlationId
  }

  /** Marking a request overwrites no entry that is still needed. */
  lemma MarkRequestHolds(s: State)
    requires InOrder(s) && IdsSeparate(s) && HoldsUntilTaken(s) && s.request.Got?
    ensures HoldsUntilTaken(Do(s, MarkRequest))
  {
    var s', m := Do(s, MarkRequest), |s.toServer|;
    assert s.requests[m] == s.request.body;
    forall i | 0 <= i < MarkedCount(s') && i < |s'.requests| && !Taken(s', i) && ParseRequestPrefix(s'.requests[i]).Some?
      ensures Holder(s'.events, IdOf(s', i)) == Some(i)
    {
      if ParseRequestPrefix(s.requests[m]).Some? { HolderNext(s.events, Mark(m, IdOf(s, m)), IdOf(s, i)); }
      if i < m {
        if Taken(s, i) { TakenRequestStays(s, MarkRequest, i); }
        if Delivered(s, i) { DeliveredIsTaken(s, i); }
      }
    }
  }

  /** Taking an answer's entry removes no entry that is still needed. */
  lemma MarkResponseHolds(s: State)
    requires InOrder(s) && Answered(s) && IdsSeparate(s) && HoldsUntilTaken(s) && s.response.Got?
    ensures HoldsUntilTaken(Do(s, MarkResponse))
  {
    var s', k := Do(s, MarkResponse), |s.toClient|;
    var own := s.answers[k].value;
    assert s.responses[k] == s.response.body;
    assert Taken(s', own) by { assert s'.answers[k] == Some(own); }
    forall i | 0 <= i < MarkedCount(s') && i < |s'.requests| && !Taken(s', i) && ParseRequestPrefix(s'.requests[i]).Some?
      ensures Holder(s'.events, IdOf(s', i)) == Some(i)
    {
      HolderNext(s.events, Take(k, IdOf(s, own)), IdOf(s, i));
      if Taken(s, i) { TakenRequestStays(s, MarkResponse, i); }
      if Delivered(s, i) { DeliveredIsTaken(s, i); }
      assert !Delivered(s, own);
    }
  }

  lemma KeepsHolding(s: State, a: Action)
    requires InOrder(s) && Answered(s) && IdsSeparate(s) && HoldsUntilTaken(s) && Enabled(s, a)
    ensures HoldsUntilTaken(Do(s, a))
  {
    if a.MarkRequest? {
      MarkRequestHolds(s);
    } else if a.MarkResponse? {
      MarkResponseHolds(s);
    } else {
      var s' := Do(s, a);
      StepExtends(s, a);
      assert s'.events == s.events && MarkedCount(s') == MarkedCount(s) && TakenCount(s') == TakenCount(s);
      forall i | 0 <= i < MarkedCount(s') && i < |s'.requests| && !Taken(s', i) && ParseRequestPrefix(s'.requests[i]).Some?
        ensures Holder(s'.events, IdOf(s', i)) == Some(i)
      {
        if Taken(s, i) { TakenRequestStays(s, a, i); }
        assert i < |s.requests| && s'.requests[i] == s.requests[i];
      }
    }
  }

  lemma KeepsTakingItsOwn(s: State, a: Action)
    requires InOrder(s) && CutsFit(s) && MarksCarry(s) && Answered(s) && HoldsUntilTaken(s) && TakesItsOwn(s) && Enabled(s, a)
    ensures TakesItsOwn(Do(s, a))
  {
    var s' := Do(s, a);
    StepExtends(s, a);
    forall k | 0 <= k < |s'.cuts| && k < |s'.responses| && k < |s'.answers| && s'.cuts[k] <= |s'.events|
      ensures TakenFrom(s', k) == s'.answers[k]
    {
      if k < |s.cuts| {
        TakenStays(s, s', k);
      } else {
        OwnIsHeld(s);
        assert s.responses[k] == s.response.body && s'.events[..|s.events|] == s.events;
      }
    }
  }

  /** The response about to be looked up finds its own request's entry. */
  lemma OwnIsHeld(s: State)
    requires InOrder(s) && Answered(s) && HoldsUntilTaken(s) && s.response.Got?
    ensures |s.toClient| < |s.answers| && s.responses[|s.toClient|] == s.response.body
    ensures ReadCorrelationId(s.response.body).Some?
    ensures Holder(s.events, ReadCorrelationId(s.response.body).value) == s.answers[|s.toClient|]
  {
    var k := |s.toClient|;
    assert s.responses[k] == s.response.body;
    var own := s.answers[k].value;
    assert !Taken(s, own);
  }

  /** The response about to be told finds its request already in the recorder. */
  lemma RequestWasTold(s: State)
    requires InOrder(s) && Answered(s) && Complete(s) && !s.response.Idle?
    ensures |s.toClient| < |s.answers| && s.answers[|s.toClient|].Some?
    ensures Request(s.answers[|s.toClient|].value) in s.origins
  {
    var i := s.answers[|s.toClient|].value;
    assert i < |s.toServer| && LabelOf(s, i).Some?;
  }

  lemma KeepsRequestsFirst(s: State, a: Action)
    requires InOrder(s) && Answered(s) && Complete(s) && RequestsFirst(s) && Enabled(s, a)
    ensures RequestsFirst(Do(s, a))
  {
    var s' := Do(s, a);
    StepExtends(s, a);
    TellsNothing(s, a);
    forall j | 0 <= j < |s'.origins| && s'.origins[j].Response?
      ensures && s'.origins[j].k < |s'.answers| && s'.answers[s'.origins[j].k].Some?
              && Request(s'.answers[s'.origins[j].k].value) in s'.origins[..j]
    {
      if j < |s.origins| {
        assert s'.origins[j] == s.origins[j] && s'.origins[..j] == s.origins[..j];
      } else {
        RequestWasTold(s);
        assert s'.origins[..j] == s.origins;
      }
    }
  }

  lemma StrictStepKeeps(s: State, a: Action)
    requires StrictInv(s) && Enabled(s, a) && Disciplined(s, a)
    ensures StrictInv(Do(s, a))
  {
    StepKeeps(s, a);
    KeepsAnswered(s, a);
    KeepsIdsSeparate(s, a);
    KeepsHolding(s, a);
    KeepsTakingItsOwn(s, a);
    KeepsRequestsFirst(s, a);
  }

  lemma {:induction false} StrictRunKeeps(s: State, actions: seq<Action>)
    requires StrictInv(s) && Run(s, actions, true)
    ensures StrictInv(After(s, actions, true))
    decreases |actions|
  {
    if actions != [] {
      StrictStepKeeps(s, actions[0]);
      StrictRunKeeps(Do(s, actions[0]), actions[1..]);
    }
  }

  lemma StrictReachableInv(s: State)
    requires Reachable(s, true)
    ensures StrictInv(s)
  {
    var actions :| Run(START, actions, true) && After(START, actions, true) == s;
    StrictRunKeeps(START, actions);
  }

  // ----- what strict runs show -----

  /** The request that the k-th response answers. */
  ghost function OwnRequest(s: State, k: nat): Body
    requires k < |s.answers| && s.answers[k].Some? && s.answers[k].value < |s.requests|
  {
    s.requests[s.answers[k].value]
  }

  /** Every response written on was captured, at one place in the recorder, under the
      key and version of its own request, and after that request. */
  lemma ResponsesFollowTheirRequests(s: State, k: nat) returns (p: RequestPrefix, at: nat, after: nat)
    requires Reachable(s, true) && k < |s.toClient|
    ensures k < |s.answers| && k < |s.responses| && s.answers[k].Some? && s.answers[k].value < |s.requests|
    ensures ParseRequestPrefix(OwnRequest(s, k)) == Some(p)
    ensures at < after < |s.recorded|
    ensures s.recorded[at] == CapturedFrame(p.apiKey, p.apiVersion, true, OwnRequest(s, k))
    ensures s.recorded[after] == CapturedFrame(p.apiKey, p.apiVersion, false, s.toClient[k])
    ensures |s.origins| == |s.recorded| && s.origins[at] == Request(s.answers[k].value)
    ensures forall j :: 0 <= j < |s.origins| ==> (s.origins[j] == Response(k) <==> j == after)
  {
    StrictReachableInv(s);
    p := ParseRequestPrefix(OwnRequest(s, k)).value;
    assert TakenFrom(s, k) == s.answers[k] && TakenLabel(s, k) == Some(Label(p));
    after := CapturedOnce(s, k);
    at :| 0 <= at < after && s.origins[at] == Request(s.answers[k].value);
    assert CaptureRight(s, at);
  }

  lemma CapturedOnce(s: State, k: nat) returns (after: nat)
    requires InOrder(s) && CutsFit(s) && Captured(s) && Complete(s) && k < |s.toClient| && TakenLabel(s, k).Some?
    ensures after < |s.recorded| && s.responses[k] == s.toClient[k]
    ensures forall j :: 0 <= j < |s.origins| ==> (s.origins[j] == Response(k) <==> j == after)
    ensures s.recorded[after]
         == CapturedFrame(TakenLabel(s, k).value.0, TakenLabel(s, k).value.1, false, s.responses[k])
  {
    assert Response(k) in s.origins;
    after :| 0 <= after < |s.origins| && s.origins[after] == Response(k);
    assert CaptureRight(s, after);
  }

  // ----- a client that reuses an id -----

  const FIRST: Body := [0, 1, 0, 0, 0, 0, 0, 7]
  const SECOND: Body := [0, 2, 0, 0, 0, 0, 0, 7]
  const REPLY: Body := [0, 0, 0, 7]

  lemma HeadersOfExample()
    ensures ParseRequestPrefix(FIRST) == Some(RequestPrefix(1, 0, 7))
    ensures ParseRequestPrefix(SECOND) == Some(RequestPrefix(2, 0, 7))
    ensures ReadCorrelationId(REPLY) == Some(7)
  {
    ShortValues(0, 1);
    ShortValues(0, 2);
    ShortValues(0, 0);
    assert FIRST[..2] == [0, 1] && FIRST[2..4] == [0, 0] && FIRST[4..8] == [0, 0, 0, 7];
    assert SECOND[..2] == [0, 2] && SECOND[2..4] == [0, 0] && SECOND[4..8] == [0, 0, 0, 7];
    assert REPLY[..4] == [0, 0, 0, 7];
    WordValue();
  }

  lemma ShortValues(a: byte, b: byte)
    requires a == 0
    ensures Signed([a, b]) == b
  {
    assert [a, b][..1] == [a] && [a][..0] == [];
    assert FromBe([]) == 0 && FromBe([a]) == 0 && FromBe([a, b]) == b;
    assert Pow256(1) == 256 && Pow256(2) == 65536;
  }

  lemma WordValue()
    ensures Signed([0, 0, 0, 7]) == 7
  {
    var w := [0, 0, 0, 7];
    assert w[..3] == [0, 0, 0] && [0, 0, 0][..2] == [0, 0] && [0, 0][..1] == [0] && [0][..0] == [];
    assert FromBe([0]) == 0 && FromBe([0, 0]) == 0 && FromBe([0, 0, 0]) == 0 && FromBe(w) == 7;
    Widths();
  }

  lemma RunNext(s: State, a: Action, rest: seq<Action>)
    requires Enabled(s, a) && Run(Do(s, a), rest, false)
    ensures Run(s, [a] + rest, false) && After(s, [a] + rest, false) == After(Do(s, a), rest, false)
  {
    assert ([a] + rest)[1..] == rest;
  }

  /** Both requests are in; the reply to the first has not come. */
  const MIDDLE: State := State(
    [FIRST, SECOND], [FIRST], Marked(SECOND, Some((2, 0))), [], [], Idle, [], map[7 := (2, 0)],
    [Mark(0, 7), Mark(1, 7)], [], [CapturedFrame(1, 0, true, FIRST)], [Request(0)])

  lemma RunToMiddle(rest: seq<Action>) returns (actions: seq<Action>)
    requires Run(MIDDLE, rest, false)
    ensures Run(START, actions, false) && After(START, actions, false) == After(MIDDLE, rest, false)
  {
    HeadersOfExample();
    var s1 := Do(START, ReadRequest(FIRST));
    var s2 := Do(s1, MarkRequest);
    var s3 := Do(s2, TellRequest);
    var s4 := Do(s3, ForwardRequest);
    var s5 := Do(s4, ReadRequest(SECOND));
    assert Do(s5, MarkRequest) == MIDDLE;
    RunNext(s5, MarkRequest, rest);
    actions := [MarkRequest] + rest;
    RunNext(s4, ReadRequest(SECOND), actions);
    actions := [ReadRequest(SECOND)] + actions;
    RunNext(s3, ForwardRequest, actions);
    actions := [ForwardRequest] + actions;
    RunNext(s2, TellRequest, actions);
    actions := [TellRequest] + actions;
    RunNext(s1, MarkRequest, actions);
    actions := [MarkRequest] + actions;
    RunNext(START, ReadRequest(FIRST), actions);
    actions := [ReadRequest(FIRST)] + actions;
  }

  /** Without the client's discipline the recorder can label a response with another
      request: the second request takes the first one's entry over before the reply
      is looked up. */
  lemma ReuseMislabels() returns (actions: seq<Action>)
    ensures Run(START, actions, false)
    ensures var s := After(START, actions, false);
            && s.answers == [Some(0)] && s.requests == [FIRST, SECOND]
            && ParseRequestPrefix(FIRST) == Some(RequestPrefix(1, 0, 7))
            && |s.recorded| == 2 && s.recorded[1] == CapturedFrame(2, 0, false, REPLY)
  {
    HeadersOfExample();
    var s7 := Do(MIDDLE, ReadResponse(REPLY, Some(0)));
    var s8 := Do(s7, MarkResponse);
    RunNext(s8, TellResponse, []);
    RunNext(s7, MarkResponse, [TellResponse] + []);
    RunNext(MIDDLE, ReadResponse(REPLY, Some(0)), [MarkResponse] + ([TellResponse] + []));
    actions := RunToMiddle([ReadResponse(REPLY, Some(0))] + ([MarkResponse] + ([TellResponse] + [])));
  }
}
