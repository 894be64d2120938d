/** `crates/metadata/src/kraft_translate.rs`: partition changes on the KIP-631
    log. An update is sent as a diff against the image, and the diff is decoded
    against the image it reaches. */
module KraftPartitions {
  import opened Base
  import opened Collections
  import opened MetadataRecords
  import opened Images
  import opened ImageInvariants
  import opened KraftConfigs

  const NO_LEADER_CHANGE: int := -2
  const NO_RECOVERY: int := -1

  datatype PartitionChange = PartitionChange(
    partitionId: int, topicId: Uuid, isr: Option<seq<int>>, leader: int, replicas: Option<seq<int>>,
    removingReplicas: Option<seq<int>>, addingReplicas: Option<seq<int>>, recovery: int,
    directories: Option<seq<Uuid>>, eligible: Option<seq<int>>, lastKnown: Option<seq<int>>)

  /** A change that changes nothing. */
  function Unchanged(partition: int, topicId: Uuid): PartitionChange
  {
    PartitionChange(partition, topicId, None, NO_LEADER_CHANGE, None, None, None, NO_RECOVERY, None, None, None)
  }

  // ----- node ids and leaders on the wire -----

  predicate Fits(nodes: seq<NodeId>) { forall i :: 0 <= i < |nodes| ==> nodes[i] <= I32_MAX }

  function NodesToWire(nodes: seq<NodeId>): Result<seq<int>, TranslateError>
  {
    if Fits(nodes) then Ok(nodes) else Err(InvalidValue)
  }

  function NodesFromWire(values: seq<int>): Result<seq<NodeId>, TranslateError>
  {
    if forall i :: 0 <= i < |values| ==> values[i] >= 0 then Ok(values) else Err(InvalidValue)
  }

  function OptionToWire(nodes: Option<seq<NodeId>>): Result<Option<seq<int>>, TranslateError>
  {
    match nodes
    case None => Ok(None)
    case Some(list) => var values :- NodesToWire(list); Ok(Some(values))
  }

  function OptionFromWire(values: Option<seq<int>>): Result<Option<seq<NodeId>>, TranslateError>
  {
    match values
    case None => Ok(None)
    case Some(list) => var nodes :- NodesFromWire(list); Ok(Some(nodes))
  }

  function LeaderToWire(leader: NodeId): Result<int, TranslateError>
  {
    var value: int := if leader == 0 then -1 else leader;
    if value <= I32_MAX then Ok(value) else Err(InvalidValue)
  }

  function LeaderFromWire(value: int): Result<NodeId, TranslateError>
  {
    if value == -1 then Ok(0) else if value >= 0 then Ok(value) else Err(InvalidValue)
  }

  function RecoveryToWire(state: Option<LeaderRecoveryState>): int
  {
    match state
    case None => NO_RECOVERY
    case Some(Recovered) => 0
    case Some(Recovering) => 1
  }

  function RecoveryFromWire(value: int): Result<Option<LeaderRecoveryState>, TranslateError>
  {
    if value == NO_RECOVERY then Ok(None)
    else if value == 0 then Ok(Some(Recovered))
    else if value == 1 then Ok(Some(Recovering))
    else Err(InvalidValue)
  }

  /** No leader is -1 on the wire and any other leader is itself; no recovery state is -1,
      recovered 0 and recovering 1, and nothing else is read. */
  lemma PartitionCodes(node: NodeId, value: int)
    ensures node == 0 ==> LeaderToWire(node) == Ok(-1)
    ensures 0 < node <= I32_MAX ==> LeaderToWire(node) == Ok(node)
    ensures node > I32_MAX ==> LeaderToWire(node).Err?
    ensures LeaderFromWire(value) == if value < -1 then Err(InvalidValue) else Ok(Max(value, 0))
    ensures RecoveryFromWire(value) == if -1 <= value <= 1 then Ok([None, Some(Recovered), Some(Recovering)][value + 1])
                                       else Err(InvalidValue)
    ensures -1 <= value <= 1 ==> RecoveryToWire(RecoveryFromWire(value).value) == value
  {
  }

  // ----- encoding -----

  function StateToKraft(s: TopicState, topic: Str, partition: int, recovery: int,
                        eligible: Option<seq<NodeId>>, lastKnown: Option<seq<NodeId>>)
    : Result<PartitionChange, TranslateError>
  {
    if topic !in s.topics then Err(UnknownTopicName)
    else
      var e :- OptionToWire(eligible);
      var l :- OptionToWire(lastKnown);
      Ok(Unchanged(partition, s.topics[topic].topicId).(recovery := recovery, eligible := e, lastKnown := l))
  }

  /** The lists and the leader that differ from the stored partition fit an i32. */
  predicate DiffFits(p: PartitionRecord, current: PartitionRecord)
  {
    && (p.replicas == current.replicas || Fits(p.replicas))
    && (p.isr == current.isr || Fits(p.isr))
    && (p.removingReplicas == current.removingReplicas || Fits(p.removingReplicas))
    && (p.addingReplicas == current.addingReplicas || Fits(p.addingReplicas))
    && (p.leader == current.leader || p.leader <= I32_MAX)
  }

  function Diff<T(==)>(value: T, current: T): Option<T>
  {
    if value == current then None else Some(value)
  }

  /** The diff itself, laid over the state part of the change. */
  function WithDiff(change: PartitionChange, p: PartitionRecord, current: PartitionRecord): PartitionChange
  {
    change.(
      replicas := Diff(p.replicas, current.replicas),
      isr := Diff(p.isr, current.isr),
      removingReplicas := Diff(p.removingReplicas, current.removingReplicas),
      addingReplicas := Diff(p.addingReplicas, current.addingReplicas),
      leader := if p.leader == current.leader then NO_LEADER_CHANGE else if p.leader == 0 then -1 else p.leader,
      directories := Diff(p.directories, current.directories))
  }

  function UpdateToKraft(u: PartitionUpdateRecord, s: TopicState): Result<PartitionChange, TranslateError>
  {
    var p := u.partition;
    if !InNest(s.partitions, p.topic, p.partition) then Err(InvalidReference)
    else
      var current := s.partitions[p.topic][p.partition];
      var change :- StateToKraft(s, p.topic, p.partition, RecoveryToWire(u.recovery), u.eligible, u.lastKnown);
      if DiffFits(p, current) then Ok(WithDiff(change, p, current)) else Err(InvalidValue)
  }

  /** `partition_update_to_kraft`, which edits the change field by field. */
  method PartitionUpdateToKraft(u: PartitionUpdateRecord, s: TopicState)
    returns (r: Result<PartitionChange, TranslateError>)
    ensures r == UpdateToKraft(u, s)
  {
    var p := u.partition;
    if !InNest(s.partitions, p.topic, p.partition) { return Err(InvalidReference); }
    var current := s.partitions[p.topic][p.partition];
    var change :- StateToKraft(s, p.topic, p.partition, RecoveryToWire(u.recovery), u.eligible, u.lastKnown);
    if p.replicas != current.replicas {
      var replicas :- NodesToWire(p.replicas);
      change := change.(replicas := Some(replicas));
    }
    if p.isr != current.isr {
      var isr :- NodesToWire(p.isr);
      change := change.(isr := Some(isr));
    }
    if p.removingReplicas != current.removingReplicas {
      var removing :- NodesToWire(p.removingReplicas);
      change := change.(removingReplicas := Some(removing));
    }
    if p.addingReplicas != current.addingReplicas {
      var adding :- NodesToWire(p.addingReplicas);
      change := change.(addingReplicas := Some(adding));
    }
    if p.leader != current.leader {
      var leader :- LeaderToWire(p.leader);
      change := change.(leader := leader);
    }
    if p.directories != current.directories {
      change := change.(directories := Some(p.directories));
    }
    return Ok(change);
  }

  /** `Vec::resize`. */
  function Resized(directories: seq<Uuid>, n: nat): (r: seq<Uuid>)
    ensures |r| == n
  {
    if n <= |directories| then directories[..n] else directories + seq(n - |directories|, _ => MIGRATING)
  }

  function DirAssignmentToKraft(s: TopicState, topic: Str, index: int, replica: NodeId, directory: Uuid)
    : Result<PartitionChange, TranslateError>
  {
    if topic !in s.topics then Err(UnknownTopicName)
    else if !InNest(s.partitions, topic, index) then Err(InvalidReference)
    else
      var p := s.partitions[topic][index];
      var slot := Position(p.replicas, replica);
      if slot == |p.replicas| then Err(InvalidReference)
      else
        Ok(Unchanged(index, s.topics[topic].topicId)
           .(directories := Some(Resized(p.directories, |p.replicas|)[slot := directory])))
  }

  // ----- decoding -----

  /** `topic_name_for_id`: the first topic met on a walk of the table. */
  function TopicNameForId(s: TopicState, walk: seq<Str>, id: Uuid): (r: Option<Str>)
    requires Elems(walk) <= s.topics.Keys
    ensures r.Some? ==> r.value in s.topics && s.topics[r.value].topicId == id
  {
    if walk == [] then None
    else
      assert walk[0] in Elems(walk);
      if s.topics[walk[0]].topicId == id then Some(walk[0])
      else assert Elems(walk[1..]) <= Elems(walk); TopicNameForId(s, walk[1..], id)
  }

  /** `current` with the replica lists of the change. */
  function WithLists(current: PartitionRecord, change: PartitionChange): Result<PartitionRecord, TranslateError>
  {
    var replicas :- OptionFromWire(change.replicas);
    var isr :- OptionFromWire(change.isr);
    var removing :- OptionFromWire(change.removingReplicas);
    var adding :- OptionFromWire(change.addingReplicas);
    Ok(current.(replicas := Or(replicas, current.replicas), isr := Or(isr, current.isr),
                removingReplicas := Or(removing, current.removingReplicas),
                addingReplicas := Or(adding, current.addingReplicas)))
  }

  function Or<T>(a: Option<T>, b: T): T { if a.Some? then a.value else b }

  /** A named leader is installed and steps the leader epoch. */
  function WithLeader(p: PartitionRecord, leader: int): Result<PartitionRecord, TranslateError>
  {
    if leader == NO_LEADER_CHANGE then Ok(p)
    else
      var node :- LeaderFromWire(leader);
      if p.leaderEpoch == I32_MAX then Err(InvalidReference)
      else Ok(p.(leader := node, leaderEpoch := p.leaderEpoch + 1))
  }

  /** Directories must be one per replica. */
  function WithDirectories(p: PartitionRecord, change: PartitionChange): Result<PartitionRecord, TranslateError>
  {
    match change.directories
    case None => Ok(p)
    case Some(directories) =>
      if |directories| == |p.replicas| then Ok(p.(directories := directories))
      else Err(if change.replicas.Some? then InvalidValue else InvalidReference)
  }

  function WithEpoch(p: PartitionRecord): Result<PartitionRecord, TranslateError>
  {
    if p.partitionEpoch == I32_MAX then Err(InvalidReference)
    else Ok(p.(partitionEpoch := p.partitionEpoch + 1))
  }

  function Edited(current: PartitionRecord, change: PartitionChange): Result<PartitionRecord, TranslateError>
  {
    var lists :- WithLists(current, change);
    var led :- WithLeader(lists, change.leader);
    var placed :- WithDirectories(led, change);
    WithEpoch(placed)
  }

  function Decoded(p: PartitionRecord, change: PartitionChange, recovery: Option<LeaderRecoveryState>)
    : Result<Record, TranslateError>
  {
    if recovery.None? && change.eligible.None? && change.lastKnown.None? then Ok(V1Partition(p))
    else
      var e :- OptionFromWire(change.eligible);
      var l :- OptionFromWire(change.lastKnown);
      Ok(V1PartitionUpdate(PartitionUpdateRecord(p, e, l, recovery)))
  }

  function ChangeFromKraft(change: PartitionChange, s: TopicState, walk: seq<Str>): Result<Record, TranslateError>
    requires Enumerates(walk, s.topics.Keys)
  {
    var topic := TopicNameForId(s, walk, change.topicId);
    if topic.None? then Err(UnknownTopicId)
    else
      var recovery :- RecoveryFromWire(change.recovery);
      if !InNest(s.partitions, topic.value, change.partitionId) then Err(InvalidReference)
      else
        var p :- Edited(s.partitions[topic.value][change.partitionId], change);
        Decoded(p, change, recovery)
  }

  // ----- which errors blame the bytes -----

  lemma ListsBlameTheBytes(a: PartitionRecord, b: PartitionRecord, change: PartitionChange)
    ensures WithLists(a, change).Ok? <==> WithLists(b, change).Ok?
    ensures WithLists(a, change).Err? ==> WithLists(a, change).error == InvalidValue
    ensures WithLists(a, change).Ok? && change.replicas.Some? ==>
              WithLists(a, change).value.replicas == WithLists(b, change).value.replicas
  {
  }

  lemma EditBlamesTheBytes(a: PartitionRecord, b: PartitionRecord, change: PartitionChange)
    requires Edited(a, change) == Err(InvalidValue)
    ensures Edited(b, change).Err?
  {
    ListsBlameTheBytes(a, b, change);
  }

  lemma DecodedBlamesTheBytes(a: PartitionRecord, b: PartitionRecord, change: PartitionChange,
                              recovery: Option<LeaderRecoveryState>)
    ensures Decoded(a, change, recovery).Err? ==> Decoded(b, change, recovery).Err?
  {
  }

  /** A value is called invalid only if no image whatever accepts the change: the bytes alone
      decide it. */
  lemma InvalidValueIsFinal(change: PartitionChange, s: TopicState, walk: seq<Str>, s': TopicState, walk': seq<Str>)
    requires Enumerates(walk, s.topics.Keys) && Enumerates(walk', s'.topics.Keys)
    requires ChangeFromKraft(change, s, walk) == Err(InvalidValue)
    ensures ChangeFromKraft(change, s', walk').Err?
  {
    var topic, topic' := TopicNameForId(s, walk, change.topicId), TopicNameForId(s', walk', change.topicId);
    var recovery := RecoveryFromWire(change.recovery);
    if recovery.Ok? && topic'.Some? && InNest(s'.partitions, topic'.value, change.partitionId) {
      var a, b := s.partitions[topic.value][change.partitionId], s'.partitions[topic'.value][change.partitionId];
      var p, q := Edited(a, change), Edited(b, change);
      if p.Err? { EditBlamesTheBytes(a, b, change); }
      else if q.Ok? { DecodedBlamesTheBytes(p.value, q.value, change, recovery.value); }
    }
  }

  /** The replica lists, one field at a time. */
  method EditLists(current: PartitionRecord, change: PartitionChange)
    returns (r: Result<PartitionRecord, TranslateError>)
    ensures r == WithLists(current, change)
  {
    var partition := current;
    if change.replicas.Some? {
      var replicas :- NodesFromWire(change.replicas.value);
      partition := partition.(replicas := replicas);
    }
    if change.isr.Some? {
      var isr :- NodesFromWire(change.isr.value);
      partition := partition.(isr := isr);
    }
    if change.removingReplicas.Some? {
      var removing :- NodesFromWire(change.removingReplicas.value);
      partition := partition.(removingReplicas := removing);
    }
    if change.addingReplicas.Some? {
      var adding :- NodesFromWire(change.addingReplicas.value);
      partition := partition.(addingReplicas := adding);
    }
    return Ok(partition);
  }

  /** `partition_change_from_kraft`, which edits a copy of the stored partition
      field by field. */
  method PartitionChangeFromKraft(change: PartitionChange, s: TopicState, walk: seq<Str>)
    returns (r: Result<Record, TranslateError>)
    requires Enumerates(walk, s.topics.Keys)
    ensures r == ChangeFromKraft(change, s, walk)
  {
    var topic := TopicNameForId(s, walk, change.topicId);
    if topic.None? { return Err(UnknownTopicId); }
    var recovery :- RecoveryFromWire(change.recovery);
    if !InNest(s.partitions, topic.value, change.partitionId) { return Err(InvalidReference); }
    var partition := s.partitions[topic.value][change.partitionId];
    partition :- EditLists(partition, change);
    if change.leader != NO_LEADER_CHANGE {
      var leader :- LeaderFromWire(change.leader);
      partition := partition.(leader := leader);
      if partition.leaderEpoch == I32_MAX { return Err(InvalidReference); }
      partition := partition.(leaderEpoch := partition.leaderEpoch + 1);
    }
    if change.directories.Some? {
      if |change.directories.value| != |partition.replicas| {
        return Err(if change.replicas.Some? then InvalidValue else InvalidReference);
      }
      partition := partition.(directories := change.directories.value);
    }
    if partition.partitionEpoch == I32_MAX { return Err(InvalidReference); }
    partition := partition.(partitionEpoch := partition.partitionEpoch + 1);
    if recovery.Some? || change.eligible.Some? || change.lastKnown.Some? {
      var eligible :- OptionFromWire(change.eligible);
      var lastKnown :- OptionFromWire(change.lastKnown);
      return Ok(V1PartitionUpdate(PartitionUpdateRecord(partition, eligible, lastKnown, recovery)));
    }
    return Ok(V1Partition(partition));
  }

  // ----- whose id it is -----

  /** A scan of the topics for the id of `topic` ends in it. */
  predicate FindsItself(s: TopicState, walk: seq<Str>, topic: Str)
    requires Enumerates(walk, s.topics.Keys)
  {
    topic in s.topics && TopicNameForId(s, walk, s.topics[topic].topicId) == Some(topic)
  }

  /** No other live topic has the id of `topic`. `validate` does not keep to this. */
  ghost predicate OwnsId(s: TopicState, topic: Str)
  {
    && topic in s.topics
    && (forall n :: n in s.topics && s.topics[n].topicId == s.topics[topic].topicId ==> n == topic)
  }

  lemma {:induction false} NameIsFound(s: TopicState, walk: seq<Str>, topic: Str)
    requires topic in walk && Elems(walk) <= s.topics.Keys && OwnsId(s, topic)
    ensures TopicNameForId(s, walk, s.topics[topic].topicId) == Some(topic)
    decreases |walk|
  {
    assert walk[0] in Elems(walk);
    if walk[0] != topic {
      assert Elems(walk[1..]) <= Elems(walk);
      NameIsFound(s, walk[1..], topic);
    }
  }

  lemma OwnIdIsFound(s: TopicState, walk: seq<Str>, topic: Str)
    requires OwnsId(s, topic) && Enumerates(walk, s.topics.Keys)
    ensures FindsItself(s, walk, topic)
  {
    assert topic in Elems(walk);
    NameIsFound(s, walk, topic);
  }

  /** Every order of the table leads the id back to the topic exactly when the topic is
      the only one that has it. */
  lemma EveryWalkFinds(s: TopicState, topic: Str)
    ensures (forall walk :: Enumerates(walk, s.topics.Keys) ==> FindsItself(s, walk, topic)) <==> OwnsId(s, topic)
  {
    if OwnsId(s, topic) {
      forall walk | Enumerates(walk, s.topics.Keys) ensures FindsItself(s, walk, topic) { OwnIdIsFound(s, walk, topic); }
    } else if topic in s.topics {
      var n :| n in s.topics && s.topics[n].topicId == s.topics[topic].topicId && n != topic;
      var walk := WalkFrom(s.topics.Keys, n);
      assert !FindsItself(s, walk, topic);
    } else {
      var walk := SomeWalk(s.topics.Keys);
      assert !FindsItself(s, walk, topic);
    }
  }

  lemma LiveTopicIsFound(s: TopicState, walk: seq<Str>, topic: Str)
    requires IdsExact(s) && topic in s.topics && Enumerates(walk, s.topics.Keys)
    ensures FindsItself(s, walk, topic)
  {
    OwnIdIsFound(s, walk, topic);
  }

  // ----- the commuting squares -----

  /** What a replica reaches from `s` when the change is encoded against `s`, decoded
      against `s` and applied. */
  function Sent(s: TopicState, change: Result<PartitionChange, TranslateError>, walk: seq<Str>)
    : Result<TopicState, TranslateError>
    requires Enumerates(walk, s.topics.Keys)
  {
    var c :- change;
    var rec :- ChangeFromKraft(c, s, walk);
    Ok(TopicStep(s, rec))
  }

  lemma EditSteps(current: PartitionRecord, change: PartitionChange)
    ensures var r := Edited(current, change);
            r.Ok? ==> && r.value.topic == current.topic && r.value.partition == current.partition
                      && r.value.partitionEpoch == current.partitionEpoch + 1
  {
  }

  lemma DecodedStores(s: TopicState, p: PartitionRecord, change: PartitionChange, recovery: Option<LeaderRecoveryState>)
    ensures var rec := Decoded(p, change, recovery);
            rec.Ok? ==> TopicStep(s, rec.value).partitions == NestPut(s.partitions, p.topic, p.partition, p)
  {
  }

  /** Where the id leads to another topic, the change lands there, and shows: the epoch of
      that topic's partition steps, which the direct form leaves alone. */
  lemma LandsElsewhere(s: TopicState, change: Result<PartitionChange, TranslateError>, walk: seq<Str>, topic: Str,
                       direct: TopicState)
    requires PartitionsKeyed(s) && Enumerates(walk, s.topics.Keys) && !FindsItself(s, walk, topic)
    requires change.Ok? ==> topic in s.topics && change.value.topicId == s.topics[topic].topicId
    requires direct.partitions - {topic} == s.partitions - {topic}
    ensures Sent(s, change, walk) != Ok(direct)
  {
    var sent := Sent(s, change, walk);
    if sent.Ok? {
      var c := change.value;
      var other := TopicNameForId(s, walk, c.topicId).value;
      var current := s.partitions[other][c.partitionId];
      var p := Edited(current, c).value;
      EditSteps(current, c);
      DecodedStores(s, p, c, RecoveryFromWire(c.recovery).value);
      assert sent.value.partitions[other][c.partitionId].partitionEpoch == current.partitionEpoch + 1;
      assert other in s.partitions - {topic} && (s.partitions - {topic})[other] == s.partitions[other];
    }
  }

  /** What a sender must keep to for the diff to mean the update. */
  predicate Steps(p: PartitionRecord, current: PartitionRecord)
  {
    && current.partitionEpoch != I32_MAX && p.partitionEpoch == current.partitionEpoch + 1
    && (if p.leader == current.leader then p.leaderEpoch == current.leaderEpoch
        else current.leaderEpoch != I32_MAX && p.leaderEpoch == current.leaderEpoch + 1)
    && (p.directories == current.directories || |p.directories| == |p.replicas|)
  }

  predicate ElrFits(u: PartitionUpdateRecord)
  {
    && (u.eligible.Some? ==> Fits(u.eligible.value))
    && (u.lastKnown.Some? ==> Fits(u.lastKnown.value))
  }

  /** Decoding the diff against the partition it was taken from yields the
      update's partition with the epochs stepped from the stored ones. */
  function Stepped(p: PartitionRecord, current: PartitionRecord): PartitionRecord
  {
    p.(leaderEpoch := current.leaderEpoch + (if p.leader == current.leader then 0 else 1),
       partitionEpoch := current.partitionEpoch + 1)
  }

  lemma DiffDecodes(change: PartitionChange, p: PartitionRecord, current: PartitionRecord)
    requires current.topic == p.topic && current.partition == p.partition && DiffFits(p, current)
    ensures WithLists(current, WithDiff(change, p, current))
         == Ok(p.(leader := current.leader, leaderEpoch := current.leaderEpoch,
                  directories := current.directories, partitionEpoch := current.partitionEpoch))
  {
  }

  /** The decoder can step the epochs and place the directories. */
  predicate CanStep(p: PartitionRecord, current: PartitionRecord)
  {
    && current.partitionEpoch != I32_MAX
    && (p.leader == current.leader || current.leaderEpoch != I32_MAX)
    && (p.directories == current.directories || |p.directories| == |p.replicas|)
  }

  /** The partition that reaches the log: none when an epoch is exhausted or a
      changed directory list does not have one entry per replica. */
  lemma PartitionDecodes(change: PartitionChange, p: PartitionRecord, current: PartitionRecord)
    requires current.topic == p.topic && current.partition == p.partition && DiffFits(p, current)
    ensures var r := Edited(current, WithDiff(change, p, current));
            if CanStep(p, current) then r == Ok(Stepped(p, current)) else r.Err?
  {
    DiffDecodes(change, p, current);
  }

  lemma ElrDecodes(u: PartitionUpdateRecord, p: PartitionRecord, change: PartitionChange, s: TopicState)
    requires ElrFits(u)
    requires OptionToWire(u.eligible) == Ok(change.eligible) && OptionToWire(u.lastKnown) == Ok(change.lastKnown)
    ensures var rec := Decoded(p, change, u.recovery);
            rec.Ok? && TopicStep(s, rec.value) == ApplyPartitionUpdate(s, u.(partition := p))
  {
  }

  lemma EncodesIff(u: PartitionUpdateRecord, s: TopicState)
    requires u.partition.topic in s.topics && InNest(s.partitions, u.partition.topic, u.partition.partition)
    ensures var p := u.partition;
            var current := s.partitions[p.topic][p.partition];
            var change := UpdateToKraft(u, s);
            if DiffFits(p, current) && ElrFits(u) then
              && change.Ok? && OptionToWire(u.eligible) == Ok(change.value.eligible)
              && OptionToWire(u.lastKnown) == Ok(change.value.lastKnown)
              && change.value == WithDiff(change.value, p, current)
              && change.value.topicId == s.topics[p.topic].topicId && change.value.partitionId == p.partition
              && change.value.recovery == RecoveryToWire(u.recovery)
            else change.Err?
  {
  }

  lemma DecodesIff(u: PartitionUpdateRecord, s: TopicState, change: PartitionChange, walk: seq<Str>)
    requires PartitionsKeyed(s) && Enumerates(walk, s.topics.Keys) && FindsItself(s, walk, u.partition.topic)
    requires InNest(s.partitions, u.partition.topic, u.partition.partition)
    requires var p := u.partition;
             && change.topicId == s.topics[p.topic].topicId && change.partitionId == p.partition
             && change.recovery == RecoveryToWire(u.recovery)
             && DiffFits(p, s.partitions[p.topic][p.partition])
             && change == WithDiff(change, p, s.partitions[p.topic][p.partition])
    ensures var p := u.partition;
            var current := s.partitions[p.topic][p.partition];
            var rec := ChangeFromKraft(change, s, walk);
            if CanStep(p, current) then rec == Decoded(Stepped(p, current), change, u.recovery) else rec.Err?
  {
    var p := u.partition;
    PartitionDecodes(change, p, s.partitions[p.topic][p.partition]);
  }

  lemma UpdateNamesItsPartition(s: TopicState, u: PartitionUpdateRecord, p: PartitionRecord)
    requires p.topic == u.partition.topic && p.partition == u.partition.partition
    requires ApplyPartitionUpdate(s, u.(partition := p)) == ApplyPartitionUpdate(s, u)
    ensures p == u.partition
  {
    var a, b := ApplyPartitionUpdate(s, u.(partition := p)), ApplyPartitionUpdate(s, u);
    assert a.partitions[p.topic][p.partition] == p && b.partitions[p.topic][p.partition] == u.partition;
  }

  /** What the diff means once it is decoded and applied. */
  lemma SentUpdate(s: TopicState, u: PartitionUpdateRecord, walk: seq<Str>)
    requires PartitionsKeyed(s) && Enumerates(walk, s.topics.Keys) && FindsItself(s, walk, u.partition.topic)
    requires InNest(s.partitions, u.partition.topic, u.partition.partition)
    ensures var p := u.partition;
            var current := s.partitions[p.topic][p.partition];
            var sent := Sent(s, UpdateToKraft(u, s), walk);
            if DiffFits(p, current) && ElrFits(u) && CanStep(p, current)
            then sent == Ok(ApplyPartitionUpdate(s, u.(partition := Stepped(p, current))))
            else sent.Err?
  {
    var p := u.partition;
    var current := s.partitions[p.topic][p.partition];
    EncodesIff(u, s);
    if DiffFits(p, current) && ElrFits(u) {
      var change := UpdateToKraft(u, s).value;
      DecodesIff(u, s, change, walk);
      if CanStep(p, current) { ElrDecodes(u, Stepped(p, current), change, s); }
    }
  }

  /** What a sender must keep to: the partition is known, the node ids fit the
      wire, and the epochs and directories step as the decoder will step them. */
  predicate Sendable(u: PartitionUpdateRecord, s: TopicState)
  {
    var p := u.partition;
    && InNest(s.partitions, p.topic, p.partition)
    && DiffFits(p, s.partitions[p.topic][p.partition]) && ElrFits(u) && Steps(p, s.partitions[p.topic][p.partition])
  }

  /** An update stores nothing under another topic. */
  lemma UpdateStaysHome(s: TopicState, u: PartitionUpdateRecord)
    ensures ApplyPartitionUpdate(s, u).partitions - {u.partition.topic} == s.partitions - {u.partition.topic}
  {
  }

  /** The square commutes exactly when the id of the topic leads back to it and the sender
      steps the partition epoch by one, steps the leader epoch by one if and only if the
      leader changes, sends one directory per replica where it changes the directories, and
      names only nodes that fit the wire. */
  lemma UpdateMeansItsDiff(s: TopicState, u: PartitionUpdateRecord, walk: seq<Str>)
    requires PartitionsKeyed(s) && Enumerates(walk, s.topics.Keys)
    ensures Sent(s, UpdateToKraft(u, s), walk) == Ok(ApplyPartitionUpdate(s, u))
            <==> FindsItself(s, walk, u.partition.topic) && Sendable(u, s)
  {
    var p := u.partition;
    if !FindsItself(s, walk, p.topic) {
      UpdateStaysHome(s, u);
      LandsElsewhere(s, UpdateToKraft(u, s), walk, p.topic, ApplyPartitionUpdate(s, u));
    } else if InNest(s.partitions, p.topic, p.partition) {
      var q := Stepped(p, s.partitions[p.topic][p.partition]);
      SentUpdate(s, u, walk);
      if ApplyPartitionUpdate(s, u.(partition := q)) == ApplyPartitionUpdate(s, u) {
        UpdateNamesItsPartition(s, u, q);
      }
    }
  }

  // ----- deltas -----

  /** A delta that travels as a partition change also steps the partition epoch,
      and stores the partition anew. */
  function Touched(s: TopicState, topic: Str, index: int): TopicState
  {
    if InNest(s.partitions, topic, index) then ApplyPartition(s, EpochStepped(s, topic, index)) else s
  }

  function EpochStepped(s: TopicState, topic: Str, index: int): PartitionRecord
    requires InNest(s.partitions, topic, index)
  {
    var p := s.partitions[topic][index];
    p.(partitionEpoch := p.partitionEpoch + 1)
  }

  /** The partition is known and its epoch can step. */
  predicate CanTouch(s: TopicState, topic: Str, index: int)
  {
    InNest(s.partitions, topic, index) && s.partitions[topic][index].partitionEpoch != I32_MAX
  }

  lemma TouchStaysHome(s: TopicState, topic: Str, index: int)
    requires PartitionsKeyed(s)
    ensures Touched(s, topic, index).partitions - {topic} == s.partitions - {topic}
  {
  }

  /** A change that names no list and no leader keeps those of the partition. */
  lemma DeltaDecodes(s: TopicState, topic: Str, index: int, change: PartitionChange,
                     recovery: Option<LeaderRecoveryState>, walk: seq<Str>)
    requires Enumerates(walk, s.topics.Keys) && FindsItself(s, walk, topic)
    requires change == Unchanged(index, s.topics[topic].topicId)
                       .(recovery := RecoveryToWire(recovery), directories := change.directories,
                         eligible := change.eligible, lastKnown := change.lastKnown)
    requires change.directories.Some? && InNest(s.partitions, topic, index) ==>
               |change.directories.value| == |s.partitions[topic][index].replicas|
    ensures ChangeFromKraft(change, s, walk)
         == if !CanTouch(s, topic, index) then Err(InvalidReference)
            else var p := EpochStepped(s, topic, index);
                 Decoded(p.(directories := Or(change.directories, p.directories)), change, recovery)
  {
    if InNest(s.partitions, topic, index) {
      assert WithLists(s.partitions[topic][index], change) == Ok(s.partitions[topic][index]);
    }
  }

  /** Storing the partition and storing its eligible replicas, or its recovery
      state, commute. */
  lemma ElrTouched(s: TopicState, topic: Str, index: int, eligible: seq<NodeId>, lastKnown: seq<NodeId>)
    requires PartitionsKeyed(s) && InNest(s.partitions, topic, index)
    ensures ApplyPartitionUpdate(s, PartitionUpdateRecord(EpochStepped(s, topic, index), Some(eligible), Some(lastKnown), None))
         == Touched(ApplyElr(s, topic, index, eligible, lastKnown), topic, index)
  {
  }

  lemma RecoveryTouched(s: TopicState, topic: Str, index: int, state: LeaderRecoveryState)
    requires PartitionsKeyed(s) && InNest(s.partitions, topic, index)
    ensures ApplyPartitionUpdate(s, PartitionUpdateRecord(EpochStepped(s, topic, index), None, None, Some(state)))
         == Touched(ApplyRecovery(s, topic, index, state), topic, index)
  {
  }

  lemma ElrDeltaDecodes(s: TopicState, topic: Str, index: int, eligible: seq<NodeId>, lastKnown: seq<NodeId>, walk: seq<Str>)
    requires Enumerates(walk, s.topics.Keys) && FindsItself(s, walk, topic)
    ensures var change := StateToKraft(s, topic, index, NO_RECOVERY, Some(eligible), Some(lastKnown));
            if Fits(eligible) && Fits(lastKnown) && CanTouch(s, topic, index)
            then && change.Ok?
                 && ChangeFromKraft(change.value, s, walk)
                    == Ok(V1PartitionUpdate(PartitionUpdateRecord(
                                              EpochStepped(s, topic, index), Some(eligible), Some(lastKnown), None)))
            else change.Err? || ChangeFromKraft(change.value, s, walk).Err?
  {
    var change := StateToKraft(s, topic, index, NO_RECOVERY, Some(eligible), Some(lastKnown));
    if Fits(eligible) && Fits(lastKnown) {
      DeltaDecodes(s, topic, index, change.value, None, walk);
    }
  }

  lemma ElrDeltaMeans(s: TopicState, topic: Str, index: int, eligible: seq<NodeId>, lastKnown: seq<NodeId>, walk: seq<Str>)
    requires PartitionsKeyed(s) && Enumerates(walk, s.topics.Keys)
    ensures Sent(s, StateToKraft(s, topic, index, NO_RECOVERY, Some(eligible), Some(lastKnown)), walk)
            == Ok(Touched(ApplyElr(s, topic, index, eligible, lastKnown), topic, index))
            <==> FindsItself(s, walk, topic) && CanTouch(s, topic, index) && Fits(eligible) && Fits(lastKnown)
  {
    if !FindsItself(s, walk, topic) {
      var direct := ApplyElr(s, topic, index, eligible, lastKnown);
      TouchStaysHome(direct, topic, index);
      LandsElsewhere(s, StateToKraft(s, topic, index, NO_RECOVERY, Some(eligible), Some(lastKnown)), walk, topic,
                     Touched(direct, topic, index));
    } else {
      ElrDeltaDecodes(s, topic, index, eligible, lastKnown, walk);
      if InNest(s.partitions, topic, index) { ElrTouched(s, topic, index, eligible, lastKnown); }
    }
  }

  lemma RecoveryDeltaDecodes(s: TopicState, topic: Str, index: int, state: LeaderRecoveryState, walk: seq<Str>)
    requires Enumerates(walk, s.topics.Keys) && FindsItself(s, walk, topic)
    ensures var change := StateToKraft(s, topic, index, RecoveryToWire(Some(state)), None, None);
            && change.Ok?
            && if CanTouch(s, topic, index)
               then ChangeFromKraft(change.value, s, walk)
                    == Ok(V1PartitionUpdate(PartitionUpdateRecord(EpochStepped(s, topic, index), None, None, Some(state))))
               else ChangeFromKraft(change.value, s, walk).Err?
  {
    var change := StateToKraft(s, topic, index, RecoveryToWire(Some(state)), None, None);
    DeltaDecodes(s, topic, index, change.value, Some(state), walk);
  }

  lemma RecoveryDeltaMeans(s: TopicState, topic: Str, index: int, state: LeaderRecoveryState, walk: seq<Str>)
    requires PartitionsKeyed(s) && Enumerates(walk, s.topics.Keys)
    ensures Sent(s, StateToKraft(s, topic, index, RecoveryToWire(Some(state)), None, None), walk)
            == Ok(Touched(ApplyRecovery(s, topic, index, state), topic, index))
            <==> FindsItself(s, walk, topic) && CanTouch(s, topic, index)
  {
    if !FindsItself(s, walk, topic) {
      var direct := ApplyRecovery(s, topic, index, state);
      TouchStaysHome(direct, topic, index);
      LandsElsewhere(s, StateToKraft(s, topic, index, RecoveryToWire(Some(state)), None, None), walk, topic,
                     Touched(direct, topic, index));
    } else {
      RecoveryDeltaDecodes(s, topic, index, state, walk);
      if InNest(s.partitions, topic, index) { RecoveryTouched(s, topic, index, state); }
    }
  }

  /** The partition that reaches the log for a directory assignment. */
  function Placed(p: PartitionRecord, replica: NodeId, directory: Uuid): PartitionRecord
    requires replica in p.replicas
  {
    var slot := Position(p.replicas, replica);
    p.(directories := Resized(p.directories, |p.replicas|)[slot := directory])
  }

  lemma PlacedIff(p: PartitionRecord, replica: NodeId, directory: Uuid)
    requires replica in p.replicas
    ensures Placed(p, replica, directory) == AssignDirectory(p, replica, directory) <==> |p.directories| <= |p.replicas|
  {
    assert |Placed(p, replica, directory).directories| == |p.replicas|;
  }

  lemma DirectoryDeltaDecodes(s: TopicState, topic: Str, index: int, replica: NodeId, directory: Uuid, walk: seq<Str>)
    requires Enumerates(walk, s.topics.Keys) && FindsItself(s, walk, topic)
    ensures var change := DirAssignmentToKraft(s, topic, index, replica, directory);
            if CanTouch(s, topic, index) && replica in s.partitions[topic][index].replicas
            then change.Ok? && ChangeFromKraft(change.value, s, walk)
                               == Ok(V1Partition(Placed(EpochStepped(s, topic, index), replica, directory)))
            else change.Err? || ChangeFromKraft(change.value, s, walk).Err?
  {
    var change := DirAssignmentToKraft(s, topic, index, replica, directory);
    if change.Ok? { DeltaDecodes(s, topic, index, change.value, None, walk); }
  }

  /** Storing `sent` on the image, or touching the assigned partition, agree
      exactly when the two partitions do. */
  lemma DirectoryTouched(s: TopicState, topic: Str, index: int, replica: NodeId, directory: Uuid)
    requires PartitionsKeyed(s) && InNest(s.partitions, topic, index) && replica in s.partitions[topic][index].replicas
    ensures ApplyPartition(s, Placed(EpochStepped(s, topic, index), replica, directory))
            == Touched(ApplyDirAssignment(s, topic, index, replica, directory), topic, index)
            <==> |s.partitions[topic][index].directories| <= |s.partitions[topic][index].replicas|
  {
    var p := s.partitions[topic][index];
    var base := ApplyDirAssignment(s, topic, index, replica, directory);
    var a, b := Placed(EpochStepped(s, topic, index), replica, directory), EpochStepped(base, topic, index);
    PlacedIff(p, replica, directory);
    NestPutTwice(s.partitions, topic, index, AssignDirectory(p, replica, directory), b);
    assert ApplyPartition(s, a).partitions[topic][index] == a;
    assert ApplyPartition(base, b).partitions[topic][index] == b;
    assert a.directories == Placed(p, replica, directory).directories;
  }

  lemma PutStaysHome<A, B, V>(m: map<A, map<B, V>>, a: A, b: B, v: V)
    ensures NestPut(m, a, b, v) - {a} == m - {a}
  {
  }

  lemma AssignmentStaysHome(s: TopicState, topic: Str, index: int, replica: NodeId, directory: Uuid)
    ensures ApplyDirAssignment(s, topic, index, replica, directory).partitions - {topic} == s.partitions - {topic}
  {
    if InNest(s.partitions, topic, index) {
      PutStaysHome(s.partitions, topic, index, AssignDirectory(s.partitions[topic][index], replica, directory));
    }
  }

  lemma AssignmentKeepsKeys(s: TopicState, topic: Str, index: int, replica: NodeId, directory: Uuid)
    requires PartitionsKeyed(s)
    ensures PartitionsKeyed(ApplyDirAssignment(s, topic, index, replica, directory))
  {
    if InNest(s.partitions, topic, index) {
      PutKeepsPartitionsKeyed(s, AssignDirectory(s.partitions[topic][index], replica, directory));
    }
  }

  lemma DirectoryNamesItsTopic(s: TopicState, topic: Str, index: int, replica: NodeId, directory: Uuid)
    ensures var change := DirAssignmentToKraft(s, topic, index, replica, directory);
            change.Ok? ==> topic in s.topics && change.value.topicId == s.topics[topic].topicId
  {
  }

  lemma DirectoryGoesAstray(s: TopicState, topic: Str, index: int, replica: NodeId, directory: Uuid, walk: seq<Str>,
                            direct: TopicState, change: Result<PartitionChange, TranslateError>)
    requires PartitionsKeyed(s) && Enumerates(walk, s.topics.Keys) && !FindsItself(s, walk, topic)
    requires direct == ApplyDirAssignment(s, topic, index, replica, directory)
    requires change == DirAssignmentToKraft(s, topic, index, replica, directory)
    ensures Sent(s, change, walk) != Ok(Touched(direct, topic, index))
  {
    AssignmentStaysHome(s, topic, index, replica, directory);
    AssignmentKeepsKeys(s, topic, index, replica, directory);
    DirectoryNamesItsTopic(s, topic, index, replica, directory);
    TouchStaysHome(direct, topic, index);
    LandsElsewhere(s, change, walk, topic, Touched(direct, topic, index));
  }

  /** What a directory assignment means where its id leads back to the topic. */
  lemma SentDirectory(s: TopicState, topic: Str, index: int, replica: NodeId, directory: Uuid, walk: seq<Str>)
    requires PartitionsKeyed(s) && Enumerates(walk, s.topics.Keys) && FindsItself(s, walk, topic)
    ensures var sent := Sent(s, DirAssignmentToKraft(s, topic, index, replica, directory), walk);
            if CanTouch(s, topic, index) && replica in s.partitions[topic][index].replicas
            then sent == Ok(ApplyPartition(s, Placed(EpochStepped(s, topic, index), replica, directory)))
            else sent.Err?
  {
    DirectoryDeltaDecodes(s, topic, index, replica, directory, walk);
  }

  /** A directory assignment travels as the whole directory list, cut to one entry
      per replica: it means the assignment exactly when no stored entry is cut. */
  lemma DirectoryDeltaMeans(s: TopicState, topic: Str, index: int, replica: NodeId, directory: Uuid, walk: seq<Str>)
    requires PartitionsKeyed(s) && Enumerates(walk, s.topics.Keys)
    ensures Sent(s, DirAssignmentToKraft(s, topic, index, replica, directory), walk)
            == Ok(Touched(ApplyDirAssignment(s, topic, index, replica, directory), topic, index))
            <==> && FindsItself(s, walk, topic) && CanTouch(s, topic, index)
                 && replica in s.partitions[topic][index].replicas
                 && |s.partitions[topic][index].directories| <= |s.partitions[topic][index].replicas|
  {
    if !FindsItself(s, walk, topic) {
      DirectoryGoesAstray(s, topic, index, replica, directory, walk,
                          ApplyDirAssignment(s, topic, index, replica, directory),
                          DirAssignmentToKraft(s, topic, index, replica, directory));
    } else {
      SentDirectory(s, topic, index, replica, directory, walk);
      if InNest(s.partitions, topic, index) && replica in s.partitions[topic][index].replicas {
        DirectoryTouched(s, topic, index, replica, directory);
      }
    }
  }
}
