/** `crates/metadata/src/kraft_translate.rs`: topics and whole partition records on the
    KIP-631 log. Neither carries all of what the record says: the decoder takes the rest
    from the image. */
module KraftTopics {
  import opened Base
  import opened Collections
  import opened MetadataRecords
  import opened Images
  import opened ImageInvariants
  import opened ImageEquivalence
  import opened KraftConfigs
  import opened KraftPartitions

  // ----- topics -----

  ghost function Least(s: set<int>): (k: int)
    requires s != {}
    ensures IsLeast(k, s)
  {
    LeastExists(s);
    var k :| IsLeast(k, s);
    k
  }

  /** The factor `topic_from_kraft` derives: that of the lowest partition, or one. */
  ghost function DerivedFactor(s: TopicState, name: Str): int
  {
    var inner := Inner(s.partitions, name);
    if inner.Keys == {} then 1
    else
      var replicas := inner[Least(inner.Keys)].replicas;
      if |replicas| <= I16_MAX then |replicas| else 1
  }

  /** The partition with the lowest index gives the factor, unless its replicas are too many to
      count in an `i16`; a topic without partitions has one. */
  lemma DerivedFactorIs(s: TopicState, name: Str, i: int)
    requires InNest(s.partitions, name, i) && forall j :: InNest(s.partitions, name, j) ==> i <= j
    ensures var n := |s.partitions[name][i].replicas|;
            DerivedFactor(s, name) == if n <= I16_MAX then n else 1
  {
    var keys := Inner(s.partitions, name).Keys;
    assert i in keys;
    var k := Least(keys);
    assert InNest(s.partitions, name, k) && k <= i;
  }

  ghost function TopicFromKraft(name: Str, topicId: Uuid, s: TopicState): TopicRecord
  {
    TopicRecord(name, topicId, TopicPartitionCount(s, name), DerivedFactor(s, name))
  }

  /** A topic sent over the log always agrees with the topic applied directly, and equals
      it exactly when the sender's factor is the derived one. */
  lemma TopicMeansItself(s: TopicState, t: TopicRecord)
    ensures var sent, direct := ApplyTopic(s, TopicFromKraft(t.name, t.topicId, s)), ApplyTopic(s, t);
            AgreeTopics(sent, direct) && (sent == direct <==> t.replicationFactor == DerivedFactor(s, t.name))
  {
    var sent, direct := ApplyTopic(s, TopicFromKraft(t.name, t.topicId, s)), ApplyTopic(s, t);
    assert sent.topics[t.name] == direct.topics[t.name].(replicationFactor := DerivedFactor(s, t.name));
    assert direct.topics[t.name].replicationFactor == t.replicationFactor;
  }

  /** A new topic is stored with factor one, whatever factor its record had. */
  lemma NewTopicLosesItsFactor(s: TopicState, t: TopicRecord)
    requires t.name !in s.partitions
    ensures ApplyTopic(s, TopicFromKraft(t.name, t.topicId, s)).topics[t.name].replicationFactor == 1
    ensures ApplyTopic(s, TopicFromKraft(t.name, t.topicId, s)) == ApplyTopic(s, t) <==> t.replicationFactor == 1
  {
    TopicMeansItself(s, t);
  }

  function TopicRemovalFromKraft(id: Uuid, s: TopicState, walk: seq<Str>): Result<Record, TranslateError>
    requires Enumerates(walk, s.topics.Keys)
  {
    match TopicNameForId(s, walk, id)
    case Some(name) => Ok(V1DeleteTopic(name))
    case None => Err(UnknownTopicId)
  }

  // ----- whole partition records -----

  datatype KraftPartition = KraftPartition(
    partitionId: int, topicId: Uuid, replicas: seq<int>, isr: seq<int>, removingReplicas: seq<int>,
    addingReplicas: seq<int>, leader: int, leaderEpoch: int, partitionEpoch: int, directories: seq<Uuid>,
    recovery: int, eligible: Option<seq<int>>, lastKnown: Option<seq<int>>)

  /** `partition_elr`. */
  function ElrOf(s: TopicState, topic: Str, index: int): Elr
  {
    if InNest(s.elr, topic, index) then s.elr[topic][index] else ([], [])
  }

  /** `leader_recovery_state`. */
  function RecoveryOf(s: TopicState, topic: Str, index: int): LeaderRecoveryState
  {
    if InNest(s.recovery, topic, index) then s.recovery[topic][index] else Recovered
  }

  /** The image's eligible replicas, when it holds any. */
  function StoredElr(s: TopicState, topic: Str, index: int): Option<Elr>
  {
    var elr := ElrOf(s, topic, index);
    if elr.0 == [] && elr.1 == [] then None else Some(elr)
  }

  function First(elr: Option<Elr>): Option<seq<NodeId>> { if elr.Some? then Some(elr.value.0) else None }

  function Second(elr: Option<Elr>): Option<seq<NodeId>> { if elr.Some? then Some(elr.value.1) else None }

  /** `partition_to_kraft`: the record, with the image's eligible replicas and recovery
      state beside it. */
  function PartitionToKraft(p: PartitionRecord, s: TopicState): Result<KraftPartition, TranslateError>
  {
    if p.topic !in s.topics then Err(UnknownTopicName)
    else
      var elr := StoredElr(s, p.topic, p.partition);
      var replicas :- NodesToWire(p.replicas);
      var isr :- NodesToWire(p.isr);
      var removing :- NodesToWire(p.removingReplicas);
      var adding :- NodesToWire(p.addingReplicas);
      var leader :- LeaderToWire(p.leader);
      var eligible :- OptionToWire(First(elr));
      var lastKnown :- OptionToWire(Second(elr));
      Ok(KraftPartition(p.partition, s.topics[p.topic].topicId, replicas, isr, removing, adding, leader,
                        p.leaderEpoch, p.partitionEpoch, p.directories,
                        RecoveryToWire(Some(RecoveryOf(s, p.topic, p.partition))), eligible, lastKnown))
  }

  /** The partition a whole record names, under the topic its id led to. */
  function PartitionFields(k: KraftPartition, topic: Str): Result<PartitionRecord, TranslateError>
  {
    var leader :- LeaderFromWire(k.leader);
    var replicas :- NodesFromWire(k.replicas);
    var isr :- NodesFromWire(k.isr);
    var adding :- NodesFromWire(k.addingReplicas);
    var removing :- NodesFromWire(k.removingReplicas);
    Ok(PartitionRecord(topic, k.partitionId, leader, replicas, isr, k.leaderEpoch, adding, removing,
                       k.directories, k.partitionEpoch))
  }

  function StateFromWire(value: int): Result<LeaderRecoveryState, TranslateError>
  {
    if value == 0 then Ok(Recovered) else if value == 1 then Ok(Recovering) else Err(InvalidValue)
  }

  /** `partition_from_kraft`. */
  function PartitionFromKraft(k: KraftPartition, s: TopicState, walk: seq<Str>): Result<Record, TranslateError>
    requires Enumerates(walk, s.topics.Keys)
  {
    var topic := TopicNameForId(s, walk, k.topicId);
    if topic.None? then Err(UnknownTopicId)
    else
      var p :- PartitionFields(k, topic.value);
      var state :- StateFromWire(k.recovery);
      if k.eligible.Some? || k.lastKnown.Some? || state.Recovering? then
        var eligible :- OptionFromWire(k.eligible);
        var lastKnown :- OptionFromWire(k.lastKnown);
        Ok(V1PartitionUpdate(PartitionUpdateRecord(p, eligible, lastKnown, Some(state))))
      else Ok(V1Partition(p))
  }

  /** The partition, with whatever the image holds beside it. */
  function WithSidecars(p: PartitionRecord, s: TopicState): Record
  {
    var elr := StoredElr(s, p.topic, p.partition);
    var state := RecoveryOf(s, p.topic, p.partition);
    if elr.None? && state.Recovered? then V1Partition(p)
    else V1PartitionUpdate(PartitionUpdateRecord(p, First(elr), Second(elr), Some(state)))
  }

  predicate PartitionFits(p: PartitionRecord)
  {
    Fits(p.replicas) && Fits(p.isr) && Fits(p.removingReplicas) && Fits(p.addingReplicas) && p.leader <= I32_MAX
  }

  predicate SidecarFits(s: TopicState, topic: Str, index: int)
  {
    Fits(ElrOf(s, topic, index).0) && Fits(ElrOf(s, topic, index).1)
  }

  lemma PartitionEncodesIff(s: TopicState, p: PartitionRecord)
    ensures PartitionToKraft(p, s).Ok? <==>
              p.topic in s.topics && PartitionFits(p) && SidecarFits(s, p.topic, p.partition)
  {
  }

  lemma FieldsDecode(s: TopicState, p: PartitionRecord, topic: Str)
    requires PartitionToKraft(p, s).Ok?
    ensures PartitionFields(PartitionToKraft(p, s).value, topic) == Ok(p.(topic := topic))
  {
  }

  /** A partition record reads back as itself, with the image's own eligible replicas and
      recovery state, exactly when its topic's id leads back to the topic and every node it
      or that state names fits the wire. */
  lemma PartitionRoundTrip(s: TopicState, p: PartitionRecord, walk: seq<Str>)
    requires Enumerates(walk, s.topics.Keys)
    ensures PartitionToKraft(p, s).Ok? && PartitionFromKraft(PartitionToKraft(p, s).value, s, walk) == Ok(WithSidecars(p, s))
            <==> FindsItself(s, walk, p.topic) && PartitionFits(p) && SidecarFits(s, p.topic, p.partition)
  {
    PartitionEncodesIff(s, p);
    if PartitionToKraft(p, s).Ok? {
      var k := PartitionToKraft(p, s).value;
      var topic := TopicNameForId(s, walk, k.topicId);
      if topic.Some? { FieldsDecode(s, p, topic.value); }
    }
  }

  lemma ElrStays(s: TopicState, p: PartitionRecord)
    requires ElrMinimal(s.elr) && InNest(s.elr, p.topic, p.partition)
    ensures var elr := s.elr[p.topic][p.partition];
            ApplyElr(s, p.topic, p.partition, elr.0, elr.1) == s
  {
    NestPutSame(s.elr, p.topic, p.partition);
  }

  lemma RecoveryStays(s: TopicState, p: PartitionRecord)
    requires RecoveryMinimal(s.recovery)
    ensures ApplyRecovery(s, p.topic, p.partition, RecoveryOf(s, p.topic, p.partition)) == s
  {
    if InNest(s.recovery, p.topic, p.partition) { NestPutSame(s.recovery, p.topic, p.partition); }
    else if p.topic in s.recovery {
      assert s.recovery[p.topic] - {p.partition} == s.recovery[p.topic];
      assert s.recovery[p.topic := s.recovery[p.topic]] == s.recovery;
    }
  }

  /** The state that rides along is stored already: the record means what it meant alone. */
  lemma SidecarsStay(s: TopicState, p: PartitionRecord)
    requires ElrMinimal(s.elr) && RecoveryMinimal(s.recovery)
    ensures TopicStep(s, WithSidecars(p, s)) == ApplyPartition(s, p)
  {
    var stored := ApplyPartition(s, p);
    if InNest(s.elr, p.topic, p.partition) { ElrStays(stored, p); }
    RecoveryStays(stored, p);
  }
}
