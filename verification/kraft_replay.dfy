/** `crates/metadata/src/kraft_translate.rs`: what a log sent over KIP-631 has to do with the
    same log replayed directly. A delta steps the partition epoch on its way, so the two
    agree up to the partition epochs, and on those too when the log holds no delta. */
module KraftReplay {
  import opened Base
  import opened Collections
  import opened MetadataRecords
  import opened Images
  import opened ImageInvariants
  import opened ImageSnapshot
  import opened ImageEquivalence
  import opened KraftPartitions
  import opened KraftRecords
  import opened KraftConfigs
  import opened KraftLog
  import opened Deliveries

  // ----- forgetting the partition epochs -----

  function Erased(p: PartitionRecord): PartitionRecord { p.(partitionEpoch := 0) }

  function ErasedAll(inner: map<int, PartitionRecord>): map<int, PartitionRecord>
  {
    map i | i in inner :: Erased(inner[i])
  }

  function WithoutEpochs(m: map<Str, map<int, PartitionRecord>>): map<Str, map<int, PartitionRecord>>
  {
    map t | t in m :: ErasedAll(m[t])
  }

  function Erase(s: TopicState): TopicState
  {
    s.(partitions := WithoutEpochs(s.partitions))
  }

  function EraseRecord(rec: Record): Record
  {
    match rec
    case V1Partition(p) => V1Partition(Erased(p))
    case V1PartitionUpdate(u) => V1PartitionUpdate(u.(partition := Erased(u.partition)))
    case _ => rec
  }

  lemma ErasePut(m: map<Str, map<int, PartitionRecord>>, topic: Str, index: int, p: PartitionRecord)
    ensures WithoutEpochs(NestPut(m, topic, index, p)) == NestPut(WithoutEpochs(m), topic, index, Erased(p))
  {
    var a, b := WithoutEpochs(NestPut(m, topic, index, p)), NestPut(WithoutEpochs(m), topic, index, Erased(p));
    assert ErasedAll(Inner(m, topic)[index := p]) == ErasedAll(Inner(m, topic))[index := Erased(p)];
    assert ErasedAll(Inner(m, topic)) == Inner(WithoutEpochs(m), topic);
    assert forall t :: t in a ==> a[t] == b[t];
  }

  lemma ErasePartition(s: TopicState, p: PartitionRecord)
    ensures Erase(ApplyPartition(s, p)) == ApplyPartition(Erase(s), Erased(p))
  {
    ErasePut(s.partitions, p.topic, p.partition, p);
    assert InNest(s.partitions, p.topic, p.partition) <==> InNest(Erase(s).partitions, p.topic, p.partition);
  }

  lemma EraseDirAssignment(s: TopicState, topic: Str, index: int, replica: NodeId, directory: Uuid)
    ensures Erase(ApplyDirAssignment(s, topic, index, replica, directory))
         == ApplyDirAssignment(Erase(s), topic, index, replica, directory)
  {
    if InNest(s.partitions, topic, index) {
      var p := s.partitions[topic][index];
      assert Erase(s).partitions[topic][index] == Erased(p);
      assert Erased(AssignDirectory(p, replica, directory)) == AssignDirectory(Erased(p), replica, directory);
      ErasePut(s.partitions, topic, index, AssignDirectory(p, replica, directory));
    }
  }

  lemma EraseElr(s: TopicState, topic: Str, index: int, e: seq<NodeId>, l: seq<NodeId>)
    ensures Erase(ApplyElr(s, topic, index, e, l)) == ApplyElr(Erase(s), topic, index, e, l)
  {
  }

  lemma EraseRecovery(s: TopicState, topic: Str, index: int, state: LeaderRecoveryState)
    ensures Erase(ApplyRecovery(s, topic, index, state)) == ApplyRecovery(Erase(s), topic, index, state)
  {
  }

  function ElrPart(s: TopicState, u: PartitionUpdateRecord): TopicState
  {
    if u.eligible.Some? && u.lastKnown.Some?
    then ApplyElr(s, u.partition.topic, u.partition.partition, u.eligible.value, u.lastKnown.value) else s
  }

  function RecoveryPart(s: TopicState, u: PartitionUpdateRecord): TopicState
  {
    if u.recovery.Some? then ApplyRecovery(s, u.partition.topic, u.partition.partition, u.recovery.value) else s
  }

  lemma UpdateInParts(s: TopicState, u: PartitionUpdateRecord)
    ensures ApplyPartitionUpdate(s, u) == RecoveryPart(ElrPart(ApplyPartition(s, u.partition), u), u)
  {
  }

  lemma EraseParts(s: TopicState, u: PartitionUpdateRecord, v: PartitionUpdateRecord)
    requires v == u.(partition := Erased(u.partition))
    ensures Erase(RecoveryPart(s, u)) == RecoveryPart(Erase(s), v) && Erase(ElrPart(s, u)) == ElrPart(Erase(s), v)
  {
    var p := u.partition;
    if u.eligible.Some? && u.lastKnown.Some? { EraseElr(s, p.topic, p.partition, u.eligible.value, u.lastKnown.value); }
    if u.recovery.Some? { EraseRecovery(s, p.topic, p.partition, u.recovery.value); }
  }

  lemma EraseUpdate(s: TopicState, u: PartitionUpdateRecord)
    ensures Erase(ApplyPartitionUpdate(s, u)) == ApplyPartitionUpdate(Erase(s), u.(partition := Erased(u.partition)))
  {
    var v := u.(partition := Erased(u.partition));
    var stored := ApplyPartition(s, u.partition);
    ErasePartition(s, u.partition);
    EraseParts(stored, u, v);
    EraseParts(ElrPart(stored, u), u, v);
    UpdateInParts(s, u);
    UpdateInParts(Erase(s), v);
  }

  lemma EraseTopic(s: TopicState, t: TopicRecord)
    ensures Erase(ApplyTopic(s, t)) == ApplyTopic(Erase(s), t)
  {
  }

  lemma EraseDelete(s: TopicState, name: Str)
    ensures Erase(ApplyDeleteTopic(s, name)) == ApplyDeleteTopic(Erase(s), name)
  {
    assert WithoutEpochs(s.partitions - {name}) == WithoutEpochs(s.partitions) - {name};
  }

  lemma EraseSmallStep(s: TopicState, rec: Record)
    requires rec.V1PartitionElr? || rec.V1PartitionRecovery? || rec.V1Topic? || rec.V1TopicConfig? || rec.V1PartitionOffsetAdvance?
    ensures Erase(TopicStep(s, rec)) == TopicStep(Erase(s), rec)
  {
    if rec.V1Topic? { EraseTopic(s, rec.topic); }
    else if rec.V1PartitionElr? { EraseElr(s, rec.topicName, rec.index, rec.eligible, rec.lastKnown); }
    else if rec.V1PartitionRecovery? { EraseRecovery(s, rec.topicName, rec.index, rec.state); }
  }

  lemma ErasePartitionStep(s: TopicState, rec: Record)
    requires rec.V1Partition? || rec.V1PartitionUpdate? || rec.V1PartitionDirAssignment? || rec.V1DeleteTopic?
    ensures Erase(TopicStep(s, rec)) == TopicStep(Erase(s), EraseRecord(rec))
  {
    if rec.V1Partition? { ErasePartition(s, rec.partition); }
    else if rec.V1PartitionUpdate? { EraseUpdate(s, rec.update); }
    else if rec.V1DeleteTopic? { EraseDelete(s, rec.name); }
    else { EraseDirAssignment(s, rec.topicName, rec.index, rec.replica, rec.directory); }
  }

  /** No step looks at a partition epoch. */
  lemma EraseStep(s: TopicState, rec: Record)
    ensures Erase(TopicStep(s, rec)) == TopicStep(Erase(s), EraseRecord(rec))
  {
    if rec.V1Partition? || rec.V1PartitionUpdate? || rec.V1PartitionDirAssignment? || rec.V1DeleteTopic? {
      ErasePartitionStep(s, rec);
    } else if GroupOf(rec) == TopicGroup {
      EraseSmallStep(s, rec);
    }
  }

  lemma EraseTouched(s: TopicState, topic: Str, index: int)
    requires PartitionsKeyed(s)
    ensures AgreeTopics(Erase(Touched(s, topic, index)), Erase(s))
  {
    if InNest(s.partitions, topic, index) {
      var p := EpochStepped(s, topic, index);
      ErasePut(s.partitions, topic, index, p);
      assert Erase(s).partitions[topic][index] == Erased(p);
      NestPutSame(Erase(s).partitions, topic, index);
    }
  }

  // ----- agreement up to the epochs -----

  /** Agreement but for the partition epochs. */
  ghost predicate AgreeUpToEpochs(a: Image, b: Image)
  {
    Agree(a.(topics := Erase(a.topics)), b.(topics := Erase(b.topics)))
  }

  lemma TopicsTransitive(a: TopicState, b: TopicState, c: TopicState)
    requires AgreeTopics(a, b) && AgreeTopics(b, c)
    ensures AgreeTopics(a, c)
  {
    forall t | t in a.topics ensures SameTopic(a.topics[t], c.topics[t]) {
      assert SameTopic(a.topics[t], b.topics[t]) && SameTopic(b.topics[t], c.topics[t]);
    }
  }

  lemma EraseRespects(a: TopicState, b: TopicState)
    requires AgreeTopics(a, b)
    ensures AgreeTopics(Erase(a), Erase(b))
  {
  }

  /** Steps from states that differ in the epochs. */
  lemma StepUpToEpochs(a: TopicState, b: TopicState, rec: Record)
    requires AgreeTopics(Erase(a), Erase(b))
    ensures AgreeTopics(Erase(TopicStep(a, rec)), Erase(TopicStep(b, rec)))
  {
    EraseStep(a, rec);
    EraseStep(b, rec);
    TopicStepRespects(Erase(a), Erase(b), EraseRecord(rec));
  }

  predicate IsDelta(rec: Record)
  {
    rec.V1PartitionDirAssignment? || rec.V1PartitionElr? || rec.V1PartitionRecovery?
  }

  lemma MeantTopicsIs(x: Image, rec: Record)
    ensures Meant(x, rec).topics
            == if IsDelta(rec) then Touched(TopicStep(x.topics, rec), rec.topicName, rec.index) else TopicStep(x.topics, rec)
    ensures Meant(x, rec) == Apply(x, rec).(topics := Meant(x, rec).topics)
  {
  }

  lemma MeantUpToEpochs(a: Image, b: Image, rec: Record)
    requires AgreeUpToEpochs(a, b) && PartitionsKeyed(a.topics)
    ensures AgreeUpToEpochs(Meant(a, rec), Apply(b, rec))
  {
    var s, t := TopicStep(a.topics, rec), TopicStep(b.topics, rec);
    MeantTopicsIs(a, rec);
    StepUpToEpochs(a.topics, b.topics, rec);
    ConfigStepRespects(a.configs, b.configs, rec);
    if IsDelta(rec) {
      KeepsPartitionsKeyed(a.topics, rec);
      EraseTouched(s, rec.topicName, rec.index);
      TopicsTransitive(Erase(Touched(s, rec.topicName, rec.index)), Erase(s), Erase(t));
    }
  }

  /** What the records of a log mean is what its replay says, up to the epochs. */
  lemma {:induction false} MeaningIsReplay(a: Image, b: Image, log: seq<Record>)
    requires AgreeUpToEpochs(a, b) && AnyLogInv(a)
    ensures AgreeUpToEpochs(Meaning(Meant, a, log), Replay(b, log))
    decreases |log|
  {
    if log != [] {
      MeantUpToEpochs(a, b, log[0]);
      MeantKeeps(a, log[0]);
      MeaningIsReplay(Meant(a, log[0]), Apply(b, log[0]), log[1..]);
    }
  }

  /** Without a delta it is the replay itself. */
  lemma {:induction false} MeaningWithoutDeltas(x: Image, log: seq<Record>)
    requires forall rec :: rec in log ==> !IsDelta(rec)
    ensures Meaning(Meant, x, log) == Replay(x, log)
    decreases |log|
  {
    if log != [] {
      MeantTopicsIs(x, log[0]);
      MeaningWithoutDeltas(Apply(x, log[0]), log[1..]);
    }
  }

  // ----- a log from the first record on -----

  /** The link, judged up to the partition epochs. */
  ghost function KraftUpToEpochs(): Link<Image, Record, KraftRecord, TranslateError>
  {
    Kraft().(agree := AgreeUpToEpochs)
  }

  lemma CoarserAgreement(z: Image, mid: Image, goal: Image)
    requires Agree(z, mid) && AgreeUpToEpochs(mid, goal)
    ensures AgreeUpToEpochs(z, goal)
  {
    EraseRespects(z.topics, mid.topics);
    TopicsTransitive(Erase(z.topics), Erase(mid.topics), Erase(goal.topics));
  }

  /** For every log whose records keep to the senders' conditions, from the first record of
      a cluster on: sent record by record, with every table walked in any order at every
      step, it leads to an image that agrees with its replay up to the partition epochs. */
  lemma SentLogIsReplayed(clusterId: Uuid, log: seq<Record>)
    requires AllSend(Meant, Sends, New(clusterId), log)
    ensures Arrives(KraftUpToEpochs(), New(clusterId), [], log, Replay(New(clusterId), log))
  {
    var x := New(clusterId);
    var mid, goal := Meaning(Meant, x, log), Replay(x, log);
    NewIsReachable(clusterId);
    SentLogArrives(x, x, log);
    MeaningIsReplay(x, x, log);
    forall z | Agree(z, mid) ensures AgreeUpToEpochs(z, goal) { CoarserAgreement(z, mid, goal); }
    Coarser(Kraft(), AgreeUpToEpochs, x, [], log, mid, goal);
  }

  /** And exactly as replayed, up to agreement, when the log holds no delta. */
  lemma SentLogWithoutDeltas(clusterId: Uuid, log: seq<Record>)
    requires AllSend(Meant, Sends, New(clusterId), log) && forall rec :: rec in log ==> !IsDelta(rec)
    ensures Arrives(Kraft(), New(clusterId), [], log, Replay(New(clusterId), log))
  {
    NewIsReachable(clusterId);
    SentLogArrives(New(clusterId), New(clusterId), log);
    MeaningWithoutDeltas(New(clusterId), log);
  }
}
