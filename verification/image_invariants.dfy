/** What every reachable metadata image satisfies. */
module ImageInvariants {
  import opened Base
  import opened Collections
  import opened MetadataRecords
  import opened Images

  // ----- on any committed log -----

  /** Every `topic_ids` entry names a live topic that has that id. */
  ghost predicate IdsNameTopics(s: TopicState)
  {
    && (forall n :: n in s.topics ==> s.topics[n].name == n)
    && (forall id :: id in s.ids ==> s.ids[id] in s.topics && s.topics[s.ids[id]].topicId == id)
  }

  ghost predicate PartitionsKeyed(s: TopicState)
  {
    && NoEmptyInner(s.partitions)
    && (forall t, i :: InNest(s.partitions, t, i) ==>
          s.partitions[t][i].topic == t && s.partitions[t][i].partition == i)
  }

  /** No doubly empty entry and no empty group. */
  ghost predicate ElrMinimal(m: map<Str, map<int, Elr>>)
  {
    NoEmptyInner(m) && forall t, i :: InNest(m, t, i) ==> m[t][i] != ([], [])
  }

  /** No `Recovered` entry and no empty group. */
  ghost predicate RecoveryMinimal(m: map<Str, map<int, LeaderRecoveryState>>)
  {
    NoEmptyInner(m) && forall t, i :: InNest(m, t, i) ==> m[t][i].Recovering?
  }

  ghost predicate OffsetsSane(m: map<Str, map<int, int>>)
  {
    NoEmptyInner(m) && forall t, i :: InNest(m, t, i) ==> IsI64(m[t][i])
  }

  ghost predicate SidecarsMinimal(s: TopicState)
  {
    ElrMinimal(s.elr) && RecoveryMinimal(s.recovery) && OffsetsSane(s.nextOffsets) && NoEmptyInner(s.configs)
  }

  ghost predicate NodesKeyed(s: NodeState)
  {
    && (forall k :: k in s.brokers ==> s.brokers[k].nodeId == k)
    && (forall k :: k in s.controllers ==> s.controllers[k].nodeId == k)
  }

  ghost predicate ConfigsSane(s: ConfigState)
  {
    && NoEmptyInner(s.clientMetrics) && NoEmptyInner(s.groupConfigs)
    && (forall k :: k in s.clientQuotas ==> Canonical(k) == k)
  }

  ghost predicate SecurityKeyed(s: SecurityState)
  {
    && (forall k :: k in s.scram ==> s.scram[k].mechanism == k.1)
    && (forall k :: k in s.tokens ==> s.tokens[k].tokenId == k)
  }

  ghost predicate Routed(m: map<Str, TopicFreezeRecord>, pattern: PatternType)
  {
    forall k :: k in m ==> m[k].frozen && m[k].patternType == pattern && m[k].scope == k
  }

  /** Each stored freeze is frozen and sits in the registry that its pattern
      type selects, under its own scope. */
  ghost predicate GuardRouted(s: GuardState)
  {
    && Routed(s.freezesLiteral, Literal)
    && Routed(s.freezesPrefixed, Prefixed)
    && (forall k :: k in s.breakGlass ==> s.breakGlass[k].proposalId == k)
  }

  ghost predicate ControlSane(s: ControlState)
  {
    && (s.producerIds.Some? ==> s.producerIds.value.nextProducerId > 0)
    && (forall f :: f in s.featureLevels ==> s.featureLevels[f] != 0)
  }

  ghost predicate AnyLogInv(x: Image)
  {
    && IdsNameTopics(x.topics) && PartitionsKeyed(x.topics) && SidecarsMinimal(x.topics)
    && NodesKeyed(x.nodes) && ConfigsSane(x.configs) && SecurityKeyed(x.security)
    && GuardRouted(x.guard) && ControlSane(x.control)
  }

  lemma TopicKeepsIds(s: TopicState, t: TopicRecord)
    requires IdsNameTopics(s)
    ensures IdsNameTopics(ApplyTopic(s, t))
  {
  }

  lemma PartitionKeepsIds(s: TopicState, p: PartitionRecord)
    requires IdsNameTopics(s)
    ensures IdsNameTopics(ApplyPartition(s, p))
  {
  }

  lemma DeleteKeepsIds(s: TopicState, name: Str)
    requires IdsNameTopics(s)
    ensures IdsNameTopics(ApplyDeleteTopic(s, name))
  {
  }

  predicate TouchesTopics(r: Record)
  {
    r.V1Topic? || r.V1Partition? || r.V1PartitionUpdate? || r.V1DeleteTopic?
  }

  lemma TopicsFrame(s: TopicState, r: Record)
    requires !TouchesTopics(r)
    ensures TopicStep(s, r).topics == s.topics && TopicStep(s, r).ids == s.ids
  {
  }

  lemma KeepsIdsNameTopics(s: TopicState, r: Record)
    requires IdsNameTopics(s)
    ensures IdsNameTopics(TopicStep(s, r))
  {
    if !TouchesTopics(r) { TopicsFrame(s, r); }
    else if r.V1Topic? { TopicKeepsIds(s, r.topic); }
    else if r.V1Partition? { PartitionKeepsIds(s, r.partition); }
    else if r.V1PartitionUpdate? { PartitionKeepsIds(s, r.update.partition); }
    else { DeleteKeepsIds(s, r.name); }
  }

  lemma PutKeepsPartitionsKeyed(s: TopicState, p: PartitionRecord)
    requires PartitionsKeyed(s)
    ensures PartitionsKeyed(s.(partitions := NestPut(s.partitions, p.topic, p.partition, p)))
  {
    NestPutEntries(s.partitions, p.topic, p.partition, p);
  }

  lemma DeleteKeepsPartitionsKeyed(s: TopicState, name: Str)
    requires PartitionsKeyed(s)
    ensures PartitionsKeyed(ApplyDeleteTopic(s, name))
  {
  }

  predicate TouchesPartitions(r: Record)
  {
    r.V1Partition? || r.V1PartitionUpdate? || r.V1PartitionDirAssignment? || r.V1DeleteTopic?
  }

  lemma PartitionsFrame(s: TopicState, r: Record)
    ensures !TouchesPartitions(r) ==> TopicStep(s, r).partitions == s.partitions
  {
  }

  lemma KeepsPartitionsKeyed(s: TopicState, r: Record)
    requires PartitionsKeyed(s)
    ensures PartitionsKeyed(TopicStep(s, r))
  {
    if !TouchesPartitions(r) {
      PartitionsFrame(s, r);
    } else if r.V1Partition? {
      PutKeepsPartitionsKeyed(s, r.partition);
    } else if r.V1PartitionUpdate? {
      PutKeepsPartitionsKeyed(s, r.update.partition);
    } else if r.V1DeleteTopic? {
      DeleteKeepsPartitionsKeyed(s, r.name);
    } else if InNest(s.partitions, r.topicName, r.index) {
      PutKeepsPartitionsKeyed(s, AssignDirectory(s.partitions[r.topicName][r.index], r.replica, r.directory));
    }
  }

  lemma ElrKeepsMinimal(m: map<Str, map<int, Elr>>, topic: Str, index: int, v: Elr)
    requires ElrMinimal(m)
    ensures v != ([], []) ==> ElrMinimal(NestPut(m, topic, index, v))
    ensures ElrMinimal(NestDrop(m, topic, index))
  {
    NestPutEntries(m, topic, index, v);
    NestDropEntries(m, topic, index);
  }

  lemma ElrKeepsSidecars(s: TopicState, topic: Str, index: int, eligible: seq<NodeId>, lastKnown: seq<NodeId>)
    requires SidecarsMinimal(s)
    ensures SidecarsMinimal(ApplyElr(s, topic, index, eligible, lastKnown))
  {
    ElrKeepsMinimal(s.elr, topic, index, (eligible, lastKnown));
  }

  lemma RecoveryKeepsMinimal(m: map<Str, map<int, LeaderRecoveryState>>, topic: Str, index: int)
    requires RecoveryMinimal(m)
    ensures RecoveryMinimal(NestPut(m, topic, index, Recovering))
    ensures RecoveryMinimal(NestDrop(m, topic, index))
  {
    NestPutEntries(m, topic, index, Recovering);
    NestDropEntries(m, topic, index);
  }

  lemma RecoveryKeepsSidecars(s: TopicState, topic: Str, index: int, state: LeaderRecoveryState)
    requires SidecarsMinimal(s)
    ensures SidecarsMinimal(ApplyRecovery(s, topic, index, state))
  {
    RecoveryKeepsMinimal(s.recovery, topic, index);
  }

  lemma UpdateKeepsSidecars(s: TopicState, u: PartitionUpdateRecord)
    requires SidecarsMinimal(s)
    ensures SidecarsMinimal(ApplyPartitionUpdate(s, u))
  {
    var p := u.partition;
    var stored := ApplyPartition(s, p);
    var elr := stored;
    if u.eligible.Some? && u.lastKnown.Some? {
      elr := ApplyElr(stored, p.topic, p.partition, u.eligible.value, u.lastKnown.value);
      ElrKeepsSidecars(stored, p.topic, p.partition, u.eligible.value, u.lastKnown.value);
    }
    if u.recovery.Some? { RecoveryKeepsSidecars(elr, p.topic, p.partition, u.recovery.value); }
  }

  lemma AdvanceKeepsSidecars(s: TopicState, topic: Str, index: int, count: int)
    requires SidecarsMinimal(s)
    ensures SidecarsMinimal(ApplyOffsetAdvance(s, topic, index, count))
  {
    var s' := ApplyOffsetAdvance(s, topic, index, count);
    OffsetsKeepSane(s.nextOffsets, topic, index, s'.nextOffsets[topic][index]);
  }

  lemma OffsetsKeepSane(m: map<Str, map<int, int>>, topic: Str, index: int, v: int)
    requires OffsetsSane(m) && IsI64(v)
    ensures OffsetsSane(NestPut(m, topic, index, v))
  {
    NestPutEntries(m, topic, index, v);
  }

  lemma DeleteKeepsSidecars(s: TopicState, name: Str)
    requires SidecarsMinimal(s)
    ensures SidecarsMinimal(ApplyDeleteTopic(s, name))
  {
  }

  predicate TouchesSidecars(r: Record)
  {
    r.V1PartitionElr? || r.V1PartitionRecovery? || r.V1PartitionUpdate? || r.V1PartitionOffsetAdvance?
    || r.V1DeleteTopic? || r.V1TopicConfig?
  }

  lemma SidecarsFrame(s: TopicState, r: Record)
    requires !TouchesSidecars(r)
    ensures var s' := TopicStep(s, r);
            s'.elr == s.elr && s'.recovery == s.recovery && s'.nextOffsets == s.nextOffsets && s'.configs == s.configs
  {
  }

  lemma KeepsSidecarsMinimal(s: TopicState, r: Record)
    requires SidecarsMinimal(s)
    ensures SidecarsMinimal(TopicStep(s, r))
  {
    if !TouchesSidecars(r) { SidecarsFrame(s, r); }
    else if r.V1PartitionElr? { ElrKeepsSidecars(s, r.topicName, r.index, r.eligible, r.lastKnown); }
    else if r.V1PartitionRecovery? { RecoveryKeepsSidecars(s, r.topicName, r.index, r.state); }
    else if r.V1PartitionUpdate? { UpdateKeepsSidecars(s, r.update); }
    else if r.V1PartitionOffsetAdvance? { AdvanceKeepsSidecars(s, r.topicName, r.index, r.count); }
    else if r.V1DeleteTopic? { DeleteKeepsSidecars(s, r.name); }
    else { ConfigKeepsSidecars(s, r.resource, r.configs); }
  }

  lemma ConfigKeepsSidecars(s: TopicState, resource: Str, configs: Configs)
    requires SidecarsMinimal(s)
    ensures SidecarsMinimal(s.(configs := PutConfigs(s.configs, resource, configs)))
  {
  }

  // ----- canonical entity keys -----

  predicate EntitySorted(key: EntityKey)
  {
    |key| >= 2 ==> StrLeq(key[0].0, key[1].0) && EntitySorted(key[1..])
  }

  lemma {:induction false} InsertSorts(e: (Str, Option<Str>), key: EntityKey)
    requires EntitySorted(key)
    ensures EntitySorted(InsertEntity(e, key))
  {
    if key != [] && !StrLeq(e.0, key[0].0) {
      StrLeqTotal(e.0, key[0].0);
      InsertSorts(e, key[1..]);
      var r := InsertEntity(e, key);
      assert r[1..] == InsertEntity(e, key[1..]);
    } else if key != [] {
      assert ([e] + key)[1..] == key;
    }
  }

  lemma {:induction false} SortedIsCanonical(key: EntityKey)
    requires EntitySorted(key)
    ensures Canonical(key) == key
  {
    if key != [] {
      SortedIsCanonical(key[1..]);
      assert key == [key[0]] + key[1..];
    }
  }

  lemma {:induction false} InsertKeeps(e: (Str, Option<Str>), key: EntityKey)
    ensures multiset(InsertEntity(e, key)) == multiset(key) + multiset{e}
  {
    if key != [] && !StrLeq(e.0, key[0].0) {
      InsertKeeps(e, key[1..]);
      assert key == [key[0]] + key[1..];
    }
  }

  /** The canonical entity is the entity, sorted. */
  lemma {:induction false} CanonicalSorts(key: EntityKey)
    ensures EntitySorted(Canonical(key)) && multiset(Canonical(key)) == multiset(key)
  {
    if key != [] {
      CanonicalSorts(key[1..]);
      InsertSorts(key[0], Canonical(key[1..]));
      InsertKeeps(key[0], Canonical(key[1..]));
      assert key == [key[0]] + key[1..];
    }
  }

  /** The parts of one type, in their order. */
  function OfType(key: EntityKey, t: Str): EntityKey
  {
    if key == [] then [] else (if key[0].0 == t then [key[0]] else []) + OfType(key[1..], t)
  }

  lemma {:induction false} InsertIsStable(e: (Str, Option<Str>), key: EntityKey, t: Str)
    ensures OfType(InsertEntity(e, key), t) == (if e.0 == t then [e] else []) + OfType(key, t)
  {
    if key == [] || StrLeq(e.0, key[0].0) {
      assert ([e] + key)[1..] == key;
    } else {
      StrLeqTotal(e.0, key[0].0);
      InsertIsStable(e, key[1..], t);
      assert ([key[0]] + InsertEntity(e, key[1..]))[1..] == InsertEntity(e, key[1..]);
      if key[0].0 == t { NotBelowItself(e.0, t); }
    }
  }

  lemma NotBelowItself(a: Str, t: Str)
    requires !StrLeq(a, t)
    ensures a != t
  {
    StrLeqTotal(a, t);
  }

  /** The sort is stable: parts of one type keep their order. */
  lemma {:induction false} CanonicalIsStable(key: EntityKey, t: Str)
    ensures OfType(Canonical(key), t) == OfType(key, t)
  {
    if key != [] {
      CanonicalIsStable(key[1..], t);
      InsertIsStable(key[0], Canonical(key[1..]), t);
    }
  }

  /** Canonicalizing twice is canonicalizing once, so a replayed quota record
      reaches the same key. */
  lemma CanonicalIdempotent(key: EntityKey)
    ensures Canonical(Canonical(key)) == Canonical(key)
  {
    CanonicalSorts(key);
    SortedIsCanonical(Canonical(key));
  }

  lemma KeepsConfigsSane(s: ConfigState, r: Record)
    requires ConfigsSane(s)
    ensures ConfigsSane(ConfigStep(s, r))
  {
    if r.V1ClientQuota? { CanonicalIdempotent(r.entity); }
  }

  lemma KeepsNodesAndControl(x: Image, r: Record)
    requires NodesKeyed(x.nodes) && ControlSane(x.control)
    ensures NodesKeyed(NodeStep(x.nodes, r)) && ControlSane(ControlStep(x.control, r))
  {
  }

  lemma KeepsSecurityAndGuard(x: Image, r: Record)
    requires SecurityKeyed(x.security) && GuardRouted(x.guard)
    ensures SecurityKeyed(SecurityStep(x.security, r)) && GuardRouted(GuardStep(x.guard, r))
  {
  }

  lemma KeepsAnyLogInv(x: Image, r: Record)
    requires AnyLogInv(x)
    ensures AnyLogInv(Apply(x, r))
  {
    KeepsIdsNameTopics(x.topics, r);
    KeepsPartitionsKeyed(x.topics, r);
    KeepsSidecarsMinimal(x.topics, r);
    KeepsConfigsSane(x.configs, r);
    KeepsNodesAndControl(x, r);
    KeepsSecurityAndGuard(x, r);
  }

  /** The invariants hold after every committed log, validated or not. */
  lemma {:induction false} AnyLog(x: Image, log: seq<Record>)
    requires AnyLogInv(x)
    ensures AnyLogInv(Replay(x, log))
    decreases |log|
  {
    if log != [] {
      KeepsAnyLogInv(x, log[0]);
      AnyLog(Apply(x, log[0]), log[1..]);
    }
  }

  // ----- on validated logs -----

  /** The cached count is the number of stored partition records, and only live
      topics have partitions. */
  ghost predicate CountsExact(s: TopicState)
  {
    && (forall t :: t in s.partitions ==> t in s.topics)
    && (forall t :: t in s.topics ==> s.topics[t].partitions == TopicPartitionCount(s, t))
  }

  lemma CountStep(s: TopicState, p: PartitionRecord)
    requires p.topic in s.topics && s.topics[p.topic].partitions == TopicPartitionCount(s, p.topic)
    ensures var s' := ApplyPartition(s, p);
            p.topic in s'.topics && s'.topics[p.topic].partitions == TopicPartitionCount(s', p.topic)
  {
    var s', inner := ApplyPartition(s, p), Inner(s.partitions, p.topic);
    assert Inner(s'.partitions, p.topic) == inner[p.partition := p];
  }

  lemma PartitionKeepsCounts(s: TopicState, p: PartitionRecord)
    requires CountsExact(s) && p.topic in s.topics
    ensures CountsExact(ApplyPartition(s, p))
  {
    var s' := ApplyPartition(s, p);
    forall t | t in s'.topics ensures s'.topics[t].partitions == TopicPartitionCount(s', t) {
      if t == p.topic { CountStep(s, p); }
      else { assert Inner(s'.partitions, t) == Inner(s.partitions, t); }
    }
  }

  lemma DirAssignmentKeepsCounts(s: TopicState, topic: Str, index: int, replica: NodeId, directory: Uuid)
    requires CountsExact(s)
    ensures CountsExact(ApplyDirAssignment(s, topic, index, replica, directory))
  {
    var s' := ApplyDirAssignment(s, topic, index, replica, directory);
    forall t ensures |Inner(s'.partitions, t)| == |Inner(s.partitions, t)| {
      assert Inner(s'.partitions, t).Keys == Inner(s.partitions, t).Keys;
    }
  }

  lemma DeleteKeepsCounts(s: TopicState, name: Str)
    requires CountsExact(s)
    ensures CountsExact(ApplyDeleteTopic(s, name))
  {
    var s' := ApplyDeleteTopic(s, name);
    forall t | t in s'.topics ensures s'.topics[t].partitions == TopicPartitionCount(s', t) {
      InnerWithout(s.partitions, name, t);
    }
  }

  lemma TopicKeepsCounts(s: TopicState, t: TopicRecord)
    requires CountsExact(s)
    ensures CountsExact(ApplyTopic(s, t))
  {
  }

  lemma CountsFrame(s: TopicState, r: Record)
    requires !TouchesPartitions(r) && !r.V1Topic?
    ensures TopicStep(s, r).partitions == s.partitions && TopicStep(s, r).topics == s.topics
  {
  }

  lemma KeepsCountsExact(x: Image, r: Record)
    requires CountsExact(x.topics) && Validate(x, r).None?
    ensures CountsExact(TopicStep(x.topics, r))
  {
    var s := x.topics;
    if r.V1Topic? { TopicKeepsCounts(s, r.topic); }
    else if !TouchesPartitions(r) { CountsFrame(s, r); }
    else if r.V1Partition? { PartitionKeepsCounts(s, r.partition); }
    else if r.V1PartitionUpdate? { PartitionKeepsCounts(s, r.update.partition); }
    else if r.V1DeleteTopic? { DeleteKeepsCounts(s, r.name); }
    else { DirAssignmentKeepsCounts(s, r.topicName, r.index, r.replica, r.directory); }
  }

  /** `topic_ids` is the exact inverse of `topics`. */
  ghost predicate IdsExact(s: TopicState)
  {
    IdsNameTopics(s)
    && (forall n :: n in s.topics ==> s.topics[n].topicId in s.ids && s.ids[s.topics[n].topicId] == n)
  }

  /** No other live topic holds the id of the topic this record creates or
      updates. `validate` does not test this. */
  predicate IdIsFree(s: TopicState, r: Record)
  {
    r.V1Topic? ==> forall n :: n in s.topics && n != r.topic.name ==> s.topics[n].topicId != r.topic.topicId
  }

  lemma TopicKeepsIdsExact(s: TopicState, t: TopicRecord)
    requires IdsExact(s)
    ensures IdsExact(ApplyTopic(s, t)) <==> IdIsFree(s, V1Topic(t))
  {
    var s' := ApplyTopic(s, t);
    TopicKeepsIds(s, t);
    if n :| n in s.topics && n != t.name && s.topics[n].topicId == t.topicId {
      assert s'.topics[n].topicId == t.topicId && s'.ids[t.topicId] == t.name;
    }
  }

  lemma PartitionKeepsIdsExact(s: TopicState, p: PartitionRecord)
    requires IdsExact(s)
    ensures IdsExact(ApplyPartition(s, p))
  {
  }

  lemma DeleteKeepsIdsExact(s: TopicState, name: Str)
    requires IdsExact(s)
    ensures IdsExact(ApplyDeleteTopic(s, name))
  {
    DeleteKeepsIds(s, name);
  }

  /** The index stays exact exactly when the record's id is free. */
  lemma KeepsIdsExact(s: TopicState, r: Record)
    requires IdsExact(s)
    ensures IdsExact(TopicStep(s, r)) <==> IdIsFree(s, r)
  {
    if !TouchesTopics(r) { TopicsFrame(s, r); }
    else if r.V1Topic? { TopicKeepsIdsExact(s, r.topic); }
    else if r.V1Partition? { PartitionKeepsIdsExact(s, r.partition); }
    else if r.V1PartitionUpdate? { PartitionKeepsIdsExact(s, r.update.partition); }
    else { DeleteKeepsIdsExact(s, r.name); }
  }

  /** A log whose records were each admitted by `validate`, and none of which is the
      snapshot-only epoch pin. */
  predicate Validated(x: Image, log: seq<Record>)
    decreases |log|
  {
    log == [] ||
    (Validate(x, log[0]).None? && !log[0].V1FeaturesEpoch? && Validated(Apply(x, log[0]), log[1..]))
  }

  /** Each record found its topic id free. */
  predicate IdsFree(x: Image, log: seq<Record>)
    decreases |log|
  {
    log == [] || (IdIsFree(x.topics, log[0]) && IdsFree(Apply(x, log[0]), log[1..]))
  }

  /** -1 until the first feature record, and never below zero after it. */
  ghost predicate EpochSane(s: ControlState)
  {
    s.featuresEpoch >= -1 && (|s.featureLevels| > 0 ==> s.featuresEpoch >= 0)
  }

  /** What holds after every log that `validate` admits. */
  ghost predicate ReachableInv(x: Image)
  {
    AnyLogInv(x) && CountsExact(x.topics) && EpochSane(x.control)
  }

  lemma {:induction false} ValidatedLog(x: Image, log: seq<Record>)
    requires ReachableInv(x) && Validated(x, log)
    ensures ReachableInv(Replay(x, log))
    decreases |log|
  {
    if log != [] {
      KeepsReachable(x, log[0]);
      ValidatedLog(Apply(x, log[0]), log[1..]);
    }
  }

  lemma KeepsReachable(x: Image, r: Record)
    requires ReachableInv(x) && Validate(x, r).None? && !r.V1FeaturesEpoch?
    ensures ReachableInv(Apply(x, r))
  {
    KeepsAnyLogInv(x, r);
    KeepsCountsExact(x, r);
    assert EpochSane(ControlStep(x.control, r));
  }

  /** A log keeps the id index exact as long as each topic id was free. */
  lemma {:induction false} FreeIdsStayExact(x: Image, log: seq<Record>)
    requires IdsExact(x.topics) && IdsFree(x, log)
    ensures IdsExact(Replay(x, log).topics)
    decreases |log|
  {
    if log != [] {
      KeepsIdsExact(x.topics, log[0]);
      FreeIdsStayExact(Apply(x, log[0]), log[1..]);
    }
  }

  lemma NewIsReachable(clusterId: Uuid)
    ensures ReachableInv(New(clusterId)) && IdsExact(New(clusterId).topics)
  {
  }

  // ----- nothing outlives its topic -----

  /** Eligible replicas and recovery states belong to stored partitions, and configs
      to live topics. */
  ghost predicate NoOrphans(s: TopicState)
  {
    && (forall t, i :: InNest(s.elr, t, i) ==> InNest(s.partitions, t, i))
    && (forall t, i :: InNest(s.recovery, t, i) ==> InNest(s.partitions, t, i))
    && (forall t :: t in s.configs ==> t in s.topics)
  }

  lemma PartitionKeepsNoOrphans(s: TopicState, p: PartitionRecord)
    requires NoOrphans(s)
    ensures NoOrphans(ApplyPartition(s, p))
    ensures InNest(ApplyPartition(s, p).partitions, p.topic, p.partition)
  {
  }

  lemma ElrKeepsNoOrphans(s: TopicState, topic: Str, index: int, eligible: seq<NodeId>, lastKnown: seq<NodeId>)
    requires NoOrphans(s) && InNest(s.partitions, topic, index)
    ensures NoOrphans(ApplyElr(s, topic, index, eligible, lastKnown))
  {
    NestPutEntries(s.elr, topic, index, (eligible, lastKnown));
    NestDropEntries(s.elr, topic, index);
  }

  lemma RecoveryKeepsNoOrphans(s: TopicState, topic: Str, index: int, state: LeaderRecoveryState)
    requires NoOrphans(s) && InNest(s.partitions, topic, index)
    ensures NoOrphans(ApplyRecovery(s, topic, index, state))
  {
    NestPutEntries(s.recovery, topic, index, state);
    NestDropEntries(s.recovery, topic, index);
  }

  lemma UpdateKeepsNoOrphans(s: TopicState, u: PartitionUpdateRecord)
    requires NoOrphans(s)
    ensures NoOrphans(ApplyPartitionUpdate(s, u))
  {
    var p := u.partition;
    var stored := ApplyPartition(s, p);
    PartitionKeepsNoOrphans(s, p);
    if u.eligible.Some? && u.lastKnown.Some? {
      ElrKeepsNoOrphans(stored, p.topic, p.partition, u.eligible.value, u.lastKnown.value);
      stored := ApplyElr(stored, p.topic, p.partition, u.eligible.value, u.lastKnown.value);
    }
    if u.recovery.Some? { RecoveryKeepsNoOrphans(stored, p.topic, p.partition, u.recovery.value); }
  }

  lemma DeleteKeepsNoOrphans(s: TopicState, name: Str)
    requires NoOrphans(s)
    ensures NoOrphans(ApplyDeleteTopic(s, name))
  {
    var s' := ApplyDeleteTopic(s, name);
    assert forall t, i :: InNest(s'.elr, t, i) ==> InNest(s.elr, t, i) && t != name;
    assert forall t, i :: InNest(s'.recovery, t, i) ==> InNest(s.recovery, t, i) && t != name;
  }

  lemma AssignKeepsNoOrphans(s: TopicState, topic: Str, index: int, replica: NodeId, directory: Uuid)
    requires NoOrphans(s)
    ensures NoOrphans(ApplyDirAssignment(s, topic, index, replica, directory))
  {
  }

  /** Admission is what keeps a sidecar or a config from naming a topic or partition
      that is not there, and the delete cascade drops all of them. */
  lemma KeepsNoOrphans(x: Image, r: Record)
    requires NoOrphans(x.topics) && Validate(x, r).None?
    ensures NoOrphans(TopicStep(x.topics, r))
  {
    var s := x.topics;
    if r.V1Partition? { PartitionKeepsNoOrphans(s, r.partition); }
    else if r.V1PartitionUpdate? { UpdateKeepsNoOrphans(s, r.update); }
    else if r.V1PartitionElr? { ElrKeepsNoOrphans(s, r.topicName, r.index, r.eligible, r.lastKnown); }
    else if r.V1PartitionRecovery? { RecoveryKeepsNoOrphans(s, r.topicName, r.index, r.state); }
    else if r.V1DeleteTopic? { DeleteKeepsNoOrphans(s, r.name); }
    else if r.V1PartitionDirAssignment? { AssignKeepsNoOrphans(s, r.topicName, r.index, r.replica, r.directory); }
  }

  lemma {:induction false} ValidatedLogLeavesNoOrphans(x: Image, log: seq<Record>)
    requires NoOrphans(x.topics) && Validated(x, log)
    ensures NoOrphans(Replay(x, log).topics)
    decreases |log|
  {
    if log != [] {
      KeepsNoOrphans(x, log[0]);
      ValidatedLogLeavesNoOrphans(Apply(x, log[0]), log[1..]);
    }
  }

  /** On no log, admitted or not, does the next producer id fall back. */
  lemma {:induction false} ProducerIdsNeverFallBack(x: Image, log: seq<Record>)
    ensures NextProducerId(Replay(x, log).control) >= NextProducerId(x.control)
    decreases |log|
  {
    if log != [] {
      assert NextProducerId(ControlStep(x.control, log[0])) >= NextProducerId(x.control);
      ProducerIdsNeverFallBack(Apply(x, log[0]), log[1..]);
    }
  }
}
