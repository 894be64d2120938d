/** `crates/metadata/src/image.rs`: the metadata image, the step `Apply` that
    every replica takes for a committed record, and the admission test
    `Validate`. */
module Images {
  import opened Base
  import opened Collections
  import opened MetadataRecords

  type Elr = (seq<NodeId>, seq<NodeId>)

  /** The state of topics and partitions, all of it dropped with the topic. */
  datatype TopicState = TopicState(
    topics: map<Str, TopicRecord>,
    ids: map<Uuid, Str>,
    partitions: map<Str, map<int, PartitionRecord>>,
    nextOffsets: map<Str, map<int, int>>,
    elr: map<Str, map<int, Elr>>,
    recovery: map<Str, map<int, LeaderRecoveryState>>,
    configs: map<Str, Configs>)

  datatype NodeState = NodeState(
    brokers: map<NodeId, BrokerRegistrationRecord>,
    controllers: map<NodeId, ControllerRegistrationRecord>)

  datatype ConfigState = ConfigState(
    brokerConfigs: map<NodeId, Configs>,
    clientMetrics: map<Str, Configs>,
    groupConfigs: map<Str, Configs>,
    clientQuotas: map<EntityKey, map<Str, int>>)

  datatype SecurityState = SecurityState(
    scram: map<(Str, nat), ScramCredential>,
    acls: set<AclEntry>,
    tokens: map<Str, DelegationToken>)

  datatype GuardState = GuardState(
    freezesLiteral: map<Str, TopicFreezeRecord>,
    freezesPrefixed: map<Str, TopicFreezeRecord>,
    breakGlass: map<Uuid, BreakGlassProposalRecord>)

  datatype ControlState = ControlState(
    producerIds: Option<ProducerIdsRecord>,
    kraftVersion: nat,
    voters: seq<nat>,
    featureLevels: map<Str, int>,
    featuresEpoch: int)

  /** The fields of `MetadataImage`, in six groups that no record couples. */
  datatype Image = Image(
    clusterId: Uuid,
    topics: TopicState,
    nodes: NodeState,
    configs: ConfigState,
    security: SecurityState,
    guard: GuardState,
    control: ControlState)

  /** `MetadataImage::new`. */
  function New(clusterId: Uuid): Image
  {
    Image(clusterId,
          TopicState(map[], map[], map[], map[], map[], map[], map[]),
          NodeState(map[], map[]),
          ConfigState(map[], map[], map[], map[]),
          SecurityState(map[], {}, map[]),
          GuardState(map[], map[], map[]),
          ControlState(None, 0, [], map[], -1))
  }

  // ----- readers -----

  function TopicPartitionCount(t: TopicState, topic: Str): int
  {
    Min(|Inner(t.partitions, topic)|, I32_MAX)
  }

  function NextProducerId(c: ControlState): int
  {
    if c.producerIds.None? then 0 else c.producerIds.value.nextProducerId
  }

  predicate RegisteredAt(s: NodeState, node: NodeId, epoch: int)
  {
    node in s.brokers && s.brokers[node].brokerEpoch == epoch
  }

  // ----- the entity key of a client quota -----

  function InsertEntity(e: (Str, Option<Str>), key: EntityKey): EntityKey
  {
    if key == [] || StrLeq(e.0, key[0].0) then [e] + key
    else [key[0]] + InsertEntity(e, key[1..])
  }

  /** `canonicalize_entity`: the stable sort by entity type. */
  function Canonical(key: EntityKey): EntityKey
  {
    if key == [] then [] else InsertEntity(key[0], Canonical(key[1..]))
  }

  // ----- apply: topics and partitions -----

  function ApplyTopic(s: TopicState, t: TopicRecord): (r: TopicState)
    ensures r == s.(topics := r.topics, ids := r.ids)
  {
    var known := t.name in s.topics;
    var ids := if known && s.topics[t.name].topicId != t.topicId
               then s.ids - {s.topics[t.name].topicId} else s.ids;
    var count := if known then s.topics[t.name].partitions else 0;
    s.(ids := ids[t.topicId := t.name],
       topics := s.topics[t.name := t.(partitions := count)])
  }

  function ApplyDeleteTopic(s: TopicState, name: Str): TopicState
  {
    TopicState(
      s.topics - {name},
      if name in s.topics then s.ids - {s.topics[name].topicId} else s.ids,
      s.partitions - {name},
      s.nextOffsets - {name},
      s.elr - {name},
      s.recovery - {name},
      s.configs - {name})
  }

  /** The topic after one of its partitions was stored: a new partition counts,
      and the replication factor follows the partition. */
  function CountPartition(t: TopicRecord, p: PartitionRecord, isNew: bool): TopicRecord
  {
    t.(partitions := if isNew then Min(t.partitions + 1, I32_MAX) else t.partitions,
       replicationFactor := if |p.replicas| <= I16_MAX then |p.replicas| else t.replicationFactor)
  }

  function ApplyPartition(s: TopicState, p: PartitionRecord): (r: TopicState)
    ensures r == s.(topics := r.topics, partitions := r.partitions)
  {
    var isNew := !InNest(s.partitions, p.topic, p.partition);
    s.(partitions := NestPut(s.partitions, p.topic, p.partition, p),
       topics := if p.topic in s.topics
                 then s.topics[p.topic := CountPartition(s.topics[p.topic], p, isNew)]
                 else s.topics)
  }

  function ApplyElr(s: TopicState, topic: Str, index: int, eligible: seq<NodeId>, lastKnown: seq<NodeId>)
    : (r: TopicState)
    ensures r == s.(elr := r.elr)
  {
    s.(elr := if eligible == [] && lastKnown == [] then NestDrop(s.elr, topic, index)
              else NestPut(s.elr, topic, index, (eligible, lastKnown)))
  }

  function ApplyRecovery(s: TopicState, topic: Str, index: int, state: LeaderRecoveryState): (r: TopicState)
    ensures r == s.(recovery := r.recovery)
  {
    s.(recovery := if state.Recovered? then NestDrop(s.recovery, topic, index)
                   else NestPut(s.recovery, topic, index, state))
  }

  function ApplyPartitionUpdate(s: TopicState, u: PartitionUpdateRecord): (r: TopicState)
    ensures r == ApplyPartition(s, u.partition).(elr := r.elr, recovery := r.recovery)
  {
    var p := u.partition;
    var stored := ApplyPartition(s, p);
    var withElr := if u.eligible.Some? && u.lastKnown.Some?
                   then ApplyElr(stored, p.topic, p.partition, u.eligible.value, u.lastKnown.value) else stored;
    if u.recovery.Some? then ApplyRecovery(withElr, p.topic, p.partition, u.recovery.value) else withElr
  }

  /** The first index of `r` in `s`, or `|s|`. */
  function Position(s: seq<NodeId>, r: NodeId): (k: nat)
    ensures k <= |s| && (k < |s| ==> s[k] == r)
    ensures forall j :: 0 <= j < k ==> s[j] != r
  {
    if s == [] then 0 else if s[0] == r then 0 else 1 + Position(s[1..], r)
  }

  /** `directories` grown with `MIGRATING` to one entry per replica. */
  function Grown(directories: seq<Uuid>, n: nat): (r: seq<Uuid>)
    ensures |r| == if |directories| < n then n else |directories|
  {
    if |directories| < n then directories + seq(n - |directories|, _ => MIGRATING) else directories
  }

  function AssignDirectory(p: PartitionRecord, replica: NodeId, directory: Uuid): PartitionRecord
  {
    var slot := Position(p.replicas, replica);
    if slot == |p.replicas| then p
    else p.(directories := Grown(p.directories, |p.replicas|)[slot := directory])
  }

  function ApplyDirAssignment(s: TopicState, topic: Str, index: int, replica: NodeId, directory: Uuid)
    : (r: TopicState)
    ensures r == s.(partitions := r.partitions)
  {
    if !InNest(s.partitions, topic, index) then s
    else s.(partitions := NestPut(s.partitions, topic, index,
                                  AssignDirectory(s.partitions[topic][index], replica, directory)))
  }

  function ApplyOffsetAdvance(s: TopicState, topic: Str, index: int, count: int): (r: TopicState)
    ensures r == s.(nextOffsets := r.nextOffsets)
  {
    var current := if InNest(s.nextOffsets, topic, index) then s.nextOffsets[topic][index] else 0;
    s.(nextOffsets := NestPut(s.nextOffsets, topic, index, WrapI64(current + count)))
  }

  /** A whole-map config record: an empty map clears the resource. */
  function PutConfigs(m: map<Str, Configs>, resource: Str, configs: Configs): map<Str, Configs>
  {
    if |configs| == 0 then m - {resource} else m[resource := configs]
  }

  function TopicStep(s: TopicState, rec: Record): TopicState
  {
    match rec
    case V1Topic(t) => ApplyTopic(s, t)
    case V1Partition(p) => ApplyPartition(s, p)
    case V1DeleteTopic(name) => ApplyDeleteTopic(s, name)
    case V1TopicConfig(resource, configs) => s.(configs := PutConfigs(s.configs, resource, configs))
    case V1PartitionDirAssignment(topic, index, replica, directory) =>
      ApplyDirAssignment(s, topic, index, replica, directory)
    case V1PartitionOffsetAdvance(topic, index, count) => ApplyOffsetAdvance(s, topic, index, count)
    case V1PartitionElr(topic, index, eligible, lastKnown) => ApplyElr(s, topic, index, eligible, lastKnown)
    case V1PartitionRecovery(topic, index, state) => ApplyRecovery(s, topic, index, state)
    case V1PartitionUpdate(u) => ApplyPartitionUpdate(s, u)
    case _ => s
  }

  // ----- apply: the other groups -----

  function NodeStep(s: NodeState, rec: Record): NodeState
  {
    match rec
    case V1BrokerRegistration(b) => s.(brokers := s.brokers[b.nodeId := b])
    case V1BrokerRegistrationChange(c) =>
      if RegisteredAt(s, c.nodeId, c.brokerEpoch)
      then s.(brokers := s.brokers[c.nodeId := c.AppliedTo(s.brokers[c.nodeId])]) else s
    case V1UnregisterBroker(node, epoch) =>
      if RegisteredAt(s, node, epoch) then s.(brokers := s.brokers - {node}) else s
    case V1ControllerRegistration(c) => s.(controllers := s.controllers[c.nodeId := c])
    case V1UnregisterController(node) => s.(controllers := s.controllers - {node})
    case _ => s
  }

  /** One key of a config table; a removal leaves the inner table in place,
      empty or not. */
  function SetKey<A, V>(m: map<A, map<Str, V>>, a: A, name: Str, value: Option<V>): map<A, map<Str, V>>
  {
    m[a := if value.Some? then Inner(m, a)[name := value.value] else Inner(m, a) - {name}]
  }

  function ConfigStep(s: ConfigState, rec: Record): ConfigState
  {
    match rec
    case V1BrokerConfig(node, name, value) => s.(brokerConfigs := SetKey(s.brokerConfigs, node, name, value))
    case V1ClientMetricsConfig(resource, configs) =>
      s.(clientMetrics := PutConfigs(s.clientMetrics, resource, configs))
    case V1GroupConfig(resource, configs) => s.(groupConfigs := PutConfigs(s.groupConfigs, resource, configs))
    case V1ClientQuota(entity, name, quota) =>
      s.(clientQuotas := SetKey(s.clientQuotas, Canonical(entity), name, quota))
    case _ => s
  }

  function SecurityStep(s: SecurityState, rec: Record): SecurityState
  {
    match rec
    case V1ScramCredential(user, c) => s.(scram := s.scram[(user, c.mechanism) := c])
    case V1DeleteScramCredential(user, mechanism) => s.(scram := s.scram - {(user, mechanism)})
    case V1AccessControlEntry(e) => s.(acls := s.acls + {e})
    case V1DeleteAccessControlEntry(f) => s.(acls := set e | e in s.acls && !f.Matches(e))
    case V1DelegationToken(t) => s.(tokens := s.tokens[t.tokenId := t])
    case V1DeleteDelegationToken(id) => s.(tokens := s.tokens - {id})
    case _ => s
  }

  function ApplyFreeze(s: GuardState, f: TopicFreezeRecord): GuardState
  {
    match (f.patternType, f.frozen)
    case (Literal, true) => s.(freezesLiteral := s.freezesLiteral[f.scope := f])
    case (Literal, false) => s.(freezesLiteral := s.freezesLiteral - {f.scope})
    case (Prefixed, true) => s.(freezesPrefixed := s.freezesPrefixed[f.scope := f])
    case (Prefixed, false) => s.(freezesPrefixed := s.freezesPrefixed - {f.scope})
  }

  function GuardStep(s: GuardState, rec: Record): GuardState
  {
    match rec
    case V1TopicFreeze(f) => ApplyFreeze(s, f)
    case V1BreakGlassProposal(p) => s.(breakGlass := s.breakGlass[p.proposalId := p])
    case V1DeleteBreakGlassProposal(id) => s.(breakGlass := s.breakGlass - {id})
    case _ => s
  }

  function ControlStep(s: ControlState, rec: Record): ControlState
  {
    match rec
    case V1ProducerIds(ids) =>
      if ids.nextProducerId > NextProducerId(s) then s.(producerIds := Some(ids)) else s
    case V1KRaftVersion(v) => s.(kraftVersion := v)
    case V1Voters(voters) => s.(voters := voters)
    case V1FeatureLevel(name, level) =>
      s.(featureLevels := if level == 0 then s.featureLevels - {name} else s.featureLevels[name := level],
         featuresEpoch := Max(SaturateI64(s.featuresEpoch + 1), 0))
    case V1FeaturesEpoch(epoch) => s.(featuresEpoch := epoch)
    case _ => s
  }

  /** `apply`: one committed record. */
  function Apply(x: Image, rec: Record): Image
  {
    Image(x.clusterId, TopicStep(x.topics, rec), NodeStep(x.nodes, rec), ConfigStep(x.configs, rec),
          SecurityStep(x.security, rec), GuardStep(x.guard, rec), ControlStep(x.control, rec))
  }

  /** The committed log from `x` on. */
  function Replay(x: Image, log: seq<Record>): Image
    decreases |log|
  {
    if log == [] then x else Replay(Apply(x, log[0]), log[1..])
  }

  /** `from_records`. */
  function FromRecords(clusterId: Uuid, records: seq<Record>): Image
  {
    Replay(New(clusterId), records)
  }

  /** Records applied in order, by any step: the whole image's, or one group's. */
  function Fold<S>(step: (S, Record) -> S, s: S, rs: seq<Record>): S
    decreases |rs|
  {
    if rs == [] then s else Fold(step, step(s, rs[0]), rs[1..])
  }

  lemma {:induction false} FoldConcat<S>(step: (S, Record) -> S, s: S, a: seq<Record>, b: seq<Record>)
    ensures Fold(step, s, a + b) == Fold(step, Fold(step, s, a), b)
    decreases |a|
  {
    if a == [] { assert a + b == b; }
    else {
      FoldConcat(step, step(s, a[0]), a[1..], b);
      assert (a + b)[0] == a[0] && (a + b)[1..] == a[1..] + b;
    }
  }

  lemma {:induction false} ReplayIsFold(x: Image, log: seq<Record>)
    ensures Replay(x, log) == Fold(Apply, x, log)
    decreases |log|
  {
    if log != [] { ReplayIsFold(Apply(x, log[0]), log[1..]); }
  }

  lemma ReplayConcat(x: Image, a: seq<Record>, b: seq<Record>)
    ensures Replay(x, a + b) == Replay(Replay(x, a), b)
  {
    ReplayIsFold(x, a + b);
    ReplayIsFold(x, a);
    ReplayIsFold(Replay(x, a), b);
    FoldConcat(Apply, x, a, b);
  }

  lemma ReplayThree(x: Image, a: Record, b: Record, c: Record)
    ensures Replay(x, [a, b, c]) == Apply(Apply(Apply(x, a), b), c)
  {
    var y := Apply(x, a);
    var z := Apply(y, b);
    assert [a, b, c][1..] == [b, c] && [b, c][1..] == [c] && [c][1..] == [];
    assert Replay(z, [c]) == Apply(z, c);
    assert Replay(y, [b, c]) == Replay(z, [c]);
  }

  // ----- validate -----

  datatype MetadataError =
    | TopicExists(topic: Str)
    | UnknownTopic(topic: Str)
    | InvalidRecord
    | EmptyFreezeScope
    | ApprovalsNotAnExtension(id: Uuid)
    | ProposalConsumed(id: Uuid)
    | ProposalWithdrawn(id: Uuid)

  type Verdict = Option<MetadataError>

  function Check(ok: bool, e: MetadataError): Verdict { if ok then None else Some(e) }

  function ValidateProposal(s: GuardState, p: BreakGlassProposalRecord): Verdict
  {
    if p.proposalId !in s.breakGlass then None
    else
      var stored := s.breakGlass[p.proposalId];
      if stored.consumedAtMs != 0 then Some(ProposalConsumed(p.proposalId))
      else if stored.withdrawn then Some(ProposalWithdrawn(p.proposalId))
      else Check(stored.approvals <= p.approvals, ApprovalsNotAnExtension(p.proposalId))
  }

  function ValidateTopic(s: TopicState, t: TopicRecord): Verdict
  {
    if t.name !in s.topics then None
    else
      var existing := s.topics[t.name];
      Check(existing.topicId == t.topicId
            && existing.replicationFactor == t.replicationFactor
            && t.partitions > TopicPartitionCount(s, t.name),
            TopicExists(t.name))
  }

  /** `validate`: `None` admits the record. */
  function Validate(x: Image, rec: Record): Verdict
  {
    var s := x.topics;
    match rec
    case V1Topic(t) => ValidateTopic(s, t)
    case V1Partition(p) => Check(p.topic in s.topics, UnknownTopic(p.topic))
    case V1PartitionUpdate(u) => Check(u.partition.topic in s.topics, UnknownTopic(u.partition.topic))
    case V1PartitionElr(topic, index, _, _) => Check(InNest(s.partitions, topic, index), UnknownTopic(topic))
    case V1PartitionRecovery(topic, index, _) => Check(InNest(s.partitions, topic, index), UnknownTopic(topic))
    case V1DeleteTopic(name) => Check(name in s.topics, UnknownTopic(name))
    case V1TopicConfig(resource, _) => Check(resource in s.topics, UnknownTopic(resource))
    case V1BrokerRegistrationChange(c) => Check(RegisteredAt(x.nodes, c.nodeId, c.brokerEpoch), InvalidRecord)
    case V1UnregisterBroker(node, epoch) => Check(RegisteredAt(x.nodes, node, epoch), InvalidRecord)
    case V1UnregisterController(node) => Check(node in x.nodes.controllers, InvalidRecord)
    case V1TopicFreeze(f) => Check(f.scope != [], EmptyFreezeScope)
    case V1BreakGlassProposal(p) => ValidateProposal(x.guard, p)
    case V1ProducerIds(ids) =>
      Check(ids.nextProducerId > NextProducerId(x.control)
            && RegisteredAt(x.nodes, ids.brokerId, ids.brokerEpoch),
            InvalidRecord)
    case _ => None
  }
}
