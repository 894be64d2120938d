/** `crates/metadata/src/image.rs`: what a reader of the image finds after `apply`, one
    entry at a time, and over whole logs. */
module ImageReaders {
  import opened Base
  import opened Collections
  import opened MetadataRecords
  import opened Images
  import opened ImageSnapshot
  import Chunks

  function At<K, V>(m: map<K, V>, k: K): Option<V> { if k in m then Some(m[k]) else None }

  function At2<A, B, V>(m: map<A, map<B, V>>, a: A, b: B): Option<V>
  {
    if InNest(m, a, b) then Some(m[a][b]) else None
  }

  lemma PutSeen<A, B, V>(m: map<A, map<B, V>>, a: A, b: B, v: V, a': A, b': B)
    ensures At2(NestPut(m, a, b, v), a', b') == if a' == a && b' == b then Some(v) else At2(m, a', b')
  {
  }

  lemma DropSeen<A, B, V>(m: map<A, map<B, V>>, a: A, b: B, a': A, b': B)
    ensures At2(NestDrop(m, a, b), a', b') == if a' == a && b' == b then None else At2(m, a', b')
  {
    if a in m && a' == a {
      var rest := m[a] - {b};
      assert b' in rest <==> b' in m[a] && b' != b;
      if |rest| == 0 { assert rest == map[]; }
    }
  }

  // ----- configs and quotas -----

  /** A broker config record writes or removes one key of one broker. */
  lemma BrokerConfigSeen(x: Image, rec: Record, node: NodeId, name: Str)
    ensures At2(Apply(x, rec).configs.brokerConfigs, node, name)
         == if rec.V1BrokerConfig? && rec.nodeId == node && rec.configName == name then rec.configValue
            else At2(x.configs.brokerConfigs, node, name)
  {
    ApplyInGroup(x, rec);
  }

  /** A quota record writes or removes one key of one entity, however its parts are ordered. */
  lemma QuotaSeen(x: Image, rec: Record, entity: EntityKey, name: Str)
    ensures At2(Apply(x, rec).configs.clientQuotas, entity, name)
         == if rec.V1ClientQuota? && Canonical(rec.entity) == entity && rec.configName == name then rec.quota
            else At2(x.configs.clientQuotas, entity, name)
  {
    ApplyInGroup(x, rec);
  }

  /** A whole-map record decides every key of its resource. */
  lemma TopicConfigSeen(x: Image, rec: Record, topic: Str, name: Str)
    ensures At2(Apply(x, rec).topics.configs, topic, name)
         == if rec.V1TopicConfig? && rec.resource == topic then At(rec.configs, name)
            else if rec == V1DeleteTopic(topic) then None
            else At2(x.topics.configs, topic, name)
  {
    ApplyInGroup(x, rec);
    if rec.V1TopicConfig? && |rec.configs| == 0 { assert rec.configs == map[]; }
  }

  lemma ClientMetricsSeen(x: Image, rec: Record, resource: Str, name: Str)
    ensures At2(Apply(x, rec).configs.clientMetrics, resource, name)
         == if rec.V1ClientMetricsConfig? && rec.resource == resource then At(rec.configs, name)
            else At2(x.configs.clientMetrics, resource, name)
  {
    ApplyInGroup(x, rec);
    if rec.V1ClientMetricsConfig? && |rec.configs| == 0 { assert rec.configs == map[]; }
  }

  lemma GroupConfigSeen(x: Image, rec: Record, resource: Str, name: Str)
    ensures At2(Apply(x, rec).configs.groupConfigs, resource, name)
         == if rec.V1GroupConfig? && rec.resource == resource then At(rec.configs, name)
            else At2(x.configs.groupConfigs, resource, name)
  {
    ApplyInGroup(x, rec);
    if rec.V1GroupConfig? && |rec.configs| == 0 { assert rec.configs == map[]; }
  }

  // ----- topics and partitions -----

  /** The partition that a record stores whole. */
  function StoredBy(rec: Record): Option<PartitionRecord>
  {
    match rec
    case V1Partition(p) => Some(p)
    case V1PartitionUpdate(u) => Some(u.partition)
    case _ => None
  }

  predicate Stores(rec: Record, topic: Str, index: int)
  {
    StoredBy(rec).Some? && StoredBy(rec).value.topic == topic && StoredBy(rec).value.partition == index
  }

  /** A topic record replaces the topic but for its count. A stored partition gives a live
      topic its replica count, where that fits, and counts if it is new. */
  lemma TopicSeen(x: Image, rec: Record, name: Str)
    ensures var old_, new_ := At(x.topics.topics, name), At(Apply(x, rec).topics.topics, name);
            if rec.V1Topic? && rec.topic.name == name then
              new_ == Some(rec.topic.(partitions := if old_.Some? then old_.value.partitions else 0))
            else if rec == V1DeleteTopic(name) then new_ == None
            else if old_.Some? && StoredBy(rec).Some? && StoredBy(rec).value.topic == name then
              var p := StoredBy(rec).value;
              && new_.Some?
              && new_.value == old_.value.(partitions := new_.value.partitions, replicationFactor := new_.value.replicationFactor)
              && new_.value.replicationFactor == (if |p.replicas| <= I16_MAX then |p.replicas| else old_.value.replicationFactor)
              && new_.value.partitions
                 == (if InNest(x.topics.partitions, name, p.partition) then old_.value.partitions
                     else Min(old_.value.partitions + 1, I32_MAX))
            else new_ == old_
  {
    ApplyInGroup(x, rec);
  }

  /** The id index: a topic record enters its id and takes out the one the topic had; a
      delete takes out the topic's. */
  lemma TopicIdSeen(x: Image, rec: Record, id: Uuid)
    ensures At(Apply(x, rec).topics.ids, id)
         == if rec.V1Topic? && rec.topic.topicId == id then Some(rec.topic.name)
            else if rec.V1Topic? && rec.topic.name in x.topics.topics && x.topics.topics[rec.topic.name].topicId == id then None
            else if rec.V1DeleteTopic? && rec.name in x.topics.topics && x.topics.topics[rec.name].topicId == id then None
            else At(x.topics.ids, id)
  {
    ApplyInGroup(x, rec);
  }

  lemma PartitionSeen(x: Image, rec: Record, topic: Str, index: int)
    ensures var old_, new_ := At2(x.topics.partitions, topic, index), At2(Apply(x, rec).topics.partitions, topic, index);
            if Stores(rec, topic, index) then new_ == StoredBy(rec)
            else if rec == V1DeleteTopic(topic) then new_ == None
            else if rec.V1PartitionDirAssignment? && rec.topicName == topic && rec.index == index && old_.Some? then
              new_ == Some(AssignDirectory(old_.value, rec.replica, rec.directory))
            else new_ == old_
  {
    ApplyInGroup(x, rec);
    if StoredBy(rec).Some? {
      var p := StoredBy(rec).value;
      StoredSeen(x.topics, rec, p);
      PutSeen(x.topics.partitions, p.topic, p.partition, p, topic, index);
    } else if rec.V1PartitionDirAssignment? && InNest(x.topics.partitions, rec.topicName, rec.index) {
      var q := AssignDirectory(x.topics.partitions[rec.topicName][rec.index], rec.replica, rec.directory);
      PutSeen(x.topics.partitions, rec.topicName, rec.index, q, topic, index);
    }
  }

  lemma StoredSeen(s: TopicState, rec: Record, p: PartitionRecord)
    requires StoredBy(rec) == Some(p)
    ensures TopicStep(s, rec).partitions == NestPut(s.partitions, p.topic, p.partition, p)
  {
  }

  /** An assignment names the directory of the first listing of the replica and of nothing
      else; a short list is filled with `MIGRATING` first. */
  lemma DirectorySeen(p: PartitionRecord, replica: NodeId, directory: Uuid, j: nat)
    ensures var q := AssignDirectory(p, replica, directory);
            && q == p.(directories := q.directories)
            && (replica !in p.replicas ==> q == p)
            && (replica in p.replicas ==> |q.directories| == Max(|p.directories|, |p.replicas|))
            && (replica in p.replicas && j < |q.directories| ==>
                  q.directories[j]
                  == if j < |p.replicas| && p.replicas[j] == replica && replica !in p.replicas[..j] then directory
                     else if j < |p.directories| then p.directories[j] else MIGRATING)
  {
    var slot := Position(p.replicas, replica);
    if slot == |p.replicas| {
      assert replica !in p.replicas;
    } else if j < |p.replicas| {
      if j < slot { assert p.replicas[j] != replica; }
      if j > slot { assert p.replicas[..j][slot] == replica; }
      if j == slot { assert forall k :: 0 <= k < j ==> p.replicas[..j][k] == p.replicas[k]; }
    }
  }

  lemma OffsetSeen(x: Image, rec: Record, topic: Str, index: int)
    ensures var old_, new_ := At2(x.topics.nextOffsets, topic, index), At2(Apply(x, rec).topics.nextOffsets, topic, index);
            if rec.V1PartitionOffsetAdvance? && rec.topicName == topic && rec.index == index then
              new_ == Some(WrapI64((if old_.Some? then old_.value else 0) + rec.count))
            else if rec == V1DeleteTopic(topic) then new_ == None
            else new_ == old_
  {
    ApplyInGroup(x, rec);
  }

  lemma ApplyElrSeen(s: TopicState, t: Str, i: int, e: seq<NodeId>, l: seq<NodeId>, topic: Str, index: int)
    ensures At2(ApplyElr(s, t, i, e, l).elr, topic, index)
         == if t == topic && i == index then (if e == [] && l == [] then None else Some((e, l))) else At2(s.elr, topic, index)
  {
    DropSeen(s.elr, t, i, topic, index);
    PutSeen(s.elr, t, i, (e, l), topic, index);
  }

  lemma ApplyRecoverySeen(s: TopicState, t: Str, i: int, state: LeaderRecoveryState, topic: Str, index: int)
    ensures At2(ApplyRecovery(s, t, i, state).recovery, topic, index)
         == if t == topic && i == index then (if state == Recovered then None else Some(Recovering))
            else At2(s.recovery, topic, index)
  {
    DropSeen(s.recovery, t, i, topic, index);
    PutSeen(s.recovery, t, i, state, topic, index);
  }

  /** The two tables after an update. */
  lemma UpdateElr(s: TopicState, u: PartitionUpdateRecord)
    ensures ApplyPartitionUpdate(s, u).elr
         == if u.eligible.Some? && u.lastKnown.Some?
            then ApplyElr(s, u.partition.topic, u.partition.partition, u.eligible.value, u.lastKnown.value).elr else s.elr
  {
  }

  lemma UpdateRecovery(s: TopicState, u: PartitionUpdateRecord)
    ensures ApplyPartitionUpdate(s, u).recovery
         == if u.recovery.Some? then ApplyRecovery(s, u.partition.topic, u.partition.partition, u.recovery.value).recovery
            else s.recovery
  {
  }

  /** The eligible replicas a record writes for a partition, if it does. An update writes them
      only when it has both lists. */
  function ElrBy(rec: Record, topic: Str, index: int): Option<Elr>
  {
    match rec
    case V1PartitionElr(t, i, e, l) => if t == topic && i == index then Some((e, l)) else None
    case V1PartitionUpdate(u) =>
      if Stores(rec, topic, index) && u.eligible.Some? && u.lastKnown.Some? then Some((u.eligible.value, u.lastKnown.value))
      else None
    case _ => None
  }

  lemma ElrSeen(x: Image, rec: Record, topic: Str, index: int)
    ensures var old_, new_ := At2(x.topics.elr, topic, index), At2(Apply(x, rec).topics.elr, topic, index);
            if ElrBy(rec, topic, index).Some? then
              new_ == if ElrBy(rec, topic, index) == Some(([], [])) then None else ElrBy(rec, topic, index)
            else if rec == V1DeleteTopic(topic) then new_ == None
            else new_ == old_
  {
    ApplyInGroup(x, rec);
    if rec.V1PartitionElr? {
      ApplyElrSeen(x.topics, rec.topicName, rec.index, rec.eligible, rec.lastKnown, topic, index);
    } else if rec.V1PartitionUpdate? {
      var u := rec.update;
      UpdateElr(x.topics, u);
      if u.eligible.Some? && u.lastKnown.Some? {
        ApplyElrSeen(x.topics, u.partition.topic, u.partition.partition, u.eligible.value, u.lastKnown.value, topic, index);
      }
    }
  }

  function RecoveryBy(rec: Record, topic: Str, index: int): Option<LeaderRecoveryState>
  {
    match rec
    case V1PartitionRecovery(t, i, state) => if t == topic && i == index then Some(state) else None
    case V1PartitionUpdate(u) => if Stores(rec, topic, index) then u.recovery else None
    case _ => None
  }

  lemma RecoverySeen(x: Image, rec: Record, topic: Str, index: int)
    ensures var old_, new_ := At2(x.topics.recovery, topic, index), At2(Apply(x, rec).topics.recovery, topic, index);
            if RecoveryBy(rec, topic, index).Some? then
              new_ == if RecoveryBy(rec, topic, index) == Some(Recovered) then None else Some(Recovering)
            else if rec == V1DeleteTopic(topic) then new_ == None
            else new_ == old_
  {
    ApplyInGroup(x, rec);
    if rec.V1PartitionRecovery? {
      ApplyRecoverySeen(x.topics, rec.topicName, rec.index, rec.state, topic, index);
    } else if rec.V1PartitionUpdate? {
      var u := rec.update;
      UpdateRecovery(x.topics, u);
      if u.recovery.Some? { ApplyRecoverySeen(x.topics, u.partition.topic, u.partition.partition, u.recovery.value, topic, index); }
    }
  }

  // ----- brokers and controllers -----

  /** A change or an unregistration meets the registration only at its epoch. */
  lemma BrokerSeen(x: Image, rec: Record, node: NodeId)
    ensures var old_, new_ := At(x.nodes.brokers, node), At(Apply(x, rec).nodes.brokers, node);
            if rec.V1BrokerRegistration? && rec.broker.nodeId == node then new_ == Some(rec.broker)
            else if rec.V1UnregisterBroker? && rec.nodeId == node && old_.Some? && old_.value.brokerEpoch == rec.brokerEpoch
            then new_ == None
            else if rec.V1BrokerRegistrationChange? && rec.change.nodeId == node && old_.Some?
                    && old_.value.brokerEpoch == rec.change.brokerEpoch
            then new_.Some? && IsChanged(old_.value, rec.change, new_.value)
            else new_ == old_
  {
    ApplyInGroup(x, rec);
  }

  /** A fence fences, an unfence unfences, a controlled shutdown sticks, and directories are
      replaced only by ones that are named. */
  predicate IsChanged(b: BrokerRegistrationRecord, c: BrokerRegistrationChangeRecord, r: BrokerRegistrationRecord)
  {
    && (r.fenced <==> c.fenced == Fence || (c.fenced == NoFencingChange && b.fenced))
    && (r.inControlledShutdown <==> b.inControlledShutdown || c.inControlledShutdown)
    && (if c.logDirs == [] then r.logDirs == b.logDirs else r.logDirs == c.logDirs)
    && (if c.cordonedLogDirs == None then r.cordonedLogDirs == b.cordonedLogDirs else r.cordonedLogDirs == c.cordonedLogDirs)
    && r == b.(fenced := r.fenced, inControlledShutdown := r.inControlledShutdown, logDirs := r.logDirs,
               cordonedLogDirs := r.cordonedLogDirs)
  }

  lemma ControllerSeen(x: Image, rec: Record, node: NodeId)
    ensures At(Apply(x, rec).nodes.controllers, node)
         == if rec.V1ControllerRegistration? && rec.controller.nodeId == node then Some(rec.controller)
            else if rec == V1UnregisterController(node) then None
            else At(x.nodes.controllers, node)
  {
    ApplyInGroup(x, rec);
  }

  // ----- credentials, entries and tokens -----

  lemma ScramSeen(x: Image, rec: Record, user: Str, mechanism: nat)
    ensures At(Apply(x, rec).security.scram, (user, mechanism))
         == if rec.V1ScramCredential? && rec.user == user && rec.credential.mechanism == mechanism then Some(rec.credential)
            else if rec == V1DeleteScramCredential(user, mechanism) then None
            else At(x.security.scram, (user, mechanism))
  {
    ApplyInGroup(x, rec);
  }

  lemma TokenSeen(x: Image, rec: Record, id: Str)
    ensures At(Apply(x, rec).security.tokens, id)
         == if rec.V1DelegationToken? && rec.token.tokenId == id then Some(rec.token)
            else if rec == V1DeleteDelegationToken(id) then None
            else At(x.security.tokens, id)
  {
    ApplyInGroup(x, rec);
  }

  /** An axis of a filter: left open it fits everything, set it fits what equals it. */
  predicate Fits<T(==)>(axis: Option<T>, value: T)
  {
    match axis
    case None => true
    case Some(v) => v == value
  }

  /** A delete takes out the entries that fit the filter on every axis, and no other. */
  lemma AclSeen(x: Image, rec: Record, e: AclEntry)
    ensures e in Apply(x, rec).security.acls <==>
              if rec.V1AccessControlEntry? then e == rec.entry || e in x.security.acls
              else if rec.V1DeleteAccessControlEntry? then
                e in x.security.acls
                && !(&& Fits(rec.filter.resourceType, e.resourceType) && Fits(rec.filter.resourceName, e.resourceName)
                     && Fits(rec.filter.patternType, e.patternType) && Fits(rec.filter.principal, e.principal)
                     && Fits(rec.filter.host, e.host) && Fits(rec.filter.operation, e.operation)
                     && Fits(rec.filter.permissionType, e.permissionType))
              else e in x.security.acls
  {
    ApplyInGroup(x, rec);
  }

  /** The open filter deletes every entry. */
  lemma OpenFilterDeletesAll(x: Image)
    ensures Apply(x, V1DeleteAccessControlEntry(AclEntryFilter(None, None, None, None, None, None, None))).security.acls == {}
  {
  }

  // ----- freezes, proposals and the control state -----

  lemma FreezeSeen(x: Image, rec: Record, pattern: PatternType, scope: Str)
    ensures var table := (y: Image) => if pattern == Literal then y.guard.freezesLiteral else y.guard.freezesPrefixed;
            At(table(Apply(x, rec)), scope)
            == if rec.V1TopicFreeze? && rec.freeze.patternType == pattern && rec.freeze.scope == scope
               then (if rec.freeze.frozen then Some(rec.freeze) else None)
               else At(table(x), scope)
  {
    ApplyInGroup(x, rec);
  }

  lemma ProposalSeen(x: Image, rec: Record, id: Uuid)
    ensures At(Apply(x, rec).guard.breakGlass, id)
         == if rec.V1BreakGlassProposal? && rec.proposal.proposalId == id then Some(rec.proposal)
            else if rec == V1DeleteBreakGlassProposal(id) then None
            else At(x.guard.breakGlass, id)
  {
    ApplyInGroup(x, rec);
  }

  lemma FeatureSeen(x: Image, rec: Record, name: Str)
    ensures At(Apply(x, rec).control.featureLevels, name)
         == if rec.V1FeatureLevel? && rec.name == name then (if rec.level == 0 then None else Some(rec.level))
            else At(x.control.featureLevels, name)
  {
    ApplyInGroup(x, rec);
  }

  /** The epoch counts the feature records, from zero, up to the largest `i64`. */
  lemma ControlSeen(x: Image, rec: Record)
    ensures var c, c' := x.control, Apply(x, rec).control;
            && c'.kraftVersion == (if rec.V1KRaftVersion? then rec.kraftVersion else c.kraftVersion)
            && c'.voters == (if rec.V1Voters? then rec.voters else c.voters)
            && (if rec.V1FeaturesEpoch? then c'.featuresEpoch == rec.epoch
                else if rec.V1FeatureLevel? then
                  && (c.featuresEpoch < 0 ==> c'.featuresEpoch == 0)
                  && (0 <= c.featuresEpoch < I64_MAX ==> c'.featuresEpoch == c.featuresEpoch + 1)
                  && (c.featuresEpoch == I64_MAX ==> c'.featuresEpoch == I64_MAX)
                else c'.featuresEpoch == c.featuresEpoch)
            && (if rec.V1ProducerIds? && rec.producerIds.nextProducerId > NextProducerId(c)
                then c'.producerIds == Some(rec.producerIds) else c'.producerIds == c.producerIds)
  {
    ApplyInGroup(x, rec);
  }

  // ----- over whole logs -----

  /** Records that a reader does not see leave what it reads. */
  lemma {:induction false} Unseen<V(!new)>(read_: Image -> V, x: Image, log: seq<Record>)
    requires forall y, r :: r in log ==> read_(Apply(y, r)) == read_(y)
    ensures read_(Replay(x, log)) == read_(x)
    decreases |log|
  {
    if log != [] { Unseen(read_, Apply(x, log[0]), log[1..]); }
  }

  /** What a record writes is what is read until another record writes there. */
  lemma LastWriter<V(!new)>(read_: Image -> V, x: Image, before: seq<Record>, rec: Record, after: seq<Record>, v: V)
    requires forall y :: read_(Apply(y, rec)) == v
    requires forall y, r :: r in after ==> read_(Apply(y, r)) == read_(y)
    ensures read_(Replay(x, before + [rec] + after)) == v
  {
    var y := Replay(x, before);
    ReplayConcat(x, before + [rec], after);
    ReplayConcat(x, before, [rec]);
    assert [rec][1..] == [] && Replay(y, [rec]) == Apply(y, rec);
    Unseen(read_, Apply(y, rec), after);
  }

  /** After any log, one key of one broker reads what the last record about it wrote. */
  lemma BrokerConfigLastWriter(x: Image, before: seq<Record>, after: seq<Record>, node: NodeId, name: Str, value: Option<Str>)
    requires forall r :: r in after ==> !(r.V1BrokerConfig? && r.nodeId == node && r.configName == name)
    ensures At2(Replay(x, before + [V1BrokerConfig(node, name, value)] + after).configs.brokerConfigs, node, name) == value
  {
    var rec, look := V1BrokerConfig(node, name, value), (y: Image) => At2(y.configs.brokerConfigs, node, name);
    forall y, r | r == rec || r in after ensures look(Apply(y, r)) == if r == rec then value else look(y) {
      BrokerConfigSeen(y, r, node, name);
    }
    LastWriter(look, x, before, rec, after, value);
  }

  /** The same for one key of one quota entity, whatever order its parts are written in. */
  lemma QuotaLastWriter(x: Image, before: seq<Record>, after: seq<Record>, entity: EntityKey, name: Str, quota: Option<int>)
    requires forall r :: r in after ==>
               !(r.V1ClientQuota? && Canonical(r.entity) == Canonical(entity) && r.configName == name)
    ensures At2(Replay(x, before + [V1ClientQuota(entity, name, quota)] + after).configs.clientQuotas, Canonical(entity), name)
         == quota
  {
    var rec, key := V1ClientQuota(entity, name, quota), Canonical(entity);
    var look := (y: Image) => At2(y.configs.clientQuotas, key, name);
    forall y, r | r == rec || r in after ensures look(Apply(y, r)) == if r == rec then quota else look(y) {
      QuotaSeen(y, r, key, name);
    }
    LastWriter(look, x, before, rec, after, quota);
  }

  /** A key of a topic reads as in the last whole map, until the topic is deleted. */
  lemma TopicConfigLastWriter(x: Image, before: seq<Record>, after: seq<Record>, topic: Str, configs: Configs, name: Str)
    requires forall r :: r in after ==> !(r.V1TopicConfig? && r.resource == topic) && r != V1DeleteTopic(topic)
    ensures At2(Replay(x, before + [V1TopicConfig(topic, configs)] + after).topics.configs, topic, name) == At(configs, name)
  {
    var rec, look := V1TopicConfig(topic, configs), (y: Image) => At2(y.topics.configs, topic, name);
    forall y, r | r == rec || r in after ensures look(Apply(y, r)) == if r == rec then At(configs, name) else look(y) {
      TopicConfigSeen(y, r, topic, name);
    }
    LastWriter(look, x, before, rec, after, At(configs, name));
  }

  /** The sum of the advances of a partition. */
  function Advanced(log: seq<Record>, topic: Str, index: int): int
  {
    if log == [] then 0 else AdvanceBy(log[0], topic, index) + Advanced(log[1..], topic, index)
  }

  function AdvanceBy(rec: Record, topic: Str, index: int): int
  {
    if rec.V1PartitionOffsetAdvance? && rec.topicName == topic && rec.index == index then rec.count else 0
  }

  lemma OffsetMoves(x: Image, rec: Record, topic: Str, index: int)
    requires rec != V1DeleteTopic(topic) && IsI64(OffsetOf(x, topic, index))
    ensures OffsetOf(Apply(x, rec), topic, index) == WrapI64(OffsetOf(x, topic, index) + AdvanceBy(rec, topic, index))
  {
    OffsetSeen(x, rec, topic, index);
  }

  function OffsetOf(x: Image, topic: Str, index: int): int
  {
    if InNest(x.topics.nextOffsets, topic, index) then x.topics.nextOffsets[topic][index] else 0
  }

  lemma WrapAgain(a: int, b: int)
    ensures WrapI64(WrapI64(a) + b) == WrapI64(a + b)
  {
    var two64 := 0x1_0000_0000_0000_0000;
    var k := (a - I64_MIN) / two64;
    assert WrapI64(a) == a - k * two64;
    ModShift(a + b - I64_MIN, k, two64);
  }

  lemma ModShift(a: int, k: int, m: int)
    requires m > 0
    ensures (a - k * m) % m == a % m
  {
    var q, r := a / m, a % m;
    assert a == q * m + r;
    assert a - k * m == (q - k) * m + r;
    Chunks.DivUnique(a - k * m, m, q - k, r);
  }

  /** Advances add up: over a log that does not delete the topic, the offset moves by their
      sum, modulo 2^64. */
  lemma {:induction false} AdvancesAddUp(x: Image, log: seq<Record>, topic: Str, index: int)
    requires V1DeleteTopic(topic) !in log && IsI64(OffsetOf(x, topic, index))
    ensures OffsetOf(Replay(x, log), topic, index) == WrapI64(OffsetOf(x, topic, index) + Advanced(log, topic, index))
    decreases |log|
  {
    if log != [] {
      OffsetMoves(x, log[0], topic, index);
      AdvancesAddUp(Apply(x, log[0]), log[1..], topic, index);
      WrapAgain(OffsetOf(x, topic, index) + AdvanceBy(log[0], topic, index), Advanced(log[1..], topic, index));
    }
  }

  /** Nothing about a deleted topic is left to read. */
  lemma DeletedTopicIsGone(x: Image, name: Str, index: int)
    ensures var s := Apply(x, V1DeleteTopic(name)).topics;
            && name !in s.topics && At2(s.partitions, name, index) == None && At2(s.nextOffsets, name, index) == None
            && At2(s.elr, name, index) == None && At2(s.recovery, name, index) == None && name !in s.configs
  {
  }

  /** An entry is held after a log exactly when the log, or the image before it, put it in and
      no later delete fits it. */
  lemma {:induction false} AclHeldIff(x: Image, log: seq<Record>, e: AclEntry)
    ensures e in Replay(x, log).security.acls <==>
              || (e in x.security.acls && forall j :: 0 <= j < |log| ==> !Deletes(log[j], e))
              || (exists i :: 0 <= i < |log| && log[i] == V1AccessControlEntry(e)
                              && forall j :: i < j < |log| ==> !Deletes(log[j], e))
    decreases |log|
  {
    if log != [] {
      var n := |log| - 1;
      AclHeldIff(x, log[..n], e);
      ReplayConcat(x, log[..n], [log[n]]);
      var y := Replay(x, log[..n]);
      assert log[..n] + [log[n]] == log && [log[n]][1..] == [] && Replay(y, [log[n]]) == Apply(y, log[n]);
      AclSeen(y, log[n], e);
      assert log[n] == V1AccessControlEntry(e) ==> 0 <= n < |log|;
      assert forall i :: 0 <= i < n ==> log[..n][i] == log[i];
    }
  }

  predicate Deletes(rec: Record, e: AclEntry)
  {
    rec.V1DeleteAccessControlEntry? && rec.filter.Matches(e)
  }
}
