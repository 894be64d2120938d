/** The metadata image as the source holds it: one object whose tables `apply`
    updates in place and `to_records` walks. */
module ImageStore {
  import opened Base
  import opened Collections
  import opened MetadataRecords
  import opened Images
  import opened ImageInvariants
  import opened ImageSnapshot
  import opened ImageEquivalence

  class MetadataImage {
    const clusterId: Uuid
    var topics: map<Str, TopicRecord>
    var topicIds: map<Uuid, Str>
    var partitions: map<Str, map<int, PartitionRecord>>
    var nextOffsets: map<Str, map<int, int>>
    var elr: map<Str, map<int, Elr>>
    var recovery: map<Str, map<int, LeaderRecoveryState>>
    var brokers: map<NodeId, BrokerRegistrationRecord>
    var controllers: map<NodeId, ControllerRegistrationRecord>
    var topicConfigs: map<Str, Configs>
    var brokerConfigs: map<NodeId, Configs>
    var clientMetrics: map<Str, Configs>
    var groupConfigs: map<Str, Configs>
    var scram: map<(Str, nat), ScramCredential>
    var acls: set<AclEntry>
    var freezesLiteral: map<Str, TopicFreezeRecord>
    var freezesPrefixed: map<Str, TopicFreezeRecord>
    var breakGlass: map<Uuid, BreakGlassProposalRecord>
    var clientQuotas: map<EntityKey, map<Str, int>>
    var producerIds: Option<ProducerIdsRecord>
    var tokens: map<Str, DelegationToken>
    var kraftVersion: nat
    var voters: seq<nat>
    var featureLevels: map<Str, int>
    var featuresEpoch: int

    function Topics(): TopicState
      reads this
    {
      TopicState(topics, topicIds, partitions, nextOffsets, elr, recovery, topicConfigs)
    }

    function Nodes(): NodeState
      reads this
    {
      NodeState(brokers, controllers)
    }

    function Settings(): ConfigState
      reads this
    {
      ConfigState(brokerConfigs, clientMetrics, groupConfigs, clientQuotas)
    }

    function Security(): SecurityState
      reads this
    {
      SecurityState(scram, acls, tokens)
    }

    function Guard(): GuardState
      reads this
    {
      GuardState(freezesLiteral, freezesPrefixed, breakGlass)
    }

    function Control(): ControlState
      reads this
    {
      ControlState(producerIds, kraftVersion, voters, featureLevels, featuresEpoch)
    }

    function Value(): Image
      reads this
    {
      Image(clusterId, Topics(), Nodes(), Settings(), Security(), Guard(), Control())
    }

    constructor (clusterId: Uuid)
      ensures Value() == New(clusterId)
    {
      this.clusterId := clusterId;
      topics, topicIds, partitions, nextOffsets := map[], map[], map[], map[];
      elr, recovery, brokers, controllers := map[], map[], map[], map[];
      topicConfigs, brokerConfigs, clientMetrics, groupConfigs := map[], map[], map[], map[];
      scram, acls, freezesLiteral, freezesPrefixed := map[], {}, map[], map[];
      breakGlass, clientQuotas, producerIds, tokens := map[], map[], None, map[];
      kraftVersion, voters, featureLevels, featuresEpoch := 0, [], map[], -1;
    }

    // ----- topics and partitions -----

    method RegisterTopic(t: TopicRecord)
      modifies `topics, `topicIds
      ensures Topics() == ApplyTopic(old(Topics()), t)
    {
      var count := 0;
      if t.name in topics {
        if topics[t.name].topicId != t.topicId { topicIds := topicIds - {topics[t.name].topicId}; }
        count := topics[t.name].partitions;
      }
      topicIds := topicIds[t.topicId := t.name];
      topics := topics[t.name := t.(partitions := count)];
    }

    method DeleteTopic(name: Str)
      modifies `topics, `topicIds, `partitions, `nextOffsets, `elr, `recovery, `topicConfigs
      ensures Topics() == ApplyDeleteTopic(old(Topics()), name)
    {
      if name in topics { topicIds := topicIds - {topics[name].topicId}; }
      topics := topics - {name};
      partitions := partitions - {name};
      nextOffsets := nextOffsets - {name};
      elr := elr - {name};
      recovery := recovery - {name};
      topicConfigs := topicConfigs - {name};
    }

    method StorePartition(p: PartitionRecord)
      modifies `topics, `partitions
      ensures Topics() == ApplyPartition(old(Topics()), p)
    {
      var isNew := true;
      if p.topic !in partitions { partitions := partitions[p.topic := map[]]; }
      if p.partition in partitions[p.topic] { isNew := false; }
      partitions := partitions[p.topic := partitions[p.topic][p.partition := p]];
      if p.topic in topics {
        var topic := topics[p.topic];
        if isNew { topic := topic.(partitions := Min(topic.partitions + 1, I32_MAX)); }
        if |p.replicas| <= I16_MAX { topic := topic.(replicationFactor := |p.replicas|); }
        topics := topics[p.topic := topic];
      }
    }

    method StoreElr(topic: Str, index: int, eligible: seq<NodeId>, lastKnown: seq<NodeId>)
      modifies `elr
      ensures Topics() == ApplyElr(old(Topics()), topic, index, eligible, lastKnown)
    {
      if eligible == [] && lastKnown == [] {
        if topic in elr {
          var inner := elr[topic] - {index};
          if |inner| == 0 { elr := elr - {topic}; } else { elr := elr[topic := inner]; }
        }
      } else {
        elr := elr[topic := Inner(elr, topic)[index := (eligible, lastKnown)]];
      }
    }

    method StoreRecovery(topic: Str, index: int, state: LeaderRecoveryState)
      modifies `recovery
      ensures Topics() == ApplyRecovery(old(Topics()), topic, index, state)
    {
      if state.Recovered? {
        if topic in recovery {
          var inner := recovery[topic] - {index};
          if |inner| == 0 { recovery := recovery - {topic}; } else { recovery := recovery[topic := inner]; }
        }
      } else {
        recovery := recovery[topic := Inner(recovery, topic)[index := state]];
      }
    }

    method UpdatePartition(u: PartitionUpdateRecord)
      modifies `topics, `partitions, `elr, `recovery
      ensures Topics() == ApplyPartitionUpdate(old(Topics()), u)
    {
      var p := u.partition;
      StorePartition(p);
      if u.eligible.Some? && u.lastKnown.Some? {
        StoreElr(p.topic, p.partition, u.eligible.value, u.lastKnown.value);
      }
      if u.recovery.Some? { StoreRecovery(p.topic, p.partition, u.recovery.value); }
    }

    method AssignDir(topic: Str, index: int, replica: NodeId, directory: Uuid)
      modifies `partitions
      ensures Topics() == ApplyDirAssignment(old(Topics()), topic, index, replica, directory)
    {
      if topic in partitions && index in partitions[topic] {
        var p := partitions[topic][index];
        var slot := 0;
        while slot < |p.replicas| && p.replicas[slot] != replica
          invariant slot <= |p.replicas|
          invariant forall j :: 0 <= j < slot ==> p.replicas[j] != replica
        {
          slot := slot + 1;
        }
        if slot < |p.replicas| {
          var directories := p.directories;
          if |directories| < |p.replicas| {
            directories := directories + seq(|p.replicas| - |directories|, _ => MIGRATING);
          }
          p := p.(directories := directories[slot := directory]);
        }
        partitions := partitions[topic := partitions[topic][index := p]];
      }
    }

    method AdvanceOffset(topic: Str, index: int, count: int)
      modifies `nextOffsets
      ensures Topics() == ApplyOffsetAdvance(old(Topics()), topic, index, count)
    {
      var inner := Inner(nextOffsets, topic);
      if index !in inner { inner := inner[index := 0]; }
      assert inner[index := WrapI64(inner[index] + count)]
          == Inner(nextOffsets, topic)[index := WrapI64(inner[index] + count)];
      nextOffsets := nextOffsets[topic := inner[index := WrapI64(inner[index] + count)]];
    }

    // ----- apply -----

    method Freeze(f: TopicFreezeRecord)
      modifies `freezesLiteral, `freezesPrefixed
      ensures Guard() == ApplyFreeze(old(Guard()), f)
    {
      match (f.patternType, f.frozen)
      case (Literal, true) => freezesLiteral := freezesLiteral[f.scope := f];
      case (Literal, false) => freezesLiteral := freezesLiteral - {f.scope};
      case (Prefixed, true) => freezesPrefixed := freezesPrefixed[f.scope := f];
      case (Prefixed, false) => freezesPrefixed := freezesPrefixed - {f.scope};
    }

    /** Records about topics and partitions. */
    method ApplyToTopics(rec: Record)
      requires GroupOf(rec) == TopicGroup
      modifies `topics, `topicIds, `partitions, `nextOffsets, `elr, `recovery, `topicConfigs
      ensures Topics() == TopicStep(old(Topics()), rec)
    {
      match rec
      case V1Topic(t) => RegisterTopic(t);
      case V1Partition(p) => StorePartition(p);
      case V1DeleteTopic(name) => DeleteTopic(name);
      case V1TopicConfig(resource, configs) =>
        if |configs| == 0 { topicConfigs := topicConfigs - {resource}; }
        else { topicConfigs := topicConfigs[resource := configs]; }
      case V1PartitionDirAssignment(topic, index, replica, directory) => AssignDir(topic, index, replica, directory);
      case V1PartitionOffsetAdvance(topic, index, count) => AdvanceOffset(topic, index, count);
      case V1PartitionElr(topic, index, eligible, lastKnown) => StoreElr(topic, index, eligible, lastKnown);
      case V1PartitionRecovery(topic, index, state) => StoreRecovery(topic, index, state);
      case V1PartitionUpdate(u) => UpdatePartition(u);
    }

    method ApplyToNodes(rec: Record)
      requires GroupOf(rec) == NodeGroup
      modifies `brokers, `controllers
      ensures Nodes() == NodeStep(old(Nodes()), rec)
    {
      match rec
      case V1BrokerRegistration(b) => brokers := brokers[b.nodeId := b];
      case V1BrokerRegistrationChange(c) =>
        if c.nodeId in brokers && brokers[c.nodeId].brokerEpoch == c.brokerEpoch {
          brokers := brokers[c.nodeId := c.AppliedTo(brokers[c.nodeId])];
        }
      case V1UnregisterBroker(node, epoch) =>
        if node in brokers && brokers[node].brokerEpoch == epoch { brokers := brokers - {node}; }
      case V1ControllerRegistration(c) => controllers := controllers[c.nodeId := c];
      case V1UnregisterController(node) => controllers := controllers - {node};
    }

    method SetBrokerConfig(node: NodeId, name: Str, value: Option<Str>)
      modifies `brokerConfigs
      ensures brokerConfigs == SetKey(old(brokerConfigs), node, name, value)
    {
      var inner := Inner(brokerConfigs, node);
      if value.Some? { inner := inner[name := value.value]; } else { inner := inner - {name}; }
      brokerConfigs := brokerConfigs[node := inner];
    }

    method SetQuota(key: EntityKey, name: Str, quota: Option<int>)
      modifies `clientQuotas
      ensures clientQuotas == SetKey(old(clientQuotas), key, name, quota)
    {
      var inner := Inner(clientQuotas, key);
      if quota.Some? { inner := inner[name := quota.value]; } else { inner := inner - {name}; }
      clientQuotas := clientQuotas[key := inner];
    }

    method SetClientMetrics(resource: Str, configs: Configs)
      modifies `clientMetrics
      ensures clientMetrics == PutConfigs(old(clientMetrics), resource, configs)
    {
      if |configs| == 0 { clientMetrics := clientMetrics - {resource}; }
      else { clientMetrics := clientMetrics[resource := configs]; }
    }

    method SetGroupConfig(resource: Str, configs: Configs)
      modifies `groupConfigs
      ensures groupConfigs == PutConfigs(old(groupConfigs), resource, configs)
    {
      if |configs| == 0 { groupConfigs := groupConfigs - {resource}; }
      else { groupConfigs := groupConfigs[resource := configs]; }
    }

    method ApplyToConfigs(rec: Record)
      requires GroupOf(rec) == ConfigGroup
      modifies `brokerConfigs, `clientMetrics, `groupConfigs, `clientQuotas
      ensures Settings() == ConfigStep(old(Settings()), rec)
    {
      match rec
      case V1BrokerConfig(node, name, value) =>
        SetBrokerConfig(node, name, value);
      case V1ClientMetricsConfig(resource, configs) => SetClientMetrics(resource, configs);
      case V1GroupConfig(resource, configs) => SetGroupConfig(resource, configs);
      case V1ClientQuota(entity, name, quota) =>
        SetQuota(Canonical(entity), name, quota);
    }

    method ApplyToSecurity(rec: Record)
      requires GroupOf(rec) == SecurityGroup
      modifies `scram, `acls, `tokens
      ensures Security() == SecurityStep(old(Security()), rec)
    {
      match rec
      case V1ScramCredential(user, c) => scram := scram[(user, c.mechanism) := c];
      case V1DeleteScramCredential(user, mechanism) => scram := scram - {(user, mechanism)};
      case V1AccessControlEntry(e) => acls := acls + {e};
      case V1DeleteAccessControlEntry(f) => acls := set e | e in acls && !f.Matches(e);
      case V1DelegationToken(t) => tokens := tokens[t.tokenId := t];
      case V1DeleteDelegationToken(id) => tokens := tokens - {id};
    }

    method ApplyToGuard(rec: Record)
      requires GroupOf(rec) == GuardGroup
      modifies `freezesLiteral, `freezesPrefixed, `breakGlass
      ensures Guard() == GuardStep(old(Guard()), rec)
    {
      match rec
      case V1TopicFreeze(f) => Freeze(f);
      case V1BreakGlassProposal(p) => breakGlass := breakGlass[p.proposalId := p];
      case V1DeleteBreakGlassProposal(id) => breakGlass := breakGlass - {id};
    }

    method ApplyToControl(rec: Record)
      requires GroupOf(rec) == ControlGroup
      modifies `producerIds, `kraftVersion, `voters, `featureLevels, `featuresEpoch
      ensures Control() == ControlStep(old(Control()), rec)
    {
      match rec
      case V1ProducerIds(ids) =>
        var next := if producerIds.Some? then producerIds.value.nextProducerId else 0;
        if ids.nextProducerId > next { producerIds := Some(ids); }
      case V1KRaftVersion(v) => kraftVersion := v;
      case V1Voters(vs) => voters := vs;
      case V1FeatureLevel(name, level) =>
        if level == 0 { featureLevels := featureLevels - {name}; }
        else { featureLevels := featureLevels[name := level]; }
        featuresEpoch := Max(SaturateI64(featuresEpoch + 1), 0);
      case V1FeaturesEpoch(epoch) => featuresEpoch := epoch;
    }

    method OnTopics(rec: Record)
      requires GroupOf(rec) == TopicGroup
      modifies `topics, `topicIds, `partitions, `nextOffsets, `elr, `recovery, `topicConfigs
      ensures Topics() == TopicStep(old(Topics()), rec)
      ensures Value() == old(Value()).(topics := Topics())
    {
      ApplyToTopics(rec);
    }

    method OnNodes(rec: Record)
      requires GroupOf(rec) == NodeGroup
      modifies `brokers, `controllers
      ensures Nodes() == NodeStep(old(Nodes()), rec)
      ensures Value() == old(Value()).(nodes := Nodes())
    {
      ApplyToNodes(rec);
    }

    method OnSettings(rec: Record)
      requires GroupOf(rec) == ConfigGroup
      modifies `brokerConfigs, `clientMetrics, `groupConfigs, `clientQuotas
      ensures Settings() == ConfigStep(old(Settings()), rec)
      ensures Value() == old(Value()).(configs := Settings())
    {
      ApplyToConfigs(rec);
    }

    method OnSecurity(rec: Record)
      requires GroupOf(rec) == SecurityGroup
      modifies `scram, `acls, `tokens
      ensures Security() == SecurityStep(old(Security()), rec)
      ensures Value() == old(Value()).(security := Security())
    {
      ApplyToSecurity(rec);
    }

    method OnGuard(rec: Record)
      requires GroupOf(rec) == GuardGroup
      modifies `freezesLiteral, `freezesPrefixed, `breakGlass
      ensures Guard() == GuardStep(old(Guard()), rec)
      ensures Value() == old(Value()).(guard := Guard())
    {
      ApplyToGuard(rec);
    }

    method OnControl(rec: Record)
      requires GroupOf(rec) == ControlGroup
      modifies `producerIds, `kraftVersion, `voters, `featureLevels, `featuresEpoch
      ensures Control() == ControlStep(old(Control()), rec)
      ensures Value() == old(Value()).(control := Control())
    {
      ApplyToControl(rec);
      assert Topics() == old(Topics()) && Nodes() == old(Nodes()) && Settings() == old(Settings());
      assert Security() == old(Security()) && Guard() == old(Guard());
    }

    /** One committed record, in place. */
    method Apply(rec: Record)
      modifies this
      ensures Value() == Images.Apply(old(Value()), rec)
    {
      ApplyInGroup(Value(), rec);
      match GroupOf(rec)
      case TopicGroup => OnTopics(rec);
      case NodeGroup => OnNodes(rec);
      case ConfigGroup => OnSettings(rec);
      case SecurityGroup => OnSecurity(rec);
      case ControlGroup => OnControl(rec);
      case GuardGroup => OnGuard(rec);
    }

    /** Applies a record sequence in order. */
    method ApplyAll(records: seq<Record>)
      modifies this
      ensures Value() == Replay(old(Value()), records)
    {
      for i := 0 to |records|
        invariant Replay(Value(), records[i..]) == Replay(old(Value()), records)
      {
        assert records[i..][0] == records[i] && records[i..][1..] == records[i + 1..];
        Apply(records[i]);
      }
    }

    // ----- to_records -----

    method WalkTopics() returns (w: Walk)
      ensures WalksTopics(Topics(), w) && Ascending(w.partitions)
    {
      var ts := WalkKeys(topics.Keys);
      var ps := WalkAscending(partitions);
      var os := WalkAscending(nextOffsets);
      var es := WalkAscending(elr);
      var rs := WalkAscending(recovery);
      var cs := WalkKeys(topicConfigs.Keys);
      w := Walk([], [], [], ts, ps, os, es, rs, cs, [], [], [], [], [], [], [], [], [], []);
    }

    method WalkTables() returns (w: Walk)
      ensures Walks(Value(), w) && Ascending(w.partitions)
    {
      w := WalkTopics();
      var bs := WalkKeys(brokers.Keys);
      var cs := WalkKeys(controllers.Keys);
      var bc := WalkNested(brokerConfigs);
      var sc := WalkKeys(scram.Keys);
      var ac := WalkKeys(acls);
      var cq := WalkNested(clientQuotas);
      var tk := WalkKeys(tokens.Keys);
      var cm := WalkKeys(clientMetrics.Keys);
      var gc := WalkKeys(groupConfigs.Keys);
      var fl := WalkKeys(freezesLiteral.Keys);
      var fp := WalkKeys(freezesPrefixed.Keys);
      var bg := WalkKeys(breakGlass.Keys);
      var fe := WalkKeys(featureLevels.Keys);
      w := w.(brokers := bs, controllers := cs, brokerConfigs := bc, scram := sc, acls := ac,
              clientQuotas := cq, tokens := tk, clientMetrics := cm, groupConfigs := gc,
              freezesLiteral := fl, freezesPrefixed := fp, breakGlass := bg, featureLevels := fe);
    }

    method PushBrokers(out: seq<Record>, ks: seq<NodeId>) returns (r: seq<Record>)
      requires Enumerates(ks, brokers.Keys)
      ensures r == out + PutBrokers(Value(), ks)
    {
      r := PushTable(out, brokers, ks, (k, v) => V1BrokerRegistration(v), PutBrokers(Value(), ks));
    }

    method PushControllers(out: seq<Record>, ks: seq<NodeId>) returns (r: seq<Record>)
      requires Enumerates(ks, controllers.Keys)
      ensures r == out + PutControllers(Value(), ks)
    {
      r := PushTable(out, controllers, ks, (k, v) => V1ControllerRegistration(v), PutControllers(Value(), ks));
    }

    method PushBrokerConfigs(out: seq<Record>, ks: seq<(NodeId, Str)>) returns (r: seq<Record>)
      requires Enumerates(ks, FlatKeys(brokerConfigs))
      ensures r == out + PutBrokerConfigs(Value(), ks)
    {
      r := PushNested(out, brokerConfigs, ks, (a, b, v) => V1BrokerConfig(a, b, Some(v)), PutBrokerConfigs(Value(), ks));
    }

    method PushTopics(out: seq<Record>, ks: seq<Str>) returns (r: seq<Record>)
      requires Enumerates(ks, topics.Keys)
      ensures r == out + PutTopics(Value(), ks)
    {
      r := PushTable(out, topics, ks, (k, v) => V1Topic(v), PutTopics(Value(), ks));
    }

    method PushPartitions(out: seq<Record>, ks: seq<(Str, int)>) returns (r: seq<Record>)
      requires Enumerates(ks, FlatKeys(partitions))
      ensures r == out + PutPartitions(Value(), ks)
    {
      r := PushNested(out, partitions, ks, (a, b, v) => V1Partition(v), PutPartitions(Value(), ks));
    }

    method PushNextOffsets(out: seq<Record>, ks: seq<(Str, int)>) returns (r: seq<Record>)
      requires Enumerates(ks, FlatKeys(nextOffsets))
      ensures r == out + PutNextOffsets(Value(), ks)
    {
      r := PushNested(out, nextOffsets, ks, (a, b, v) => V1PartitionOffsetAdvance(a, b, v), PutNextOffsets(Value(), ks));
    }

    method PushElr(out: seq<Record>, ks: seq<(Str, int)>) returns (r: seq<Record>)
      requires Enumerates(ks, FlatKeys(elr))
      ensures r == out + PutElr(Value(), ks)
    {
      r := PushNested(out, elr, ks, (a, b, v: Elr) => V1PartitionElr(a, b, v.0, v.1), PutElr(Value(), ks));
    }

    method PushRecovery(out: seq<Record>, ks: seq<(Str, int)>) returns (r: seq<Record>)
      requires Enumerates(ks, FlatKeys(recovery))
      ensures r == out + PutRecovery(Value(), ks)
    {
      r := PushNested(out, recovery, ks, (a, b, v) => V1PartitionRecovery(a, b, v), PutRecovery(Value(), ks));
    }

    method PushTopicConfigs(out: seq<Record>, ks: seq<Str>) returns (r: seq<Record>)
      requires Enumerates(ks, topicConfigs.Keys)
      ensures r == out + PutTopicConfigs(Value(), ks)
    {
      r := PushTable(out, topicConfigs, ks, (k, v) => V1TopicConfig(k, v), PutTopicConfigs(Value(), ks));
    }

    method PushScram(out: seq<Record>, ks: seq<(Str, nat)>) returns (r: seq<Record>)
      requires Enumerates(ks, scram.Keys)
      ensures r == out + PutScram(Value(), ks)
    {
      r := PushTable(out, scram, ks, (k: (Str, nat), v) => V1ScramCredential(k.0, v), PutScram(Value(), ks));
    }

    method PushClientQuotas(out: seq<Record>, ks: seq<(EntityKey, Str)>) returns (r: seq<Record>)
      requires Enumerates(ks, FlatKeys(clientQuotas))
      ensures r == out + PutClientQuotas(Value(), ks)
    {
      r := PushNested(out, clientQuotas, ks, (a, b, v) => V1ClientQuota(a, b, Some(v)), PutClientQuotas(Value(), ks));
    }

    method PushAcls(out: seq<Record>, ks: seq<AclEntry>) returns (r: seq<Record>)
      requires Enumerates(ks, acls)
      ensures r == out + PutAcls(ks)
    {
      r := PushEach(out, ks, e => V1AccessControlEntry(e), PutAcls(ks));
    }

    method PushProducerIds(out: seq<Record>) returns (r: seq<Record>)
      ensures r == out + PutProducerIds(Control())
    {
      r := out;
      if producerIds.Some? { r := r + [V1ProducerIds(producerIds.value)]; }
    }

    method PushTokens(out: seq<Record>, ks: seq<Str>) returns (r: seq<Record>)
      requires Enumerates(ks, tokens.Keys)
      ensures r == out + PutTokens(Value(), ks)
    {
      r := PushTable(out, tokens, ks, (k, v) => V1DelegationToken(v), PutTokens(Value(), ks));
    }

    method PushClientMetrics(out: seq<Record>, ks: seq<Str>) returns (r: seq<Record>)
      requires Enumerates(ks, clientMetrics.Keys)
      ensures r == out + PutClientMetrics(Value(), ks)
    {
      r := PushTable(out, clientMetrics, ks, (k, v) => V1ClientMetricsConfig(k, v), PutClientMetrics(Value(), ks));
    }

    method PushGroupConfigs(out: seq<Record>, ks: seq<Str>) returns (r: seq<Record>)
      requires Enumerates(ks, groupConfigs.Keys)
      ensures r == out + PutGroupConfigs(Value(), ks)
    {
      r := PushTable(out, groupConfigs, ks, (k, v) => V1GroupConfig(k, v), PutGroupConfigs(Value(), ks));
    }

    method PushFreezesLiteral(out: seq<Record>, ks: seq<Str>) returns (r: seq<Record>)
      requires Enumerates(ks, freezesLiteral.Keys)
      ensures r == out + PutFreezesLiteral(Value(), ks)
    {
      r := PushTable(out, freezesLiteral, ks, (k, v) => V1TopicFreeze(v), PutFreezesLiteral(Value(), ks));
    }

    method PushFreezesPrefixed(out: seq<Record>, ks: seq<Str>) returns (r: seq<Record>)
      requires Enumerates(ks, freezesPrefixed.Keys)
      ensures r == out + PutFreezesPrefixed(Value(), ks)
    {
      r := PushTable(out, freezesPrefixed, ks, (k, v) => V1TopicFreeze(v), PutFreezesPrefixed(Value(), ks));
    }

    method PushBreakGlass(out: seq<Record>, ks: seq<Uuid>) returns (r: seq<Record>)
      requires Enumerates(ks, breakGlass.Keys)
      ensures r == out + PutBreakGlass(Value(), ks)
    {
      r := PushTable(out, breakGlass, ks, (k, v) => V1BreakGlassProposal(v), PutBreakGlass(Value(), ks));
    }

    method PushFeatureLevels(out: seq<Record>, ks: seq<Str>) returns (r: seq<Record>)
      requires Enumerates(ks, featureLevels.Keys)
      ensures r == out + PutFeatureLevels(Value(), ks)
    {
      r := PushTable(out, featureLevels, ks, (k, v) => V1FeatureLevel(k, v), PutFeatureLevels(Value(), ks));
    }

    method WriteNodes(w: Walk) returns (r: seq<Record>)
      requires Walks(Value(), w)
      ensures r == NodeRecords(Value(), w)
    {
      FromNothing(PutBrokers(Value(), w.brokers));
      r := PushBrokers([], w.brokers);
      r := PushControllers(r, w.controllers);
      r := PushBrokerConfigs(r, w.brokerConfigs);
    }

    method WriteTopics(w: Walk) returns (r: seq<Record>)
      requires Walks(Value(), w)
      ensures r == TopicRecords(Value(), w)
    {
      FromNothing(PutTopics(Value(), w.topics));
      r := PushTopics([], w.topics);
      r := PushPartitions(r, w.partitions);
      r := PushNextOffsets(r, w.nextOffsets);
      r := PushElr(r, w.elr);
      r := PushRecovery(r, w.recovery);
      r := PushTopicConfigs(r, w.topicConfigs);
    }

    method WriteSecurity(w: Walk) returns (r: seq<Record>)
      requires Walks(Value(), w)
      ensures r == SecurityRecords(Value(), w)
    {
      FromNothing(PutScram(Value(), w.scram));
      r := PushScram([], w.scram);
      r := PushAcls(r, w.acls);
      r := PushClientQuotas(r, w.clientQuotas);
      r := PushProducerIds(r);
      r := PushTokens(r, w.tokens);
    }

    method WriteRegistries(w: Walk) returns (r: seq<Record>)
      requires Walks(Value(), w)
      ensures r == RegistryRecords(Value(), w)
    {
      FromNothing(PutClientMetrics(Value(), w.clientMetrics));
      r := PushClientMetrics([], w.clientMetrics);
      r := PushGroupConfigs(r, w.groupConfigs);
      r := PushFreezesLiteral(r, w.freezesLiteral);
      r := PushFreezesPrefixed(r, w.freezesPrefixed);
      r := PushBreakGlass(r, w.breakGlass);
    }

    method WriteControl(w: Walk) returns (r: seq<Record>)
      requires Walks(Value(), w)
      ensures r == ControlRecords(Value(), w)
    {
      FromNothing(PutFeatureLevels(Value(), w.featureLevels));
      r := PushFeatureLevels([], w.featureLevels);
      if featuresEpoch >= 0 { r := r + [V1FeaturesEpoch(featuresEpoch)]; }
      if kraftVersion != 0 { r := r + [V1KRaftVersion(kraftVersion)]; }
      if voters != [] { r := r + [V1Voters(voters)]; }
    }

    /** `to_records`: the tables are walked and pushed one after the other, in dependency
        order. `w` is the order in which they yielded their entries. */
    method WriteRecords() returns (out: seq<Record>, w: Walk)
      ensures Walks(Value(), w) && Ascending(w.partitions)
      ensures out == ToRecords(Value(), w)
    {
      w := WalkTables();
      var n := WriteNodes(w);
      var t := WriteTopics(w);
      var s := WriteSecurity(w);
      var r := WriteRegistries(w);
      var c := WriteControl(w);
      out := n + t + s + r + c;
    }

    /** `from_records`: a new image that applies the records in order. */
    constructor FromRecords(clusterId: Uuid, records: seq<Record>)
      ensures Value() == Images.FromRecords(clusterId, records)
    {
      this.clusterId := clusterId;
      topics, topicIds, partitions, nextOffsets, elr, recovery := map[], map[], map[], map[], map[], map[];
      brokers, controllers, topicConfigs, brokerConfigs := map[], map[], map[], map[];
      clientMetrics, groupConfigs, scram, acls := map[], map[], map[], {};
      freezesLiteral, freezesPrefixed, breakGlass, clientQuotas := map[], map[], map[], map[];
      producerIds, tokens, kraftVersion, voters := None, map[], 0, [];
      featureLevels, featuresEpoch := map[], -1;
      new;
      ApplyAll(records);
    }
  }

  // ----- one replica from another -----

  /** An image object built from the records another one writes. It agrees with its source
      whenever the id index is exact, whatever order the tables yielded their entries in,
      and then equals it if and only if no config or quota table is empty and each
      factor is that of the topic's last partition. */
  method Rebuild(src: MetadataImage) returns (dst: MetadataImage)
    requires ReachableInv(src.Value())
    ensures fresh(dst)
    ensures var x, y := src.Value(), dst.Value();
            IdsExact(x.topics) ==>
              && Agree(y, x)
              && (y == x <==> && NoEmptyInner(x.configs.brokerConfigs) && NoEmptyInner(x.configs.clientQuotas)
                              && FactorsOfLast(x.topics))
  {
    var records, w := src.WriteRecords();
    dst := new MetadataImage.FromRecords(src.clusterId, records);
    ghost var x := src.Value();
    RestoreIs(x, w);
    if IdsExact(x.topics) {
      ExactIdsAreRebuilt(x.topics, w.topics);
      RestoredAgreesIff(x, w);
      FactorsExactIff(x.topics, w.partitions);
      RestoredIsExactIff(x, w);
    }
  }

  // ----- pushing the entries of a table -----

  lemma FromNothing(rs: seq<Record>)
    ensures [] + rs == rs
  {
  }

  method PushEach<K>(out: seq<Record>, ks: seq<K>, mk: K -> Record, ghost rs: seq<Record>) returns (r: seq<Record>)
    requires |rs| == |ks| && forall i :: 0 <= i < |ks| ==> rs[i] == mk(ks[i])
    ensures r == out + rs
  {
    r := out;
    for i := 0 to |ks|
      invariant r == out + rs[..i]
    {
      r := r + [mk(ks[i])];
    }
    assert rs[..|ks|] == rs;
  }

  /** `rs` is what the loop is to push: a record for each entry, in walk order. */
  method PushTable<K(==), V>(out: seq<Record>, m: map<K, V>, ks: seq<K>, mk: (K, V) -> Record, ghost rs: seq<Record>)
    returns (r: seq<Record>)
    requires |rs| == |ks| && forall i :: 0 <= i < |ks| ==> ks[i] in m && rs[i] == mk(ks[i], m[ks[i]])
    ensures r == out + rs
  {
    r := out;
    for i := 0 to |ks|
      invariant r == out + rs[..i]
    {
      r := r + [mk(ks[i], m[ks[i]])];
    }
    assert rs[..|ks|] == rs;
  }

  method PushNested<A(==), B(==), V>(out: seq<Record>, m: map<A, map<B, V>>, ks: seq<(A, B)>, mk: (A, B, V) -> Record,
                                     ghost rs: seq<Record>)
    returns (r: seq<Record>)
    requires |rs| == |ks| && forall i :: 0 <= i < |ks| ==>
               InNest(m, ks[i].0, ks[i].1) && rs[i] == mk(ks[i].0, ks[i].1, m[ks[i].0][ks[i].1])
    ensures r == out + rs
  {
    r := out;
    for i := 0 to |ks|
      invariant r == out + rs[..i]
    {
      r := r + [mk(ks[i].0, ks[i].1, m[ks[i].0][ks[i].1])];
    }
    assert rs[..|ks|] == rs;
  }

  // ----- walking a table -----

  /** The entries of a table of tables, in any order. */
  method WalkNested<A(==), B(==), V>(m: map<A, map<B, V>>) returns (ks: seq<(A, B)>)
    ensures Enumerates(ks, FlatKeys(m))
  {
    ks := WalkKeys(FlatKeys(m));
  }

  function Tagged<A>(a: A, bs: seq<int>): (ks: seq<(A, int)>)
    ensures |ks| == |bs| && forall i :: 0 <= i < |bs| ==> ks[i] == (a, bs[i])
  {
    seq(|bs|, i requires 0 <= i < |bs| => (a, bs[i]))
  }

  /** Topics in any order, the partitions of each in ascending order. */
  method WalkAscending<V>(m: map<Str, map<int, V>>) returns (ks: seq<(Str, int)>)
    ensures Enumerates(ks, FlatKeys(m)) && Ascending(ks)
  {
    ks := [];
    var outer := WalkKeys(m.Keys);
    for n := 0 to |outer|
      invariant forall k :: k in ks <==> k.0 in outer[..n] && InNest(m, k.0, k.1)
      invariant Distinct(ks) && Ascending(ks)
    {
      assert outer[n] in Elems(outer) && outer[n] !in outer[..n];
      var inner := WalkIndices(m[outer[n]].Keys);
      ghost var before := ks;
      var section := Tagged(outer[n], inner);
      assert forall b :: b in m[outer[n]] <==> b in Elems(inner);
      assert forall b :: b in inner <==> (outer[n], b) in section;
      AppendAscending(ks, section, outer[n]);
      ks := ks + section;
      assert outer[..n + 1] == outer[..n] + [outer[n]];
    }
    assert outer[..|outer|] == outer;
    forall k | k in FlatKeys(m) ensures k in Elems(ks) { assert k.0 in Elems(outer); }
    assert Elems(ks) == FlatKeys(m);
  }

  lemma AppendAscending(ks: seq<(Str, int)>, section: seq<(Str, int)>, a: Str)
    requires Distinct(ks) && Ascending(ks)
    requires forall k :: k in ks ==> k.0 != a
    requires forall i :: 0 <= i < |section| ==> section[i].0 == a
    requires forall i, j :: 0 <= i < j < |section| ==> section[i].1 < section[j].1
    ensures Distinct(ks + section) && Ascending(ks + section)
  {
    var all := ks + section;
    forall i, j | 0 <= i < j < |all|
      ensures all[i] != all[j] && (all[i].0 == all[j].0 ==> all[i].1 < all[j].1)
    {
      if i < |ks| { assert ks[i] in ks; }
    }
  }
}
