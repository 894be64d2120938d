/** `to_records` and `from_records`: a snapshot taken anywhere in the log is
    invisible to every later reader. */
module ImageSnapshot {
  import opened Base
  import opened Collections
  import opened MetadataRecords
  import opened Images
  import opened ImageInvariants

  // ----- the records of a snapshot -----

  /** One order in which the tables of an image may be walked. */
  datatype Walk = Walk(
    brokers: seq<NodeId>,
    controllers: seq<NodeId>,
    brokerConfigs: seq<(NodeId, Str)>,
    topics: seq<Str>,
    partitions: seq<(Str, int)>,
    nextOffsets: seq<(Str, int)>,
    elr: seq<(Str, int)>,
    recovery: seq<(Str, int)>,
    topicConfigs: seq<Str>,
    scram: seq<(Str, nat)>,
    acls: seq<AclEntry>,
    clientQuotas: seq<(EntityKey, Str)>,
    tokens: seq<Str>,
    clientMetrics: seq<Str>,
    groupConfigs: seq<Str>,
    freezesLiteral: seq<Str>,
    freezesPrefixed: seq<Str>,
    breakGlass: seq<Uuid>,
    featureLevels: seq<Str>)

  ghost predicate WalksTopics(s: TopicState, w: Walk)
  {
    && Enumerates(w.topics, s.topics.Keys)
    && Enumerates(w.partitions, FlatKeys(s.partitions))
    && Enumerates(w.nextOffsets, FlatKeys(s.nextOffsets))
    && Enumerates(w.elr, FlatKeys(s.elr))
    && Enumerates(w.recovery, FlatKeys(s.recovery))
    && Enumerates(w.topicConfigs, s.configs.Keys)
  }

  ghost predicate WalksOthers(x: Image, w: Walk)
  {
    && Enumerates(w.brokers, x.nodes.brokers.Keys)
    && Enumerates(w.controllers, x.nodes.controllers.Keys)
    && Enumerates(w.brokerConfigs, FlatKeys(x.configs.brokerConfigs))
    && Enumerates(w.scram, x.security.scram.Keys)
    && Enumerates(w.acls, x.security.acls)
    && Enumerates(w.clientQuotas, FlatKeys(x.configs.clientQuotas))
    && Enumerates(w.tokens, x.security.tokens.Keys)
    && Enumerates(w.clientMetrics, x.configs.clientMetrics.Keys)
    && Enumerates(w.groupConfigs, x.configs.groupConfigs.Keys)
    && Enumerates(w.freezesLiteral, x.guard.freezesLiteral.Keys)
    && Enumerates(w.freezesPrefixed, x.guard.freezesPrefixed.Keys)
    && Enumerates(w.breakGlass, x.guard.breakGlass.Keys)
    && Enumerates(w.featureLevels, x.control.featureLevels.Keys)
  }

  ghost predicate Walks(x: Image, w: Walk)
  {
    WalksTopics(x.topics, w) && WalksOthers(x, w)
  }

  /** A walk visits the partitions of one topic in ascending index order, as the
      source's inner `BTreeMap` does. */
  ghost predicate Ascending(ks: seq<(Str, int)>)
  {
    forall i, j :: 0 <= i < j < |ks| && ks[i].0 == ks[j].0 ==> ks[i].1 < ks[j].1
  }

  datatype GroupName = TopicGroup | NodeGroup | ConfigGroup | SecurityGroup | GuardGroup | ControlGroup

  /** The one group a record changes. */
  function GroupOf(r: Record): GroupName
  {
    match r
    case V1BrokerRegistration(_) => NodeGroup
    case V1BrokerRegistrationChange(_) => NodeGroup
    case V1UnregisterBroker(_, _) => NodeGroup
    case V1ControllerRegistration(_) => NodeGroup
    case V1UnregisterController(_) => NodeGroup
    case V1BrokerConfig(_, _, _) => ConfigGroup
    case V1ClientMetricsConfig(_, _) => ConfigGroup
    case V1GroupConfig(_, _) => ConfigGroup
    case V1ClientQuota(_, _, _) => ConfigGroup
    case V1ScramCredential(_, _) => SecurityGroup
    case V1DeleteScramCredential(_, _) => SecurityGroup
    case V1AccessControlEntry(_) => SecurityGroup
    case V1DeleteAccessControlEntry(_) => SecurityGroup
    case V1DelegationToken(_) => SecurityGroup
    case V1DeleteDelegationToken(_) => SecurityGroup
    case V1TopicFreeze(_) => GuardGroup
    case V1BreakGlassProposal(_) => GuardGroup
    case V1DeleteBreakGlassProposal(_) => GuardGroup
    case V1ProducerIds(_) => ControlGroup
    case V1KRaftVersion(_) => ControlGroup
    case V1Voters(_) => ControlGroup
    case V1FeatureLevel(_, _) => ControlGroup
    case V1FeaturesEpoch(_) => ControlGroup
    case _ => TopicGroup
  }

  predicate AllIn(g: GroupName, rs: seq<Record>)
  {
    forall i :: 0 <= i < |rs| ==> GroupOf(rs[i]) == g
  }

  /** One record per entry of a table, in the order of a walk. */
  function EachEntry<K, V>(m: map<K, V>, ks: seq<K>, mk: (K, V) -> Record): (rs: seq<Record>)
    requires Enumerates(ks, m.Keys)
    ensures |rs| == |ks| && forall i :: 0 <= i < |ks| ==> ks[i] in m && rs[i] == mk(ks[i], m[ks[i]])
  {
    assert forall i :: 0 <= i < |ks| ==> ks[i] in Elems(ks);
    seq(|ks|, i requires 0 <= i < |ks| => mk(ks[i], m[ks[i]]))
  }

  function EachNested<A, B, V>(m: map<A, map<B, V>>, ks: seq<(A, B)>, mk: (A, B, V) -> Record)
    : (rs: seq<Record>)
    requires Enumerates(ks, FlatKeys(m))
    ensures |rs| == |ks| && forall i :: 0 <= i < |ks| ==>
      InNest(m, ks[i].0, ks[i].1) && rs[i] == mk(ks[i].0, ks[i].1, m[ks[i].0][ks[i].1])
  {
    assert forall i :: 0 <= i < |ks| ==> ks[i] in Elems(ks);
    seq(|ks|, i requires 0 <= i < |ks| => mk(ks[i].0, ks[i].1, m[ks[i].0][ks[i].1]))
  }

  function PutBrokers(x: Image, ks: seq<NodeId>): (rs: seq<Record>)
    requires Enumerates(ks, x.nodes.brokers.Keys)
    ensures AllIn(NodeGroup, rs)
  {
    EachEntry(x.nodes.brokers, ks, (k, v) => V1BrokerRegistration(v))
  }

  function PutControllers(x: Image, ks: seq<NodeId>): (rs: seq<Record>)
    requires Enumerates(ks, x.nodes.controllers.Keys)
    ensures AllIn(NodeGroup, rs)
  {
    EachEntry(x.nodes.controllers, ks, (k, v) => V1ControllerRegistration(v))
  }

  function PutBrokerConfigs(x: Image, ks: seq<(NodeId, Str)>): (rs: seq<Record>)
    requires Enumerates(ks, FlatKeys(x.configs.brokerConfigs))
    ensures AllIn(ConfigGroup, rs)
  {
    EachNested(x.configs.brokerConfigs, ks, (a, b, v) => V1BrokerConfig(a, b, Some(v)))
  }

  function PutTopics(x: Image, ks: seq<Str>): (rs: seq<Record>)
    requires Enumerates(ks, x.topics.topics.Keys)
    ensures AllIn(TopicGroup, rs)
  {
    EachEntry(x.topics.topics, ks, (k, v) => V1Topic(v))
  }

  function PutPartitions(x: Image, ks: seq<(Str, int)>): (rs: seq<Record>)
    requires Enumerates(ks, FlatKeys(x.topics.partitions))
    ensures AllIn(TopicGroup, rs)
  {
    EachNested(x.topics.partitions, ks, (a, b, v) => V1Partition(v))
  }

  function PutNextOffsets(x: Image, ks: seq<(Str, int)>): (rs: seq<Record>)
    requires Enumerates(ks, FlatKeys(x.topics.nextOffsets))
    ensures AllIn(TopicGroup, rs)
  {
    EachNested(x.topics.nextOffsets, ks, (a, b, v) => V1PartitionOffsetAdvance(a, b, v))
  }

  function PutElr(x: Image, ks: seq<(Str, int)>): (rs: seq<Record>)
    requires Enumerates(ks, FlatKeys(x.topics.elr))
    ensures AllIn(TopicGroup, rs)
  {
    EachNested(x.topics.elr, ks, (a, b, v: Elr) => V1PartitionElr(a, b, v.0, v.1))
  }

  function PutRecovery(x: Image, ks: seq<(Str, int)>): (rs: seq<Record>)
    requires Enumerates(ks, FlatKeys(x.topics.recovery))
    ensures AllIn(TopicGroup, rs)
  {
    EachNested(x.topics.recovery, ks, (a, b, v) => V1PartitionRecovery(a, b, v))
  }

  function PutTopicConfigs(x: Image, ks: seq<Str>): (rs: seq<Record>)
    requires Enumerates(ks, x.topics.configs.Keys)
    ensures AllIn(TopicGroup, rs)
  {
    EachEntry(x.topics.configs, ks, (k, v) => V1TopicConfig(k, v))
  }

  function PutScram(x: Image, ks: seq<(Str, nat)>): (rs: seq<Record>)
    requires Enumerates(ks, x.security.scram.Keys)
    ensures AllIn(SecurityGroup, rs)
  {
    EachEntry(x.security.scram, ks, (k: (Str, nat), v) => V1ScramCredential(k.0, v))
  }

  function PutClientQuotas(x: Image, ks: seq<(EntityKey, Str)>): (rs: seq<Record>)
    requires Enumerates(ks, FlatKeys(x.configs.clientQuotas))
    ensures AllIn(ConfigGroup, rs)
  {
    EachNested(x.configs.clientQuotas, ks, (a, b, v) => V1ClientQuota(a, b, Some(v)))
  }

  function PutTokens(x: Image, ks: seq<Str>): (rs: seq<Record>)
    requires Enumerates(ks, x.security.tokens.Keys)
    ensures AllIn(SecurityGroup, rs)
  {
    EachEntry(x.security.tokens, ks, (k, v) => V1DelegationToken(v))
  }

  function PutClientMetrics(x: Image, ks: seq<Str>): (rs: seq<Record>)
    requires Enumerates(ks, x.configs.clientMetrics.Keys)
    ensures AllIn(ConfigGroup, rs)
  {
    EachEntry(x.configs.clientMetrics, ks, (k, v) => V1ClientMetricsConfig(k, v))
  }

  function PutGroupConfigs(x: Image, ks: seq<Str>): (rs: seq<Record>)
    requires Enumerates(ks, x.configs.groupConfigs.Keys)
    ensures AllIn(ConfigGroup, rs)
  {
    EachEntry(x.configs.groupConfigs, ks, (k, v) => V1GroupConfig(k, v))
  }

  function PutFreezesLiteral(x: Image, ks: seq<Str>): (rs: seq<Record>)
    requires Enumerates(ks, x.guard.freezesLiteral.Keys)
    ensures AllIn(GuardGroup, rs)
  {
    EachEntry(x.guard.freezesLiteral, ks, (k, v) => V1TopicFreeze(v))
  }

  function PutFreezesPrefixed(x: Image, ks: seq<Str>): (rs: seq<Record>)
    requires Enumerates(ks, x.guard.freezesPrefixed.Keys)
    ensures AllIn(GuardGroup, rs)
  {
    EachEntry(x.guard.freezesPrefixed, ks, (k, v) => V1TopicFreeze(v))
  }

  function PutBreakGlass(x: Image, ks: seq<Uuid>): (rs: seq<Record>)
    requires Enumerates(ks, x.guard.breakGlass.Keys)
    ensures AllIn(GuardGroup, rs)
  {
    EachEntry(x.guard.breakGlass, ks, (k, v) => V1BreakGlassProposal(v))
  }

  function PutFeatureLevels(x: Image, ks: seq<Str>): (rs: seq<Record>)
    requires Enumerates(ks, x.control.featureLevels.Keys)
    ensures AllIn(ControlGroup, rs)
  {
    EachEntry(x.control.featureLevels, ks, (k, v) => V1FeatureLevel(k, v))
  }

  function PutAcls(ks: seq<AclEntry>): (rs: seq<Record>)
    ensures AllIn(SecurityGroup, rs)
  {
    seq(|ks|, i requires 0 <= i < |ks| => V1AccessControlEntry(ks[i]))
  }

  function PutProducerIds(s: ControlState): (rs: seq<Record>)
    ensures AllIn(ControlGroup, rs)
  {
    if s.producerIds.Some? then [V1ProducerIds(s.producerIds.value)] else []
  }

  function PutEpoch(s: ControlState): (rs: seq<Record>)
    ensures AllIn(ControlGroup, rs)
  {
    if s.featuresEpoch >= 0 then [V1FeaturesEpoch(s.featuresEpoch)] else []
  }

  function PutQuorum(s: ControlState): (rs: seq<Record>)
    ensures AllIn(ControlGroup, rs)
  {
    (if s.kraftVersion != 0 then [V1KRaftVersion(s.kraftVersion)] else [])
    + (if s.voters != [] then [V1Voters(s.voters)] else [])
  }

  ghost function NodeRecords(x: Image, w: Walk): seq<Record>
    requires Walks(x, w)
  {
    PutBrokers(x, w.brokers) + PutControllers(x, w.controllers) + PutBrokerConfigs(x, w.brokerConfigs)
  }

  ghost function TopicRecords(x: Image, w: Walk): seq<Record>
    requires Walks(x, w)
  {
    PutTopics(x, w.topics) + PutPartitions(x, w.partitions) + PutNextOffsets(x, w.nextOffsets)
    + PutElr(x, w.elr) + PutRecovery(x, w.recovery) + PutTopicConfigs(x, w.topicConfigs)
  }

  ghost function SecurityRecords(x: Image, w: Walk): seq<Record>
    requires Walks(x, w)
  {
    PutScram(x, w.scram) + PutAcls(w.acls) + PutClientQuotas(x, w.clientQuotas)
    + PutProducerIds(x.control) + PutTokens(x, w.tokens)
  }

  ghost function RegistryRecords(x: Image, w: Walk): seq<Record>
    requires Walks(x, w)
  {
    PutClientMetrics(x, w.clientMetrics) + PutGroupConfigs(x, w.groupConfigs)
    + PutFreezesLiteral(x, w.freezesLiteral) + PutFreezesPrefixed(x, w.freezesPrefixed)
    + PutBreakGlass(x, w.breakGlass)
  }

  ghost function ControlRecords(x: Image, w: Walk): seq<Record>
    requires Walks(x, w)
  {
    PutFeatureLevels(x, w.featureLevels) + PutEpoch(x.control) + PutQuorum(x.control)
  }

  /** `to_records`, for one order of walking the tables. */
  ghost function ToRecords(x: Image, w: Walk): seq<Record>
    requires Walks(x, w)
  {
    NodeRecords(x, w) + TopicRecords(x, w) + SecurityRecords(x, w) + RegistryRecords(x, w)
    + ControlRecords(x, w)
  }

  // ----- replaying one table -----

  lemma FoldOne<S>(step: (S, Record) -> S, s: S, r: Record)
    ensures Fold(step, s, [r]) == step(s, r)
  {
    assert [r][1..] == [];
  }

  lemma FoldHead<S>(step: (S, Record) -> S, s: S, rs: seq<Record>, i: nat)
    requires i < |rs|
    ensures Fold(step, s, rs[i..]) == Fold(step, step(s, rs[i]), rs[i + 1..])
  {
    assert rs[i..][0] == rs[i] && rs[i..][1..] == rs[i + 1..];
  }

  /** Record `i` takes the state `st(i)` to the next. */
  ghost predicate Advances<S>(step: (S, Record) -> S, rs: seq<Record>, st: nat -> S, i: nat)
  {
    i < |rs| ==> step(st(i), rs[i]) == st(i + 1)
  }

  lemma {:induction false} FoldSteps<S>(step: (S, Record) -> S, rs: seq<Record>, st: nat -> S, from: nat)
    requires from <= |rs|
    requires forall i: nat :: Advances(step, rs, st, i)
    ensures Fold(step, st(from), rs[from..]) == st(|rs|)
    decreases |rs| - from
  {
    if from < |rs| {
      FoldSteps(step, rs, st, from + 1);
      assert Advances(step, rs, st, from);
      assert rs[from..][1..] == rs[from + 1..];
    }
  }

  lemma FoldThrough<S>(step: (S, Record) -> S, rs: seq<Record>, st: nat -> S)
    requires forall i: nat :: Advances(step, rs, st, i)
    ensures Fold(step, st(0), rs) == st(|rs|)
  {
    FoldSteps(step, rs, st, 0);
    assert rs[0..] == rs;
  }

  /** Record `i` adds its key's entry to the table that `put` installs. */
  ghost predicate PutsEntry<K, V, S>(m: map<K, V>, ks: seq<K>, rs: seq<Record>, step: (S, Record) -> S,
                                     put: map<K, V> -> S, i: nat, acc: map<K, V>)
  {
    i < |ks| && i < |rs| && ks[i] in m && ks[i] !in acc ==>
      step(put(acc), rs[i]) == put(acc[ks[i] := m[ks[i]]])
  }

  /** Then the records rebuild the table, in any order. */
  lemma RestoreTable<K(!new), V(!new), S>(m: map<K, V>, ks: seq<K>, rs: seq<Record>,
                                          step: (S, Record) -> S, put: map<K, V> -> S)
    requires Enumerates(ks, m.Keys) && |rs| == |ks|
    requires forall i: nat, acc: map<K, V> :: PutsEntry(m, ks, rs, step, put, i, acc)
    ensures Fold(step, put(map[]), rs) == put(m)
  {
    var st := (i: nat) => put(Part(m, ks, i));
    forall i: nat ensures Advances(step, rs, st, i) {
      if i < |rs| {
        PartStep(m, ks, i);
        assert PutsEntry(m, ks, rs, step, put, i, Part(m, ks, i));
      }
    }
    FoldThrough(step, rs, st);
    PartEnds(m, ks);
  }

  ghost predicate PutsNested<A, B, V, S>(m: map<A, map<B, V>>, ks: seq<(A, B)>, rs: seq<Record>,
                                         step: (S, Record) -> S, put: map<A, map<B, V>> -> S,
                                         i: nat, acc: map<A, map<B, V>>)
  {
    i < |ks| && i < |rs| && InNest(m, ks[i].0, ks[i].1) && !InNest(acc, ks[i].0, ks[i].1) ==>
      step(put(acc), rs[i]) == put(NestPut(acc, ks[i].0, ks[i].1, m[ks[i].0][ks[i].1]))
  }

  /** The same for a table of tables; empty inner tables are not rebuilt. */
  lemma RestoreNest<A(!new), B(!new), V(!new), S>(m: map<A, map<B, V>>, ks: seq<(A, B)>, rs: seq<Record>,
                                                  step: (S, Record) -> S, put: map<A, map<B, V>> -> S)
    requires Enumerates(ks, FlatKeys(m)) && |rs| == |ks|
    requires forall i: nat, acc: map<A, map<B, V>> :: PutsNested(m, ks, rs, step, put, i, acc)
    ensures Fold(step, put(map[]), rs) == put(Compact(m))
  {
    var st := (i: nat) => put(NestPart(m, ks, i));
    forall i: nat ensures Advances(step, rs, st, i) {
      if i < |rs| {
        NestPartStep(m, ks, i);
        assert PutsNested(m, ks, rs, step, put, i, NestPart(m, ks, i));
      }
    }
    FoldThrough(step, rs, st);
    NestPartEnds(m, ks);
  }

  /** The image after `rs` reached one group only. */
  function ReplayedIn(y: Image, g: GroupName, rs: seq<Record>): Image
  {
    match g
    case TopicGroup => y.(topics := Fold(TopicStep, y.topics, rs))
    case NodeGroup => y.(nodes := Fold(NodeStep, y.nodes, rs))
    case ConfigGroup => y.(configs := Fold(ConfigStep, y.configs, rs))
    case SecurityGroup => y.(security := Fold(SecurityStep, y.security, rs))
    case GuardGroup => y.(guard := Fold(GuardStep, y.guard, rs))
    case ControlGroup => y.(control := Fold(ControlStep, y.control, rs))
  }

  lemma ApplyInGroup(y: Image, r: Record)
    ensures Apply(y, r) == match GroupOf(r)
                           case TopicGroup => y.(topics := TopicStep(y.topics, r))
                           case NodeGroup => y.(nodes := NodeStep(y.nodes, r))
                           case ConfigGroup => y.(configs := ConfigStep(y.configs, r))
                           case SecurityGroup => y.(security := SecurityStep(y.security, r))
                           case GuardGroup => y.(guard := GuardStep(y.guard, r))
                           case ControlGroup => y.(control := ControlStep(y.control, r))
  {
  }

  lemma {:induction false} ReplayInGroup(y: Image, g: GroupName, rs: seq<Record>)
    requires AllIn(g, rs)
    ensures Replay(y, rs) == ReplayedIn(y, g, rs)
    decreases |rs|
  {
    if rs != [] {
      ApplyInGroup(y, rs[0]);
      ReplayInGroup(Apply(y, rs[0]), g, rs[1..]);
    }
  }

  // ----- each table on its own -----

  lemma BrokersStep(s: NodeState, acc: map<NodeId, BrokerRegistrationRecord>, k: NodeId, v: BrokerRegistrationRecord)
    requires v.nodeId == k
    ensures NodeStep(s.(brokers := acc), V1BrokerRegistration(v)) == s.(brokers := acc[k := v])
  {
  }

  lemma ReplayBrokers(m: map<NodeId, BrokerRegistrationRecord>, ks: seq<NodeId>, rs: seq<Record>, y: Image)
    requires Enumerates(ks, m.Keys) && |rs| == |ks| && y.nodes.brokers == map[]
    requires forall i :: 0 <= i < |ks| && ks[i] in m ==> rs[i] == V1BrokerRegistration(m[ks[i]]) && m[ks[i]].nodeId == ks[i]
    requires AllIn(NodeGroup, rs)
    ensures Replay(y, rs) == y.(nodes := y.nodes.(brokers := m))
  {
    assert Fold(NodeStep, y.nodes, rs) == y.nodes.(brokers := m) by {
      var put := (acc: map<NodeId, BrokerRegistrationRecord>) => y.nodes.(brokers := acc);
      forall i: nat, acc: map<NodeId, BrokerRegistrationRecord> ensures PutsEntry(m, ks, rs, NodeStep, put, i, acc) {
        if i < |ks| && ks[i] in m { BrokersStep(y.nodes, acc, ks[i], m[ks[i]]); }
      }
      RestoreTable(m, ks, rs, NodeStep, put);
    }
    ReplayInGroup(y, NodeGroup, rs);
  }

  lemma RestoreBrokers(x: Image, ks: seq<NodeId>, y: Image)
    requires NodesKeyed(x.nodes) && Enumerates(ks, x.nodes.brokers.Keys) && y.nodes.brokers == map[]
    ensures Replay(y, PutBrokers(x, ks)) == y.(nodes := y.nodes.(brokers := x.nodes.brokers))
  {
    ReplayBrokers(x.nodes.brokers, ks, PutBrokers(x, ks), y);
  }

  lemma ControllersStep(s: NodeState, acc: map<NodeId, ControllerRegistrationRecord>, k: NodeId, v: ControllerRegistrationRecord)
    requires v.nodeId == k
    ensures NodeStep(s.(controllers := acc), V1ControllerRegistration(v)) == s.(controllers := acc[k := v])
  {
  }

  lemma ReplayControllers(m: map<NodeId, ControllerRegistrationRecord>, ks: seq<NodeId>, rs: seq<Record>, y: Image)
    requires Enumerates(ks, m.Keys) && |rs| == |ks| && y.nodes.controllers == map[]
    requires forall i :: 0 <= i < |ks| && ks[i] in m ==> rs[i] == V1ControllerRegistration(m[ks[i]]) && m[ks[i]].nodeId == ks[i]
    requires AllIn(NodeGroup, rs)
    ensures Replay(y, rs) == y.(nodes := y.nodes.(controllers := m))
  {
    assert Fold(NodeStep, y.nodes, rs) == y.nodes.(controllers := m) by {
      var put := (acc: map<NodeId, ControllerRegistrationRecord>) => y.nodes.(controllers := acc);
      forall i: nat, acc: map<NodeId, ControllerRegistrationRecord> ensures PutsEntry(m, ks, rs, NodeStep, put, i, acc) {
        if i < |ks| && ks[i] in m { ControllersStep(y.nodes, acc, ks[i], m[ks[i]]); }
      }
      RestoreTable(m, ks, rs, NodeStep, put);
    }
    ReplayInGroup(y, NodeGroup, rs);
  }

  lemma RestoreControllers(x: Image, ks: seq<NodeId>, y: Image)
    requires NodesKeyed(x.nodes) && Enumerates(ks, x.nodes.controllers.Keys) && y.nodes.controllers == map[]
    ensures Replay(y, PutControllers(x, ks)) == y.(nodes := y.nodes.(controllers := x.nodes.controllers))
  {
    ReplayControllers(x.nodes.controllers, ks, PutControllers(x, ks), y);
  }

  lemma TopicConfigsStep(s: TopicState, acc: map<Str, Configs>, k: Str, v: Configs)
    requires |v| > 0
    ensures TopicStep(s.(configs := acc), V1TopicConfig(k, v)) == s.(configs := acc[k := v])
  {
  }

  lemma ReplayTopicConfigs(m: map<Str, Configs>, ks: seq<Str>, rs: seq<Record>, y: Image)
    requires Enumerates(ks, m.Keys) && |rs| == |ks| && y.topics.configs == map[]
    requires forall i :: 0 <= i < |ks| && ks[i] in m ==> rs[i] == V1TopicConfig(ks[i], m[ks[i]]) && |m[ks[i]]| > 0
    requires AllIn(TopicGroup, rs)
    ensures Replay(y, rs) == y.(topics := y.topics.(configs := m))
  {
    assert Fold(TopicStep, y.topics, rs) == y.topics.(configs := m) by {
      var put := (acc: map<Str, Configs>) => y.topics.(configs := acc);
      forall i: nat, acc: map<Str, Configs> ensures PutsEntry(m, ks, rs, TopicStep, put, i, acc) {
        if i < |ks| && ks[i] in m { TopicConfigsStep(y.topics, acc, ks[i], m[ks[i]]); }
      }
      RestoreTable(m, ks, rs, TopicStep, put);
    }
    ReplayInGroup(y, TopicGroup, rs);
  }

  lemma RestoreTopicConfigs(x: Image, ks: seq<Str>, y: Image)
    requires NoEmptyInner(x.topics.configs) && Enumerates(ks, x.topics.configs.Keys) && y.topics.configs == map[]
    ensures Replay(y, PutTopicConfigs(x, ks)) == y.(topics := y.topics.(configs := x.topics.configs))
  {
    ReplayTopicConfigs(x.topics.configs, ks, PutTopicConfigs(x, ks), y);
  }

  lemma ScramStep(s: SecurityState, acc: map<(Str, nat), ScramCredential>, k: (Str, nat), v: ScramCredential)
    requires v.mechanism == k.1
    ensures SecurityStep(s.(scram := acc), V1ScramCredential(k.0, v)) == s.(scram := acc[k := v])
  {
  }

  lemma ReplayScram(m: map<(Str, nat), ScramCredential>, ks: seq<(Str, nat)>, rs: seq<Record>, y: Image)
    requires Enumerates(ks, m.Keys) && |rs| == |ks| && y.security.scram == map[]
    requires forall i :: 0 <= i < |ks| && ks[i] in m ==> rs[i] == V1ScramCredential(ks[i].0, m[ks[i]]) && m[ks[i]].mechanism == ks[i].1
    requires AllIn(SecurityGroup, rs)
    ensures Replay(y, rs) == y.(security := y.security.(scram := m))
  {
    assert Fold(SecurityStep, y.security, rs) == y.security.(scram := m) by {
      var put := (acc: map<(Str, nat), ScramCredential>) => y.security.(scram := acc);
      forall i: nat, acc: map<(Str, nat), ScramCredential> ensures PutsEntry(m, ks, rs, SecurityStep, put, i, acc) {
        if i < |ks| && ks[i] in m { ScramStep(y.security, acc, ks[i], m[ks[i]]); }
      }
      RestoreTable(m, ks, rs, SecurityStep, put);
    }
    ReplayInGroup(y, SecurityGroup, rs);
  }

  lemma RestoreScram(x: Image, ks: seq<(Str, nat)>, y: Image)
    requires SecurityKeyed(x.security) && Enumerates(ks, x.security.scram.Keys) && y.security.scram == map[]
    ensures Replay(y, PutScram(x, ks)) == y.(security := y.security.(scram := x.security.scram))
  {
    ReplayScram(x.security.scram, ks, PutScram(x, ks), y);
  }

  lemma TokensStep(s: SecurityState, acc: map<Str, DelegationToken>, k: Str, v: DelegationToken)
    requires v.tokenId == k
    ensures SecurityStep(s.(tokens := acc), V1DelegationToken(v)) == s.(tokens := acc[k := v])
  {
  }

  lemma ReplayTokens(m: map<Str, DelegationToken>, ks: seq<Str>, rs: seq<Record>, y: Image)
    requires Enumerates(ks, m.Keys) && |rs| == |ks| && y.security.tokens == map[]
    requires forall i :: 0 <= i < |ks| && ks[i] in m ==> rs[i] == V1DelegationToken(m[ks[i]]) && m[ks[i]].tokenId == ks[i]
    requires AllIn(SecurityGroup, rs)
    ensures Replay(y, rs) == y.(security := y.security.(tokens := m))
  {
    assert Fold(SecurityStep, y.security, rs) == y.security.(tokens := m) by {
      var put := (acc: map<Str, DelegationToken>) => y.security.(tokens := acc);
      forall i: nat, acc: map<Str, DelegationToken> ensures PutsEntry(m, ks, rs, SecurityStep, put, i, acc) {
        if i < |ks| && ks[i] in m { TokensStep(y.security, acc, ks[i], m[ks[i]]); }
      }
      RestoreTable(m, ks, rs, SecurityStep, put);
    }
    ReplayInGroup(y, SecurityGroup, rs);
  }

  lemma RestoreTokens(x: Image, ks: seq<Str>, y: Image)
    requires SecurityKeyed(x.security) && Enumerates(ks, x.security.tokens.Keys) && y.security.tokens == map[]
    ensures Replay(y, PutTokens(x, ks)) == y.(security := y.security.(tokens := x.security.tokens))
  {
    ReplayTokens(x.security.tokens, ks, PutTokens(x, ks), y);
  }

  lemma ClientMetricsStep(s: ConfigState, acc: map<Str, Configs>, k: Str, v: Configs)
    requires |v| > 0
    ensures ConfigStep(s.(clientMetrics := acc), V1ClientMetricsConfig(k, v)) == s.(clientMetrics := acc[k := v])
  {
  }

  lemma ReplayClientMetrics(m: map<Str, Configs>, ks: seq<Str>, rs: seq<Record>, y: Image)
    requires Enumerates(ks, m.Keys) && |rs| == |ks| && y.configs.clientMetrics == map[]
    requires forall i :: 0 <= i < |ks| && ks[i] in m ==> rs[i] == V1ClientMetricsConfig(ks[i], m[ks[i]]) && |m[ks[i]]| > 0
    requires AllIn(ConfigGroup, rs)
    ensures Replay(y, rs) == y.(configs := y.configs.(clientMetrics := m))
  {
    assert Fold(ConfigStep, y.configs, rs) == y.configs.(clientMetrics := m) by {
      var put := (acc: map<Str, Configs>) => y.configs.(clientMetrics := acc);
      forall i: nat, acc: map<Str, Configs> ensures PutsEntry(m, ks, rs, ConfigStep, put, i, acc) {
        if i < |ks| && ks[i] in m { ClientMetricsStep(y.configs, acc, ks[i], m[ks[i]]); }
      }
      RestoreTable(m, ks, rs, ConfigStep, put);
    }
    ReplayInGroup(y, ConfigGroup, rs);
  }

  lemma RestoreClientMetrics(x: Image, ks: seq<Str>, y: Image)
    requires NoEmptyInner(x.configs.clientMetrics) && Enumerates(ks, x.configs.clientMetrics.Keys) && y.configs.clientMetrics == map[]
    ensures Replay(y, PutClientMetrics(x, ks)) == y.(configs := y.configs.(clientMetrics := x.configs.clientMetrics))
  {
    ReplayClientMetrics(x.configs.clientMetrics, ks, PutClientMetrics(x, ks), y);
  }

  lemma GroupConfigsStep(s: ConfigState, acc: map<Str, Configs>, k: Str, v: Configs)
    requires |v| > 0
    ensures ConfigStep(s.(groupConfigs := acc), V1GroupConfig(k, v)) == s.(groupConfigs := acc[k := v])
  {
  }

  lemma ReplayGroupConfigs(m: map<Str, Configs>, ks: seq<Str>, rs: seq<Record>, y: Image)
    requires Enumerates(ks, m.Keys) && |rs| == |ks| && y.configs.groupConfigs == map[]
    requires forall i :: 0 <= i < |ks| && ks[i] in m ==> rs[i] == V1GroupConfig(ks[i], m[ks[i]]) && |m[ks[i]]| > 0
    requires AllIn(ConfigGroup, rs)
    ensures Replay(y, rs) == y.(configs := y.configs.(groupConfigs := m))
  {
    assert Fold(ConfigStep, y.configs, rs) == y.configs.(groupConfigs := m) by {
      var put := (acc: map<Str, Configs>) => y.configs.(groupConfigs := acc);
      forall i: nat, acc: map<Str, Configs> ensures PutsEntry(m, ks, rs, ConfigStep, put, i, acc) {
        if i < |ks| && ks[i] in m { GroupConfigsStep(y.configs, acc, ks[i], m[ks[i]]); }
      }
      RestoreTable(m, ks, rs, ConfigStep, put);
    }
    ReplayInGroup(y, ConfigGroup, rs);
  }

  lemma RestoreGroupConfigs(x: Image, ks: seq<Str>, y: Image)
    requires NoEmptyInner(x.configs.groupConfigs) && Enumerates(ks, x.configs.groupConfigs.Keys) && y.configs.groupConfigs == map[]
    ensures Replay(y, PutGroupConfigs(x, ks)) == y.(configs := y.configs.(groupConfigs := x.configs.groupConfigs))
  {
    ReplayGroupConfigs(x.configs.groupConfigs, ks, PutGroupConfigs(x, ks), y);
  }

  lemma FreezesLiteralStep(s: GuardState, acc: map<Str, TopicFreezeRecord>, k: Str, v: TopicFreezeRecord)
    requires v.scope == k && v.frozen && v.patternType.Literal?
    ensures GuardStep(s.(freezesLiteral := acc), V1TopicFreeze(v)) == s.(freezesLiteral := acc[k := v])
  {
  }

  lemma ReplayFreezesLiteral(m: map<Str, TopicFreezeRecord>, ks: seq<Str>, rs: seq<Record>, y: Image)
    requires Enumerates(ks, m.Keys) && |rs| == |ks| && y.guard.freezesLiteral == map[]
    requires forall i :: 0 <= i < |ks| && ks[i] in m ==> rs[i] == V1TopicFreeze(m[ks[i]]) && m[ks[i]].scope == ks[i] && m[ks[i]].frozen && m[ks[i]].patternType.Literal?
    requires AllIn(GuardGroup, rs)
    ensures Replay(y, rs) == y.(guard := y.guard.(freezesLiteral := m))
  {
    assert Fold(GuardStep, y.guard, rs) == y.guard.(freezesLiteral := m) by {
      var put := (acc: map<Str, TopicFreezeRecord>) => y.guard.(freezesLiteral := acc);
      forall i: nat, acc: map<Str, TopicFreezeRecord> ensures PutsEntry(m, ks, rs, GuardStep, put, i, acc) {
        if i < |ks| && ks[i] in m { FreezesLiteralStep(y.guard, acc, ks[i], m[ks[i]]); }
      }
      RestoreTable(m, ks, rs, GuardStep, put);
    }
    ReplayInGroup(y, GuardGroup, rs);
  }

  lemma RestoreFreezesLiteral(x: Image, ks: seq<Str>, y: Image)
    requires GuardRouted(x.guard) && Enumerates(ks, x.guard.freezesLiteral.Keys) && y.guard.freezesLiteral == map[]
    ensures Replay(y, PutFreezesLiteral(x, ks)) == y.(guard := y.guard.(freezesLiteral := x.guard.freezesLiteral))
  {
    ReplayFreezesLiteral(x.guard.freezesLiteral, ks, PutFreezesLiteral(x, ks), y);
  }

  lemma FreezesPrefixedStep(s: GuardState, acc: map<Str, TopicFreezeRecord>, k: Str, v: TopicFreezeRecord)
    requires v.scope == k && v.frozen && v.patternType.Prefixed?
    ensures GuardStep(s.(freezesPrefixed := acc), V1TopicFreeze(v)) == s.(freezesPrefixed := acc[k := v])
  {
  }

  lemma ReplayFreezesPrefixed(m: map<Str, TopicFreezeRecord>, ks: seq<Str>, rs: seq<Record>, y: Image)
    requires Enumerates(ks, m.Keys) && |rs| == |ks| && y.guard.freezesPrefixed == map[]
    requires forall i :: 0 <= i < |ks| && ks[i] in m ==> rs[i] == V1TopicFreeze(m[ks[i]]) && m[ks[i]].scope == ks[i] && m[ks[i]].frozen && m[ks[i]].patternType.Prefixed?
    requires AllIn(GuardGroup, rs)
    ensures Replay(y, rs) == y.(guard := y.guard.(freezesPrefixed := m))
  {
    assert Fold(GuardStep, y.guard, rs) == y.guard.(freezesPrefixed := m) by {
      var put := (acc: map<Str, TopicFreezeRecord>) => y.guard.(freezesPrefixed := acc);
      forall i: nat, acc: map<Str, TopicFreezeRecord> ensures PutsEntry(m, ks, rs, GuardStep, put, i, acc) {
        if i < |ks| && ks[i] in m { FreezesPrefixedStep(y.guard, acc, ks[i], m[ks[i]]); }
      }
      RestoreTable(m, ks, rs, GuardStep, put);
    }
    ReplayInGroup(y, GuardGroup, rs);
  }

  lemma RestoreFreezesPrefixed(x: Image, ks: seq<Str>, y: Image)
    requires GuardRouted(x.guard) && Enumerates(ks, x.guard.freezesPrefixed.Keys) && y.guard.freezesPrefixed == map[]
    ensures Replay(y, PutFreezesPrefixed(x, ks)) == y.(guard := y.guard.(freezesPrefixed := x.guard.freezesPrefixed))
  {
    ReplayFreezesPrefixed(x.guard.freezesPrefixed, ks, PutFreezesPrefixed(x, ks), y);
  }

  lemma BreakGlassStep(s: GuardState, acc: map<Uuid, BreakGlassProposalRecord>, k: Uuid, v: BreakGlassProposalRecord)
    requires v.proposalId == k
    ensures GuardStep(s.(breakGlass := acc), V1BreakGlassProposal(v)) == s.(breakGlass := acc[k := v])
  {
  }

  lemma ReplayBreakGlass(m: map<Uuid, BreakGlassProposalRecord>, ks: seq<Uuid>, rs: seq<Record>, y: Image)
    requires Enumerates(ks, m.Keys) && |rs| == |ks| && y.guard.breakGlass == map[]
    requires forall i :: 0 <= i < |ks| && ks[i] in m ==> rs[i] == V1BreakGlassProposal(m[ks[i]]) && m[ks[i]].proposalId == ks[i]
    requires AllIn(GuardGroup, rs)
    ensures Replay(y, rs) == y.(guard := y.guard.(breakGlass := m))
  {
    assert Fold(GuardStep, y.guard, rs) == y.guard.(breakGlass := m) by {
      var put := (acc: map<Uuid, BreakGlassProposalRecord>) => y.guard.(breakGlass := acc);
      forall i: nat, acc: map<Uuid, BreakGlassProposalRecord> ensures PutsEntry(m, ks, rs, GuardStep, put, i, acc) {
        if i < |ks| && ks[i] in m { BreakGlassStep(y.guard, acc, ks[i], m[ks[i]]); }
      }
      RestoreTable(m, ks, rs, GuardStep, put);
    }
    ReplayInGroup(y, GuardGroup, rs);
  }

  lemma RestoreBreakGlass(x: Image, ks: seq<Uuid>, y: Image)
    requires GuardRouted(x.guard) && Enumerates(ks, x.guard.breakGlass.Keys) && y.guard.breakGlass == map[]
    ensures Replay(y, PutBreakGlass(x, ks)) == y.(guard := y.guard.(breakGlass := x.guard.breakGlass))
  {
    ReplayBreakGlass(x.guard.breakGlass, ks, PutBreakGlass(x, ks), y);
  }

  lemma BrokerConfigsStep(s: ConfigState, acc: map<NodeId, map<Str, Str>>, a: NodeId, b: Str, v: Str)
    ensures ConfigStep(s.(brokerConfigs := acc), V1BrokerConfig(a, b, Some(v))) == s.(brokerConfigs := NestPut(acc, a, b, v))
  {
  }

  lemma ReplayBrokerConfigs(m: map<NodeId, map<Str, Str>>, ks: seq<(NodeId, Str)>, rs: seq<Record>, y: Image)
    requires Enumerates(ks, FlatKeys(m)) && |rs| == |ks| && y.configs.brokerConfigs == map[]
    requires forall i :: 0 <= i < |ks| && InNest(m, ks[i].0, ks[i].1) ==>
               rs[i] == V1BrokerConfig(ks[i].0, ks[i].1, Some(m[ks[i].0][ks[i].1]))
    requires AllIn(ConfigGroup, rs)
    ensures Replay(y, rs) == y.(configs := y.configs.(brokerConfigs := Compact(m)))
  {
    assert Fold(ConfigStep, y.configs, rs) == y.configs.(brokerConfigs := Compact(m)) by {
      var put := (acc: map<NodeId, map<Str, Str>>) => y.configs.(brokerConfigs := acc);
      forall i: nat, acc: map<NodeId, map<Str, Str>> ensures PutsNested(m, ks, rs, ConfigStep, put, i, acc) {
        if i < |ks| && InNest(m, ks[i].0, ks[i].1) && !InNest(acc, ks[i].0, ks[i].1) {
          BrokerConfigsStep(y.configs, acc, ks[i].0, ks[i].1, m[ks[i].0][ks[i].1]);
        }
      }
      RestoreNest(m, ks, rs, ConfigStep, put);
    }
    ReplayInGroup(y, ConfigGroup, rs);
  }

  lemma RestoreBrokerConfigs(x: Image, ks: seq<(NodeId, Str)>, y: Image)
    requires Enumerates(ks, FlatKeys(x.configs.brokerConfigs)) && y.configs.brokerConfigs == map[]
    ensures Replay(y, PutBrokerConfigs(x, ks)) == y.(configs := y.configs.(brokerConfigs := Compact(x.configs.brokerConfigs)))
  {
    ReplayBrokerConfigs(x.configs.brokerConfigs, ks, PutBrokerConfigs(x, ks), y);
  }

  lemma NextOffsetsStep(s: TopicState, acc: map<Str, map<int, int>>, a: Str, b: int, v: int)
    requires IsI64(v)
    requires !InNest(acc, a, b)
    ensures TopicStep(s.(nextOffsets := acc), V1PartitionOffsetAdvance(a, b, v)) == s.(nextOffsets := NestPut(acc, a, b, v))
  {
    assert WrapI64(0 + v) == v;
  }

  lemma ReplayNextOffsets(m: map<Str, map<int, int>>, ks: seq<(Str, int)>, rs: seq<Record>, y: Image)
    requires Enumerates(ks, FlatKeys(m)) && |rs| == |ks| && y.topics.nextOffsets == map[]
    requires forall i :: 0 <= i < |ks| && InNest(m, ks[i].0, ks[i].1) ==>
               rs[i] == V1PartitionOffsetAdvance(ks[i].0, ks[i].1, m[ks[i].0][ks[i].1]) && IsI64(m[ks[i].0][ks[i].1])
    requires AllIn(TopicGroup, rs)
    ensures Replay(y, rs) == y.(topics := y.topics.(nextOffsets := Compact(m)))
  {
    assert Fold(TopicStep, y.topics, rs) == y.topics.(nextOffsets := Compact(m)) by {
      var put := (acc: map<Str, map<int, int>>) => y.topics.(nextOffsets := acc);
      forall i: nat, acc: map<Str, map<int, int>> ensures PutsNested(m, ks, rs, TopicStep, put, i, acc) {
        if i < |ks| && InNest(m, ks[i].0, ks[i].1) && !InNest(acc, ks[i].0, ks[i].1) {
          NextOffsetsStep(y.topics, acc, ks[i].0, ks[i].1, m[ks[i].0][ks[i].1]);
        }
      }
      RestoreNest(m, ks, rs, TopicStep, put);
    }
    ReplayInGroup(y, TopicGroup, rs);
  }

  lemma RestoreNextOffsets(x: Image, ks: seq<(Str, int)>, y: Image)
    requires SidecarsMinimal(x.topics) && Enumerates(ks, FlatKeys(x.topics.nextOffsets)) && y.topics.nextOffsets == map[]
    ensures Replay(y, PutNextOffsets(x, ks)) == y.(topics := y.topics.(nextOffsets := x.topics.nextOffsets))
  {
    CompactIsStable(x.topics.nextOffsets);
    ReplayNextOffsets(x.topics.nextOffsets, ks, PutNextOffsets(x, ks), y);
  }

  lemma ElrStep(s: TopicState, acc: map<Str, map<int, Elr>>, a: Str, b: int, v: Elr)
    requires v != ([], [])
    ensures TopicStep(s.(elr := acc), V1PartitionElr(a, b, v.0, v.1)) == s.(elr := NestPut(acc, a, b, v))
  {
  }

  lemma ReplayElr(m: map<Str, map<int, Elr>>, ks: seq<(Str, int)>, rs: seq<Record>, y: Image)
    requires Enumerates(ks, FlatKeys(m)) && |rs| == |ks| && y.topics.elr == map[]
    requires forall i :: 0 <= i < |ks| && InNest(m, ks[i].0, ks[i].1) ==>
               rs[i] == V1PartitionElr(ks[i].0, ks[i].1, m[ks[i].0][ks[i].1].0, m[ks[i].0][ks[i].1].1) && m[ks[i].0][ks[i].1] != ([], [])
    requires AllIn(TopicGroup, rs)
    ensures Replay(y, rs) == y.(topics := y.topics.(elr := Compact(m)))
  {
    assert Fold(TopicStep, y.topics, rs) == y.topics.(elr := Compact(m)) by {
      var put := (acc: map<Str, map<int, Elr>>) => y.topics.(elr := acc);
      forall i: nat, acc: map<Str, map<int, Elr>> ensures PutsNested(m, ks, rs, TopicStep, put, i, acc) {
        if i < |ks| && InNest(m, ks[i].0, ks[i].1) && !InNest(acc, ks[i].0, ks[i].1) {
          ElrStep(y.topics, acc, ks[i].0, ks[i].1, m[ks[i].0][ks[i].1]);
        }
      }
      RestoreNest(m, ks, rs, TopicStep, put);
    }
    ReplayInGroup(y, TopicGroup, rs);
  }

  lemma RestoreElr(x: Image, ks: seq<(Str, int)>, y: Image)
    requires SidecarsMinimal(x.topics) && Enumerates(ks, FlatKeys(x.topics.elr)) && y.topics.elr == map[]
    ensures Replay(y, PutElr(x, ks)) == y.(topics := y.topics.(elr := x.topics.elr))
  {
    CompactIsStable(x.topics.elr);
    ReplayElr(x.topics.elr, ks, PutElr(x, ks), y);
  }

  lemma RecoveryStep(s: TopicState, acc: map<Str, map<int, LeaderRecoveryState>>, a: Str, b: int, v: LeaderRecoveryState)
    requires v.Recovering?
    ensures TopicStep(s.(recovery := acc), V1PartitionRecovery(a, b, v)) == s.(recovery := NestPut(acc, a, b, v))
  {
  }

  lemma ReplayRecovery(m: map<Str, map<int, LeaderRecoveryState>>, ks: seq<(Str, int)>, rs: seq<Record>, y: Image)
    requires Enumerates(ks, FlatKeys(m)) && |rs| == |ks| && y.topics.recovery == map[]
    requires forall i :: 0 <= i < |ks| && InNest(m, ks[i].0, ks[i].1) ==>
               rs[i] == V1PartitionRecovery(ks[i].0, ks[i].1, m[ks[i].0][ks[i].1]) && m[ks[i].0][ks[i].1].Recovering?
    requires AllIn(TopicGroup, rs)
    ensures Replay(y, rs) == y.(topics := y.topics.(recovery := Compact(m)))
  {
    assert Fold(TopicStep, y.topics, rs) == y.topics.(recovery := Compact(m)) by {
      var put := (acc: map<Str, map<int, LeaderRecoveryState>>) => y.topics.(recovery := acc);
      forall i: nat, acc: map<Str, map<int, LeaderRecoveryState>> ensures PutsNested(m, ks, rs, TopicStep, put, i, acc) {
        if i < |ks| && InNest(m, ks[i].0, ks[i].1) && !InNest(acc, ks[i].0, ks[i].1) {
          RecoveryStep(y.topics, acc, ks[i].0, ks[i].1, m[ks[i].0][ks[i].1]);
        }
      }
      RestoreNest(m, ks, rs, TopicStep, put);
    }
    ReplayInGroup(y, TopicGroup, rs);
  }

  lemma RestoreRecovery(x: Image, ks: seq<(Str, int)>, y: Image)
    requires SidecarsMinimal(x.topics) && Enumerates(ks, FlatKeys(x.topics.recovery)) && y.topics.recovery == map[]
    ensures Replay(y, PutRecovery(x, ks)) == y.(topics := y.topics.(recovery := x.topics.recovery))
  {
    CompactIsStable(x.topics.recovery);
    ReplayRecovery(x.topics.recovery, ks, PutRecovery(x, ks), y);
  }

  lemma ClientQuotasStep(s: ConfigState, acc: map<EntityKey, map<Str, int>>, a: EntityKey, b: Str, v: int)
    requires Canonical(a) == a
    ensures ConfigStep(s.(clientQuotas := acc), V1ClientQuota(a, b, Some(v))) == s.(clientQuotas := NestPut(acc, a, b, v))
  {
  }

  lemma ReplayClientQuotas(m: map<EntityKey, map<Str, int>>, ks: seq<(EntityKey, Str)>, rs: seq<Record>, y: Image)
    requires Enumerates(ks, FlatKeys(m)) && |rs| == |ks| && y.configs.clientQuotas == map[]
    requires forall i :: 0 <= i < |ks| && InNest(m, ks[i].0, ks[i].1) ==>
               rs[i] == V1ClientQuota(ks[i].0, ks[i].1, Some(m[ks[i].0][ks[i].1])) && Canonical(ks[i].0) == ks[i].0
    requires AllIn(ConfigGroup, rs)
    ensures Replay(y, rs) == y.(configs := y.configs.(clientQuotas := Compact(m)))
  {
    assert Fold(ConfigStep, y.configs, rs) == y.configs.(clientQuotas := Compact(m)) by {
      var put := (acc: map<EntityKey, map<Str, int>>) => y.configs.(clientQuotas := acc);
      forall i: nat, acc: map<EntityKey, map<Str, int>> ensures PutsNested(m, ks, rs, ConfigStep, put, i, acc) {
        if i < |ks| && InNest(m, ks[i].0, ks[i].1) && !InNest(acc, ks[i].0, ks[i].1) {
          ClientQuotasStep(y.configs, acc, ks[i].0, ks[i].1, m[ks[i].0][ks[i].1]);
        }
      }
      RestoreNest(m, ks, rs, ConfigStep, put);
    }
    ReplayInGroup(y, ConfigGroup, rs);
  }

  lemma RestoreClientQuotas(x: Image, ks: seq<(EntityKey, Str)>, y: Image)
    requires ConfigsSane(x.configs) && Enumerates(ks, FlatKeys(x.configs.clientQuotas)) && y.configs.clientQuotas == map[]
    ensures Replay(y, PutClientQuotas(x, ks)) == y.(configs := y.configs.(clientQuotas := Compact(x.configs.clientQuotas)))
  {
    ReplayClientQuotas(x.configs.clientQuotas, ks, PutClientQuotas(x, ks), y);
  }

  function AclsTrace(s: SecurityState, ks: seq<AclEntry>): nat -> SecurityState
  {
    (i: nat) => s.(acls := Elems(Take(ks, i)))
  }

  lemma AclsAdvance(s: SecurityState, ks: seq<AclEntry>, i: nat)
    ensures Advances(SecurityStep, PutAcls(ks), AclsTrace(s, ks), i)
  {
    if i < |ks| {
      assert Take(ks, i + 1) == Take(ks, i) + [ks[i]];
      assert Elems(Take(ks, i + 1)) == Elems(Take(ks, i)) + {ks[i]};
    }
  }

  lemma RestoreAcls(acls: set<AclEntry>, ks: seq<AclEntry>, y: Image)
    requires Enumerates(ks, acls) && y.security.acls == {}
    ensures Replay(y, PutAcls(ks)) == y.(security := y.security.(acls := acls))
  {
    var rs, st := PutAcls(ks), AclsTrace(y.security, ks);
    ReplayInGroup(y, SecurityGroup, rs);
    forall i: nat ensures Advances(SecurityStep, rs, st, i) { AclsAdvance(y.security, ks, i); }
    FoldThrough(SecurityStep, rs, st);
    assert Take(ks, |ks|) == ks && Elems(Take(ks, 0)) == {};
    assert st(0) == y.security;
  }

  /** Record `i` sets the level of its own feature. */
  ghost predicate LevelAt(m: map<Str, int>, ks: seq<Str>, rs: seq<Record>, i: nat)
  {
    i < |ks| && i < |rs| ==> ks[i] in m && m[ks[i]] != 0 && rs[i] == V1FeatureLevel(ks[i], m[ks[i]])
  }

  function Bumped(epoch: int): int { Max(SaturateI64(epoch + 1), 0) }

  lemma LevelStep(y: ControlState, name: Str, level: int)
    requires level != 0
    ensures ControlStep(y, V1FeatureLevel(name, level))
         == y.(featureLevels := y.featureLevels[name := level], featuresEpoch := Bumped(y.featuresEpoch))
  {
  }

  /** Feature records rebuild the levels; the epoch they leave is whatever their
      number makes it, and a later record pins it. */
  lemma {:induction false} FoldLevels(m: map<Str, int>, ks: seq<Str>, rs: seq<Record>, y: ControlState, i: nat)
    returns (epoch: int)
    requires Enumerates(ks, m.Keys) && |rs| == |ks| && i <= |ks| && forall j: nat :: LevelAt(m, ks, rs, j)
    requires y.featureLevels == Part(m, ks, i)
    ensures Fold(ControlStep, y, rs[i..]) == y.(featureLevels := m, featuresEpoch := epoch)
    ensures i == |ks| ==> epoch == y.featuresEpoch
    decreases |ks| - i
  {
    if i == |ks| {
      PartEnds(m, ks);
      epoch := y.featuresEpoch;
    } else {
      PartStep(m, ks, i);
      assert LevelAt(m, ks, rs, i);
      var next := y.(featureLevels := Part(m, ks, i + 1), featuresEpoch := Bumped(y.featuresEpoch));
      assert ControlStep(y, rs[i]) == next by { LevelStep(y, ks[i], m[ks[i]]); }
      FoldHead(ControlStep, y, rs, i);
      epoch := FoldLevels(m, ks, rs, next, i + 1);
    }
  }

  // ----- replaying topics and partitions -----

  /** The topics as their own records leave them: no partition counted yet. */
  function Uncounted(m: map<Str, TopicRecord>): map<Str, TopicRecord>
  {
    map t | t in m :: m[t].(partitions := 0)
  }

  /** The id index that the first `i` topic records build: of two topics under one id,
      the one that comes later has it. */
  function IdsBuilt(m: map<Str, TopicRecord>, ks: seq<Str>, i: nat): map<Uuid, Str>
  {
    if i == 0 || i > |ks| || ks[i - 1] !in m then map[] else IdsBuilt(m, ks, i - 1)[m[ks[i - 1]].topicId := ks[i - 1]]
  }

  lemma TopicRecordStep(s: TopicState, ks: seq<Str>, i: nat, y: TopicState)
    requires i < |ks| && ks[i] in s.topics && s.topics[ks[i]].name == ks[i]
    requires ks[i] !in y.topics && y.ids == IdsBuilt(s.topics, ks, i)
    ensures TopicStep(y, V1Topic(s.topics[ks[i]]))
         == y.(topics := y.topics[ks[i] := s.topics[ks[i]].(partitions := 0)], ids := IdsBuilt(s.topics, ks, i + 1))
  {
  }

  /** The topics and the index after the first `i` topic records. */
  function TopicsAfter(s: TopicState, y: TopicState, ks: seq<Str>, i: nat): TopicState
  {
    y.(topics := Part(Uncounted(s.topics), ks, i), ids := IdsBuilt(s.topics, ks, i))
  }

  lemma TopicsAfterStep(s: TopicState, y: TopicState, ks: seq<Str>, i: nat)
    requires Enumerates(ks, s.topics.Keys) && i < |ks| && ks[i] in s.topics && s.topics[ks[i]].name == ks[i]
    ensures TopicStep(TopicsAfter(s, y, ks, i), V1Topic(s.topics[ks[i]])) == TopicsAfter(s, y, ks, i + 1)
  {
    assert Uncounted(s.topics).Keys == s.topics.Keys;
    PartStep(Uncounted(s.topics), ks, i);
    TopicRecordStep(s, ks, i, TopicsAfter(s, y, ks, i));
  }

  function TopicsTrace(s: TopicState, y: TopicState, ks: seq<Str>): nat -> TopicState
  {
    (i: nat) => TopicsAfter(s, y, ks, i)
  }

  /** Record `i` of the walk is the topic stored under its own name. */
  ghost predicate TopicRecordAt(s: TopicState, ks: seq<Str>, rs: seq<Record>, i: nat)
  {
    i < |ks| && i < |rs| ==> ks[i] in s.topics && s.topics[ks[i]].name == ks[i] && rs[i] == V1Topic(s.topics[ks[i]])
  }

  lemma TopicsAdvance(s: TopicState, y: TopicState, ks: seq<Str>, rs: seq<Record>, i: nat)
    requires Enumerates(ks, s.topics.Keys) && |rs| == |ks| && TopicRecordAt(s, ks, rs, i)
    ensures Advances(TopicStep, rs, TopicsTrace(s, y, ks), i)
  {
    if i < |rs| { TopicsAfterStep(s, y, ks, i); }
  }

  lemma TopicsTraceEnds(s: TopicState, y: TopicState, ks: seq<Str>)
    requires Enumerates(ks, s.topics.Keys) && y.topics == map[] && y.ids == map[]
    ensures TopicsTrace(s, y, ks)(0) == y
    ensures TopicsTrace(s, y, ks)(|ks|) == y.(topics := Uncounted(s.topics), ids := IdsBuilt(s.topics, ks, |ks|))
  {
    assert Uncounted(s.topics).Keys == s.topics.Keys;
    PartEnds(Uncounted(s.topics), ks);
  }

  lemma FoldTopics(s: TopicState, ks: seq<Str>, rs: seq<Record>, y: TopicState)
    requires Enumerates(ks, s.topics.Keys) && |rs| == |ks| && y.topics == map[] && y.ids == map[]
    requires forall i: nat :: TopicRecordAt(s, ks, rs, i)
    ensures Fold(TopicStep, y, rs) == y.(topics := Uncounted(s.topics), ids := IdsBuilt(s.topics, ks, |ks|))
  {
    forall i: nat ensures Advances(TopicStep, rs, TopicsTrace(s, y, ks), i) { TopicsAdvance(s, y, ks, rs, i); }
    FoldThrough(TopicStep, rs, TopicsTrace(s, y, ks));
    TopicsTraceEnds(s, y, ks);
  }

  lemma RestoreTopics(x: Image, ks: seq<Str>, y: Image)
    requires IdsNameTopics(x.topics) && Enumerates(ks, x.topics.topics.Keys)
    requires y.topics.topics == map[] && y.topics.ids == map[]
    ensures Replay(y, PutTopics(x, ks))
         == y.(topics := y.topics.(topics := Uncounted(x.topics.topics), ids := IdsBuilt(x.topics.topics, ks, |ks|)))
  {
    ReplayInGroup(y, TopicGroup, PutTopics(x, ks));
    forall i: nat ensures TopicRecordAt(x.topics, ks, PutTopics(x, ks), i) { if i < |ks| { ElemAt(ks, i); } }
    FoldTopics(x.topics, ks, PutTopics(x, ks), y.topics);
  }

  // ----- when the records rebuild the index -----

  lemma {:induction false} BuiltEntries(s: TopicState, ks: seq<Str>, i: nat)
    requires i <= |ks| && forall j :: 0 <= j < i ==> ks[j] in s.topics
    ensures forall id :: id in IdsBuilt(s.topics, ks, i) ==>
              exists j :: 0 <= j < i && IdsBuilt(s.topics, ks, i)[id] == ks[j] && s.topics[ks[j]].topicId == id
    ensures forall j :: 0 <= j < i ==> s.topics[ks[j]].topicId in IdsBuilt(s.topics, ks, i)
  {
    if i > 0 { BuiltEntries(s, ks, i - 1); }
  }

  /** An exact index is rebuilt in any order. */
  lemma ExactIdsAreRebuilt(s: TopicState, ks: seq<Str>)
    requires IdsExact(s) && Enumerates(ks, s.topics.Keys)
    ensures IdsBuilt(s.topics, ks, |ks|) == s.ids
  {
    var built := IdsBuilt(s.topics, ks, |ks|);
    forall j | 0 <= j < |ks| ensures ks[j] in s.topics { assert ks[j] in Elems(ks); }
    BuiltEntries(s, ks, |ks|);
    forall id | id in s.ids ensures id in built {
      assert s.ids[id] in Elems(ks);
      var j :| 0 <= j < |ks| && ks[j] == s.ids[id];
      assert s.topics[ks[j]].topicId == id;
    }
  }

  /** Only an exact index is rebuilt in every order: a walk that ends with a topic gives
      the topic its id. */
  lemma RebuiltIdsAreExact(s: TopicState)
    requires IdsNameTopics(s)
    requires forall ks :: Enumerates(ks, s.topics.Keys) ==> IdsBuilt(s.topics, ks, |ks|) == s.ids
    ensures IdsExact(s)
  {
    forall t | t in s.topics ensures s.topics[t].topicId in s.ids && s.ids[s.topics[t].topicId] == t {
      var ks := WalkTo(s.topics.Keys, t);
      assert IdsBuilt(s.topics, ks, |ks|)[s.topics[t].topicId] == t;
    }
  }

  /** The replication factor of topic `t` once the first `i` partitions of the
      walk are applied: that of the last one of `t` that fits an `i16`. */
  function RfAfter(s: TopicState, ks: seq<(Str, int)>, i: nat, t: Str): int
    requires t in s.topics
  {
    if i == 0 || i > |ks| || !InNest(s.partitions, ks[i - 1].0, ks[i - 1].1) then
      s.topics[t].replicationFactor
    else
      var p := s.partitions[ks[i - 1].0][ks[i - 1].1];
      if ks[i - 1].0 == t && |p.replicas| <= I16_MAX then |p.replicas| else RfAfter(s, ks, i - 1, t)
  }

  /** The topics while partitions are replayed: `acc` is stored so far. */
  function Counted(s: TopicState, ks: seq<(Str, int)>, i: nat, acc: map<Str, map<int, PartitionRecord>>)
    : map<Str, TopicRecord>
  {
    map t | t in s.topics ::
      s.topics[t].(partitions := Min(|Inner(acc, t)|, I32_MAX), replicationFactor := RfAfter(s, ks, i, t))
  }

  lemma CountedElsewhere(s: TopicState, ks: seq<(Str, int)>, i: nat,
                         acc: map<Str, map<int, PartitionRecord>>, p: PartitionRecord, t: Str)
    requires i < |ks| && t in s.topics && t != ks[i].0 && InNest(s.partitions, ks[i].0, ks[i].1)
    ensures Counted(s, ks, i + 1, NestPut(acc, ks[i].0, ks[i].1, p))[t] == Counted(s, ks, i, acc)[t]
  {
    assert Inner(NestPut(acc, ks[i].0, ks[i].1, p), t) == Inner(acc, t);
    assert RfAfter(s, ks, i + 1, t) == RfAfter(s, ks, i, t);
  }

  lemma CountedHere(s: TopicState, ks: seq<(Str, int)>, i: nat,
                    acc: map<Str, map<int, PartitionRecord>>, p: PartitionRecord)
    requires i < |ks| && ks[i].0 in s.topics
    requires InNest(s.partitions, ks[i].0, ks[i].1) && p == s.partitions[ks[i].0][ks[i].1]
    requires !InNest(acc, ks[i].0, ks[i].1)
    ensures Counted(s, ks, i + 1, NestPut(acc, ks[i].0, ks[i].1, p))[ks[i].0]
         == CountPartition(Counted(s, ks, i, acc)[ks[i].0], p, true)
  {
    var (a, b) := ks[i];
    assert Inner(NestPut(acc, a, b, p), a) == Inner(acc, a)[b := p];
    assert |Inner(acc, a)[b := p]| == |Inner(acc, a)| + 1;
  }

  lemma PartitionRecordStep(s: TopicState, ks: seq<(Str, int)>, i: nat,
                            acc: map<Str, map<int, PartitionRecord>>, p: PartitionRecord)
    requires i < |ks| && ks[i].0 in s.topics
    requires InNest(s.partitions, ks[i].0, ks[i].1) && p == s.partitions[ks[i].0][ks[i].1]
    requires !InNest(acc, ks[i].0, ks[i].1)
    ensures var a, before := ks[i].0, Counted(s, ks, i, acc);
            Counted(s, ks, i + 1, NestPut(acc, a, ks[i].1, p)) == before[a := CountPartition(before[a], p, true)]
  {
    var (a, b) := ks[i];
    CountedHere(s, ks, i, acc, p);
    forall t | t in s.topics && t != a
      ensures Counted(s, ks, i + 1, NestPut(acc, a, b, p))[t] == Counted(s, ks, i, acc)[t]
    {
      CountedElsewhere(s, ks, i, acc, p, t);
    }
  }

  /** `k` names a stored partition of a live topic, filed under its own key. */
  ghost predicate Filed(s: TopicState, k: (Str, int))
  {
    && InNest(s.partitions, k.0, k.1) && k.0 in s.topics
    && s.partitions[k.0][k.1].topic == k.0 && s.partitions[k.0][k.1].partition == k.1
  }

  /** Topics and partitions after the first `i` partition records. */
  function PartitionsAfter(s: TopicState, y: TopicState, ks: seq<(Str, int)>, i: nat): TopicState
  {
    var acc := NestPart(s.partitions, ks, i);
    y.(partitions := acc, topics := Counted(s, ks, i, acc))
  }

  lemma PartitionsAfterStep(s: TopicState, y: TopicState, ks: seq<(Str, int)>, i: nat)
    requires Enumerates(ks, FlatKeys(s.partitions)) && i < |ks| && Filed(s, ks[i])
    ensures TopicStep(PartitionsAfter(s, y, ks, i), V1Partition(s.partitions[ks[i].0][ks[i].1]))
         == PartitionsAfter(s, y, ks, i + 1)
  {
    var p, acc := s.partitions[ks[i].0][ks[i].1], NestPart(s.partitions, ks, i);
    NestPartStep(s.partitions, ks, i);
    PartitionRecordStep(s, ks, i, acc, p);
    var at := PartitionsAfter(s, y, ks, i);
    assert ApplyPartition(at, p).topics == at.topics[ks[i].0 := CountPartition(at.topics[ks[i].0], p, true)];
  }

  function PartitionsTrace(s: TopicState, y: TopicState, ks: seq<(Str, int)>): nat -> TopicState
  {
    (i: nat) => PartitionsAfter(s, y, ks, i)
  }

  ghost predicate PartitionRecordAt(s: TopicState, ks: seq<(Str, int)>, rs: seq<Record>, i: nat)
  {
    i < |ks| && i < |rs| ==> Filed(s, ks[i]) && rs[i] == V1Partition(s.partitions[ks[i].0][ks[i].1])
  }

  lemma PartitionsAdvance(s: TopicState, y: TopicState, ks: seq<(Str, int)>, rs: seq<Record>, i: nat)
    requires i < |rs| ==> TopicStep(PartitionsAfter(s, y, ks, i), rs[i]) == PartitionsAfter(s, y, ks, i + 1)
    ensures Advances(TopicStep, rs, PartitionsTrace(s, y, ks), i)
  {
  }

  lemma PartitionsTraceEnds(s: TopicState, y: TopicState, ks: seq<(Str, int)>)
    requires Enumerates(ks, FlatKeys(s.partitions)) && NoEmptyInner(s.partitions)
    requires y.partitions == map[] && y.topics == Uncounted(s.topics)
    ensures PartitionsTrace(s, y, ks)(0) == y
    ensures PartitionsTrace(s, y, ks)(|ks|) == y.(partitions := s.partitions, topics := Counted(s, ks, |ks|, s.partitions))
  {
    NestPartEnds(s.partitions, ks);
    CompactIsStable(s.partitions);
    assert Counted(s, ks, 0, map[]) == Uncounted(s.topics);
  }

  lemma FoldPartitions(s: TopicState, ks: seq<(Str, int)>, rs: seq<Record>, y: TopicState)
    requires Enumerates(ks, FlatKeys(s.partitions)) && NoEmptyInner(s.partitions) && |rs| == |ks|
    requires forall i: nat :: PartitionRecordAt(s, ks, rs, i)
    requires y.partitions == map[] && y.topics == Uncounted(s.topics)
    ensures Fold(TopicStep, y, rs) == y.(partitions := s.partitions, topics := Counted(s, ks, |ks|, s.partitions))
  {
    forall i: nat ensures Advances(TopicStep, rs, PartitionsTrace(s, y, ks), i) {
      if i < |rs| {
        assert PartitionRecordAt(s, ks, rs, i);
        PartitionsAfterStep(s, y, ks, i);
      }
      PartitionsAdvance(s, y, ks, rs, i);
    }
    FoldThrough(TopicStep, rs, PartitionsTrace(s, y, ks));
    PartitionsTraceEnds(s, y, ks);
  }

  lemma PutsFiled(x: Image, ks: seq<(Str, int)>, i: nat)
    requires CountsExact(x.topics) && PartitionsKeyed(x.topics) && Enumerates(ks, FlatKeys(x.topics.partitions))
    ensures PartitionRecordAt(x.topics, ks, PutPartitions(x, ks), i)
  {
    if i < |ks| {
      ElemAt(ks, i);
      assert InNest(x.topics.partitions, ks[i].0, ks[i].1);
    }
  }

  lemma RestorePartitions(x: Image, ks: seq<(Str, int)>, y: Image)
    requires CountsExact(x.topics) && PartitionsKeyed(x.topics)
    requires Enumerates(ks, FlatKeys(x.topics.partitions))
    requires y.topics.partitions == map[] && y.topics.topics == Uncounted(x.topics.topics)
    ensures Replay(y, PutPartitions(x, ks))
         == y.(topics := y.topics.(partitions := x.topics.partitions, topics := Counted(x.topics, ks, |ks|, x.topics.partitions)))
  {
    ReplayInGroup(y, TopicGroup, PutPartitions(x, ks));
    forall i: nat ensures PartitionRecordAt(x.topics, ks, PutPartitions(x, ks), i) { PutsFiled(x, ks, i); }
    FoldPartitions(x.topics, ks, PutPartitions(x, ks), y.topics);
  }

  // ----- replaying the whole snapshot -----

  lemma RestoreNodeRecords(x: Image, w: Walk, y: Image)
    requires ReachableInv(x) && Walks(x, w)
    requires y.nodes == NodeState(map[], map[]) && y.configs.brokerConfigs == map[]
    ensures Replay(y, NodeRecords(x, w))
         == y.(nodes := x.nodes, configs := y.configs.(brokerConfigs := Compact(x.configs.brokerConfigs)))
  {
    var a, b, c := PutBrokers(x, w.brokers), PutControllers(x, w.controllers), PutBrokerConfigs(x, w.brokerConfigs);
    ReplayConcat(y, a + b, c);
    ReplayConcat(y, a, b);
    RestoreBrokers(x, w.brokers, y);
    RestoreControllers(x, w.controllers, y.(nodes := y.nodes.(brokers := x.nodes.brokers)));
    RestoreBrokerConfigs(x, w.brokerConfigs, y.(nodes := x.nodes));
  }

  /** The replication factors that a snapshot restores. */
  function RestoredFactors(s: TopicState, ks: seq<(Str, int)>): map<Str, TopicRecord>
  {
    map t | t in s.topics :: s.topics[t].(replicationFactor := RfAfter(s, ks, |ks|, t))
  }

  /** The topics a snapshot restores: everything but the derived replication factor,
      which follows the walk of the partitions, and the id index, which follows the
      walk of the topics. */
  function RestoredTopics(s: TopicState, ts: seq<Str>, ks: seq<(Str, int)>): TopicState
  {
    s.(topics := RestoredFactors(s, ks), ids := IdsBuilt(s.topics, ts, |ts|))
  }

  lemma CountedAtEnd(s: TopicState, ks: seq<(Str, int)>)
    requires CountsExact(s)
    ensures Counted(s, ks, |ks|, s.partitions) == RestoredFactors(s, ks)
  {
  }

  lemma RestoreTopicsAndPartitions(x: Image, ts: seq<Str>, ks: seq<(Str, int)>, y: Image)
    requires IdsNameTopics(x.topics) && CountsExact(x.topics) && PartitionsKeyed(x.topics)
    requires Enumerates(ts, x.topics.topics.Keys) && Enumerates(ks, FlatKeys(x.topics.partitions))
    requires y.topics.topics == map[] && y.topics.ids == map[] && y.topics.partitions == map[]
    ensures Replay(y, PutTopics(x, ts) + PutPartitions(x, ks))
         == y.(topics := y.topics.(topics := RestoredFactors(x.topics, ks),
                                   ids := IdsBuilt(x.topics.topics, ts, |ts|), partitions := x.topics.partitions))
  {
    var a, b, ids := PutTopics(x, ts), PutPartitions(x, ks), IdsBuilt(x.topics.topics, ts, |ts|);
    var mid := y.(topics := y.topics.(topics := Uncounted(x.topics.topics), ids := ids));
    ReplayConcat(y, a, b);
    assert Replay(y, a) == mid by { RestoreTopics(x, ts, y); }
    RestorePartitions(x, ks, mid);
    CountedAtEnd(x.topics, ks);
  }

  lemma RestoreTopicRecords(x: Image, w: Walk, y: Image)
    requires ReachableInv(x) && Walks(x, w)
    requires y.topics == TopicState(map[], map[], map[], map[], map[], map[], map[])
    ensures Replay(y, TopicRecords(x, w)) == y.(topics := RestoredTopics(x.topics, w.topics, w.partitions))
  {
    var r := RestoredTopics(x.topics, w.topics, w.partitions);
    var a, c := PutTopics(x, w.topics) + PutPartitions(x, w.partitions), PutNextOffsets(x, w.nextOffsets);
    var d, e, f := PutElr(x, w.elr), PutRecovery(x, w.recovery), PutTopicConfigs(x, w.topicConfigs);
    ReplayConcat(y, a + c + d + e, f);
    ReplayConcat(y, a + c + d, e);
    ReplayConcat(y, a + c, d);
    ReplayConcat(y, a, c);
    RestoreTopicsAndPartitions(x, w.topics, w.partitions, y);
    RestoreNextOffsets(x, w.nextOffsets,
                       y.(topics := r.(nextOffsets := map[], elr := map[], recovery := map[], configs := map[])));
    RestoreElr(x, w.elr, y.(topics := r.(elr := map[], recovery := map[], configs := map[])));
    RestoreRecovery(x, w.recovery, y.(topics := r.(recovery := map[], configs := map[])));
    RestoreTopicConfigs(x, w.topicConfigs, y.(topics := r.(configs := map[])));
  }

  lemma RestoreProducerIds(x: Image, y: Image)
    requires ControlSane(x.control) && y.control.producerIds.None?
    ensures Replay(y, PutProducerIds(x.control))
         == y.(control := y.control.(producerIds := x.control.producerIds))
  {
    ReplayInGroup(y, ControlGroup, PutProducerIds(x.control));
  }

  lemma RestoreSecurityRecords(x: Image, w: Walk, y: Image)
    requires ReachableInv(x) && Walks(x, w)
    requires y.security == SecurityState(map[], {}, map[]) && y.configs.clientQuotas == map[]
    requires y.control.producerIds.None?
    ensures Replay(y, SecurityRecords(x, w))
         == y.(security := x.security,
               configs := y.configs.(clientQuotas := Compact(x.configs.clientQuotas)),
               control := y.control.(producerIds := x.control.producerIds))
  {
    var a, b, c := PutScram(x, w.scram), PutAcls(w.acls), PutClientQuotas(x, w.clientQuotas);
    var d, e := PutProducerIds(x.control), PutTokens(x, w.tokens);
    ReplayConcat(y, a + b + c + d, e);
    ReplayConcat(y, a + b + c, d);
    ReplayConcat(y, a + b, c);
    ReplayConcat(y, a, b);
    RestoreScram(x, w.scram, y);
    RestoreAcls(x.security.acls, w.acls, y.(security := y.security.(scram := x.security.scram)));
    var y1 := y.(security := x.security.(tokens := map[]));
    RestoreClientQuotas(x, w.clientQuotas, y1);
    var y2 := y1.(configs := y1.configs.(clientQuotas := Compact(x.configs.clientQuotas)));
    RestoreProducerIds(x, y2);
    RestoreTokens(x, w.tokens, y2.(control := y2.control.(producerIds := x.control.producerIds)));
  }

  lemma RestoreRegistryRecords(x: Image, w: Walk, y: Image)
    requires ReachableInv(x) && Walks(x, w)
    requires y.guard == GuardState(map[], map[], map[])
    requires y.configs.clientMetrics == map[] && y.configs.groupConfigs == map[]
    ensures Replay(y, RegistryRecords(x, w))
         == y.(guard := x.guard,
               configs := y.configs.(clientMetrics := x.configs.clientMetrics,
                                     groupConfigs := x.configs.groupConfigs))
  {
    var a, b := PutClientMetrics(x, w.clientMetrics), PutGroupConfigs(x, w.groupConfigs);
    var c, d, e := PutFreezesLiteral(x, w.freezesLiteral), PutFreezesPrefixed(x, w.freezesPrefixed),
                   PutBreakGlass(x, w.breakGlass);
    ReplayConcat(y, a + b + c + d, e);
    ReplayConcat(y, a + b + c, d);
    ReplayConcat(y, a + b, c);
    ReplayConcat(y, a, b);
    RestoreClientMetrics(x, w.clientMetrics, y);
    RestoreGroupConfigs(x, w.groupConfigs, y.(configs := y.configs.(clientMetrics := x.configs.clientMetrics)));
    var y1 := y.(configs := y.configs.(clientMetrics := x.configs.clientMetrics,
                                       groupConfigs := x.configs.groupConfigs));
    RestoreFreezesLiteral(x, w.freezesLiteral, y1);
    RestoreFreezesPrefixed(x, w.freezesPrefixed,
                           y1.(guard := y1.guard.(freezesLiteral := x.guard.freezesLiteral)));
    RestoreBreakGlass(x, w.breakGlass, y1.(guard := x.guard.(breakGlass := map[])));
  }

  lemma FoldQuorum(s: ControlState, y: ControlState)
    requires y == s.(kraftVersion := 0, voters := [])
    ensures Fold(ControlStep, y, PutQuorum(s)) == s
  {
    var k := if s.kraftVersion != 0 then [V1KRaftVersion(s.kraftVersion)] else [];
    var v := if s.voters != [] then [V1Voters(s.voters)] else [];
    FoldConcat(ControlStep, y, k, v);
    assert Fold(ControlStep, y, k) == s.(voters := []) by {
      FoldOne(ControlStep, y, V1KRaftVersion(s.kraftVersion));
    }
    FoldOne(ControlStep, s.(voters := []), V1Voters(s.voters));
  }

  /** The record after the feature levels pins the epoch. */
  lemma FoldEpoch(s: ControlState, y: ControlState)
    requires s.featuresEpoch < 0 ==> y.featuresEpoch == s.featuresEpoch
    ensures Fold(ControlStep, y, PutEpoch(s)) == y.(featuresEpoch := s.featuresEpoch)
  {
    FoldOne(ControlStep, y, V1FeaturesEpoch(s.featuresEpoch));
  }

  lemma FoldControl(x: Image, ks: seq<Str>, y: ControlState)
    requires ControlSane(x.control) && EpochSane(x.control) && Enumerates(ks, x.control.featureLevels.Keys)
    requires y == ControlState(x.control.producerIds, 0, [], map[], -1)
    ensures Fold(ControlStep, Fold(ControlStep, Fold(ControlStep, y, PutFeatureLevels(x, ks)), PutEpoch(x.control)),
                 PutQuorum(x.control)) == x.control
  {
    var epoch := RestoreLevels(x, ks, y);
    var y1 := y.(featureLevels := x.control.featureLevels, featuresEpoch := epoch);
    FoldEpoch(x.control, y1);
    FoldQuorum(x.control, y1.(featuresEpoch := x.control.featuresEpoch));
  }

  lemma FoldControlRecords(x: Image, ks: seq<Str>, y: ControlState)
    requires ControlSane(x.control) && EpochSane(x.control) && Enumerates(ks, x.control.featureLevels.Keys)
    requires y == ControlState(x.control.producerIds, 0, [], map[], -1)
    ensures Fold(ControlStep, y, PutFeatureLevels(x, ks) + PutEpoch(x.control) + PutQuorum(x.control)) == x.control
  {
    var a, b, c := PutFeatureLevels(x, ks), PutEpoch(x.control), PutQuorum(x.control);
    FoldConcat(ControlStep, y, a + b, c);
    FoldConcat(ControlStep, y, a, b);
    FoldControl(x, ks, y);
  }

  lemma RestoreControlRecords(x: Image, w: Walk, y: Image)
    requires ControlSane(x.control) && EpochSane(x.control) && Walks(x, w)
    requires y.control == ControlState(x.control.producerIds, 0, [], map[], -1)
    ensures Replay(y, ControlRecords(x, w)) == y.(control := x.control)
  {
    var rs := ControlRecords(x, w);
    assert Fold(ControlStep, y.control, rs) == x.control by { FoldControlRecords(x, w.featureLevels, y.control); }
    ReplayInGroup(y, ControlGroup, rs);
  }

  lemma RestoreLevels(x: Image, ks: seq<Str>, y: ControlState) returns (epoch: int)
    requires ControlSane(x.control) && EpochSane(x.control) && Enumerates(ks, x.control.featureLevels.Keys)
    requires y.featureLevels == map[] && y.featuresEpoch == -1
    ensures Fold(ControlStep, y, PutFeatureLevels(x, ks))
         == y.(featureLevels := x.control.featureLevels, featuresEpoch := epoch)
    ensures x.control.featuresEpoch < 0 ==> epoch == x.control.featuresEpoch
  {
    var m, rs := x.control.featureLevels, PutFeatureLevels(x, ks);
    PartEnds(m, ks);
    forall j: nat ensures LevelAt(m, ks, rs, j) { if j < |ks| { ElemAt(ks, j); } }
    epoch := FoldLevels(m, ks, rs, y, 0);
    assert rs[0..] == rs;
    if ks != [] { assert ks[0] in Elems(ks); }
  }

  /** What restoring a snapshot yields, exactly. */
  function Restored(x: Image, w: Walk): Image
  {
    x.(topics := RestoredTopics(x.topics, w.topics, w.partitions),
       configs := x.configs.(brokerConfigs := Compact(x.configs.brokerConfigs),
                             clientQuotas := Compact(x.configs.clientQuotas)))
  }

  /** `from_records(to_records(x))`, for every reachable image and every order
      in which its hash tables may be walked. */
  lemma RestoreIs(x: Image, w: Walk)
    requires ReachableInv(x) && Walks(x, w)
    ensures FromRecords(x.clusterId, ToRecords(x, w)) == Restored(x, w)
  {
    var n, t, s, r, c := NodeRecords(x, w), TopicRecords(x, w), SecurityRecords(x, w),
                         RegistryRecords(x, w), ControlRecords(x, w);
    var y := New(x.clusterId);
    ReplayConcat(y, n + t + s + r, c);
    ReplayConcat(y, n + t + s, r);
    ReplayConcat(y, n + t, s);
    ReplayConcat(y, n, t);
    RestoreNodeRecords(x, w, y);
    RestoreTopicRecords(x, w, Replay(y, n));
    RestoreSecurityRecords(x, w, Replay(y, n + t));
    RestoreRegistryRecords(x, w, Replay(y, n + t + s));
    RestoreControlRecords(x, w, Replay(y, n + t + s + r));
  }
}
