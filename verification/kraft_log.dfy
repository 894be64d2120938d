/** `crates/metadata/src/kraft_translate.rs`: a whole log sent over KIP-631. Each record is
    encoded against the image, and what was written is decoded and applied in log order. */
module KraftLog {
  import opened Base
  import opened Collections
  import opened MetadataRecords
  import opened Images
  import opened ImageInvariants
  import opened ImageSnapshot
  import opened ImageEquivalence
  import opened KraftConfigs
  import opened KraftPartitions
  import opened KraftTopics
  import opened KraftAcls
  import opened KraftRecords
  import opened Deliveries

  // ----- the translation -----

  /** The order in which an encoder walks the tables it fans out over. */
  datatype Order = Order(keys: seq<Str>, entries: seq<AclEntry>)

  ghost predicate OrdersKeys(m: map<Str, Configs>, resource: Str, configs: Configs, keys: seq<Str>)
  {
    Enumerates(keys, configs.Keys + Inner(m, resource).Keys)
  }

  ghost predicate Orders(x: Image, rec: Record, order: Order)
  {
    match rec
    case V1TopicConfig(resource, configs) => OrdersKeys(Table(x, TOPIC), resource, configs, order.keys)
    case V1ClientMetricsConfig(resource, configs) => OrdersKeys(Table(x, CLIENT_METRICS), resource, configs, order.keys)
    case V1GroupConfig(resource, configs) => OrdersKeys(Table(x, GROUP), resource, configs, order.keys)
    case V1DeleteAccessControlEntry(f) => Enumerates(order.entries, set e | e in x.security.acls && f.Matches(e))
    case _ => true
  }

  function ConfigRecords(cs: seq<ConfigRecord>): (ks: seq<KraftRecord>)
    ensures |ks| == |cs| && forall i :: 0 <= i < |cs| ==> ks[i] == KConfig(cs[i])
  {
    seq(|cs|, i requires 0 <= i < |cs| => KConfig(cs[i]))
  }

  function Removals(ids: seq<AclId>): (ks: seq<KraftRecord>)
    ensures |ks| == |ids| && forall i :: 0 <= i < |ids| ==> ks[i] == KRemoveAcl(ids[i])
  {
    seq(|ids|, i requires 0 <= i < |ids| => KRemoveAcl(ids[i]))
  }

  function One(k: Result<KraftRecord, TranslateError>): Result<seq<KraftRecord>, TranslateError>
  {
    var value :- k;
    Ok([value])
  }

  function Change(c: Result<PartitionChange, TranslateError>): Result<seq<KraftRecord>, TranslateError>
  {
    var value :- c;
    Ok([KPartitionChange(value)])
  }

  /** The change that carries a partition delta or update. */
  function ChangeOf(rec: Record, s: TopicState): Result<PartitionChange, TranslateError>
  {
    match rec
    case V1PartitionDirAssignment(topic, index, replica, directory) =>
      DirAssignmentToKraft(s, topic, index, replica, directory)
    case V1PartitionElr(topic, index, eligible, lastKnown) =>
      StateToKraft(s, topic, index, NO_RECOVERY, Some(eligible), Some(lastKnown))
    case V1PartitionRecovery(topic, index, state) =>
      StateToKraft(s, topic, index, RecoveryToWire(Some(state)), None, None)
    case V1PartitionUpdate(u) => UpdateToKraft(u, s)
    case _ => Err(NoCounterpart)
  }

  predicate IsChange(rec: Record)
  {
    rec.V1PartitionDirAssignment? || rec.V1PartitionElr? || rec.V1PartitionRecovery? || rec.V1PartitionUpdate?
  }

  /** `to_kraft_records`. */
  function ToKraft(rec: Record, x: Image, order: Order): Result<seq<KraftRecord>, TranslateError>
  {
    match rec
    case V1Topic(t) => Ok([KTopic(t.name, t.topicId)])
    case V1Partition(p) => var k :- PartitionToKraft(p, x.topics); Ok([KPartition(k)])
    case V1DeleteTopic(name) =>
      if name in x.topics.topics then Ok([KRemoveTopic(x.topics.topics[name].topicId)]) else Err(UnknownTopicName)
    case V1TopicConfig(resource, configs) => Ok(ConfigRecords(FanOut(TOPIC, resource, configs, order.keys)))
    case V1ClientMetricsConfig(resource, configs) =>
      Ok(ConfigRecords(FanOut(CLIENT_METRICS, resource, configs, order.keys)))
    case V1GroupConfig(resource, configs) => Ok(ConfigRecords(FanOut(GROUP, resource, configs, order.keys)))
    case V1BrokerConfig(node, name, value) => Ok([KConfig(BrokerConfigToKraft(node, name, value))])
    case V1DeleteAccessControlEntry(f) => Ok(Removals(Ids(order.entries, IdOrZero)))
    case _ => if IsChange(rec) then Change(ChangeOf(rec, x.topics)) else One(PlainToKraft(rec))
  }

  /** The order in which a decoder scans the topics and the entries. */
  datatype Scan = Scan(topics: seq<Str>, acls: seq<AclEntry>)

  ghost predicate Scans(x: Image, scan: Scan)
  {
    Enumerates(scan.topics, x.topics.topics.Keys) && Enumerates(scan.acls, x.security.acls)
  }

  /** `from_kraft`. */
  ghost function FromKraft(k: KraftRecord, x: Image, scan: Scan): Result<Record, TranslateError>
    requires Scans(x, scan)
  {
    match k
    case KTopic(name, id) => Ok(V1Topic(TopicFromKraft(name, id, x.topics)))
    case KPartition(p) => PartitionFromKraft(p, x.topics, scan.topics)
    case KPartitionChange(c) => ChangeFromKraft(c, x.topics, scan.topics)
    case KRemoveTopic(id) => TopicRemovalFromKraft(id, x.topics, scan.topics)
    case KConfig(c) => ConfigFromKraft(c, x)
    case KRemoveAcl(id) => RemovalFromKraft(scan.acls, IdOrZero, id)
    case _ => PlainFromKraft(k)
  }

  // ----- what is sent, and what it should mean -----

  /** Every outcome of encoding a record, and of decoding one. */
  ghost function Encodings(x: Image, rec: Record): iset<Result<seq<KraftRecord>, TranslateError>>
  {
    iset order | Orders(x, rec, order) :: ToKraft(rec, x, order)
  }

  ghost function Decodings(x: Image, k: KraftRecord): iset<Result<Record, TranslateError>>
  {
    iset scan | Scans(x, scan) :: FromKraft(k, x, scan)
  }

  ghost function Kraft(): Link<Image, Record, KraftRecord, TranslateError>
  {
    Link(Encodings, Decodings, Apply, Agree)
  }

  /** There always is an order to walk the tables in. */
  lemma SomeOutcome(x: Image, rec: Record, k: KraftRecord)
    ensures Encodings(x, rec) != iset{} && Decodings(x, k) != iset{}
  {
    var topics := SomeWalk(x.topics.topics.Keys);
    var acls := SomeWalk(x.security.acls);
    assert Scans(x, Scan(topics, acls));
    assert FromKraft(k, x, Scan(topics, acls)) in Decodings(x, k);
    var order := SomeOrder(x, rec);
    assert ToKraft(rec, x, order) in Encodings(x, rec);
  }

  lemma SomeOrder(x: Image, rec: Record) returns (order: Order)
    ensures Orders(x, rec, order)
  {
    var keys: set<Str> :=
      if rec.V1TopicConfig? then rec.configs.Keys + Inner(x.topics.configs, rec.resource).Keys
      else if rec.V1ClientMetricsConfig? then rec.configs.Keys + Inner(x.configs.clientMetrics, rec.resource).Keys
      else if rec.V1GroupConfig? then rec.configs.Keys + Inner(x.configs.groupConfigs, rec.resource).Keys
      else {};
    var entries := if rec.V1DeleteAccessControlEntry? then set e | e in x.security.acls && rec.filter.Matches(e) else {};
    var ks := SomeWalk(keys);
    var es := SomeWalk(entries);
    order := Order(ks, es);
  }

  function Touch(x: Image, topic: Str, index: int): Image
  {
    x.(topics := Touched(x.topics, topic, index))
  }

  /** The record applied directly, and the epoch step of a delta. */
  function Meant(x: Image, rec: Record): Image
  {
    match rec
    case V1PartitionDirAssignment(topic, index, _, _) => Touch(Apply(x, rec), topic, index)
    case V1PartitionElr(topic, index, _, _) => Touch(Apply(x, rec), topic, index)
    case V1PartitionRecovery(topic, index, _) => Touch(Apply(x, rec), topic, index)
    case _ => Apply(x, rec)
  }

  ghost predicate NoSharedId(acls: set<AclEntry>, f: AclEntryFilter)
  {
    forall e, u :: e in acls && u in acls && f.Matches(e) && !f.Matches(u) ==> IdOrZero(e) != IdOrZero(u)
  }

  function TopicOf(rec: Record): Str
    requires IsChange(rec)
  {
    if rec.V1PartitionUpdate? then rec.update.partition.topic else rec.topicName
  }

  /** The image holds what the change refers to, and the wire can carry it. */
  predicate ChangeFits(s: TopicState, rec: Record)
    requires IsChange(rec)
  {
    match rec
    case V1PartitionDirAssignment(topic, index, replica, _) =>
      && CanTouch(s, topic, index) && replica in s.partitions[topic][index].replicas
      && |s.partitions[topic][index].directories| <= |s.partitions[topic][index].replicas|
    case V1PartitionElr(topic, index, eligible, lastKnown) =>
      CanTouch(s, topic, index) && Fits(eligible) && Fits(lastKnown)
    case V1PartitionRecovery(topic, index, _) => CanTouch(s, topic, index)
    case V1PartitionUpdate(u) => Sendable(u, s)
  }

  /** What a sender must keep to, record by record. */
  ghost predicate Sends(x: Image, rec: Record)
  {
    match rec
    case V1Partition(p) => OwnsId(x.topics, p.topic) && PartitionFits(p) && SidecarFits(x.topics, p.topic, p.partition)
    case V1DeleteTopic(name) => OwnsId(x.topics, name)
    case V1BrokerConfig(node, _, _) => node <= U64_MAX
    case V1DeleteAccessControlEntry(f) => NoSharedId(x.security.acls, f)
    case _ => if IsChange(rec) then OwnsId(x.topics, TopicOf(rec)) && ChangeFits(x.topics, rec) else IsPlain(rec) ==> Carried(rec)
  }

  // ----- partition changes, for every walk -----

  /** What a partition change should mean for the topics. */
  function MeantTopics(s: TopicState, rec: Record): TopicState
  {
    match rec
    case V1PartitionDirAssignment(topic, index, replica, directory) =>
      Touched(ApplyDirAssignment(s, topic, index, replica, directory), topic, index)
    case V1PartitionElr(topic, index, eligible, lastKnown) =>
      Touched(ApplyElr(s, topic, index, eligible, lastKnown), topic, index)
    case V1PartitionRecovery(topic, index, state) => Touched(ApplyRecovery(s, topic, index, state), topic, index)
    case _ => TopicStep(s, rec)
  }

  lemma DirectoryChange(s: TopicState, topic: Str, index: int, replica: NodeId, directory: Uuid, walk: seq<Str>)
    requires PartitionsKeyed(s) && Enumerates(walk, s.topics.Keys)
    ensures var rec := V1PartitionDirAssignment(topic, index, replica, directory);
            Sent(s, ChangeOf(rec, s), walk) == Ok(MeantTopics(s, rec))
            <==> FindsItself(s, walk, TopicOf(rec)) && ChangeFits(s, rec)
  {
    DirectoryDeltaMeans(s, topic, index, replica, directory, walk);
  }

  lemma ElrChange(s: TopicState, topic: Str, index: int, e: seq<NodeId>, l: seq<NodeId>, walk: seq<Str>)
    requires PartitionsKeyed(s) && Enumerates(walk, s.topics.Keys)
    ensures var rec := V1PartitionElr(topic, index, e, l);
            Sent(s, ChangeOf(rec, s), walk) == Ok(MeantTopics(s, rec))
            <==> FindsItself(s, walk, TopicOf(rec)) && ChangeFits(s, rec)
  {
    var rec := V1PartitionElr(topic, index, e, l);
    assert ChangeOf(rec, s) == StateToKraft(s, topic, index, NO_RECOVERY, Some(e), Some(l));
    assert MeantTopics(s, rec) == Touched(ApplyElr(s, topic, index, e, l), topic, index);
    assert ChangeFits(s, rec) == (CanTouch(s, topic, index) && Fits(e) && Fits(l)) && TopicOf(rec) == topic;
    ElrDeltaMeans(s, topic, index, e, l, walk);
  }

  lemma RecoveryChange(s: TopicState, topic: Str, index: int, state: LeaderRecoveryState, walk: seq<Str>)
    requires PartitionsKeyed(s) && Enumerates(walk, s.topics.Keys)
    ensures var rec := V1PartitionRecovery(topic, index, state);
            Sent(s, ChangeOf(rec, s), walk) == Ok(MeantTopics(s, rec))
            <==> FindsItself(s, walk, TopicOf(rec)) && ChangeFits(s, rec)
  {
    var rec := V1PartitionRecovery(topic, index, state);
    assert ChangeOf(rec, s) == StateToKraft(s, topic, index, RecoveryToWire(Some(state)), None, None);
    assert MeantTopics(s, rec) == Touched(ApplyRecovery(s, topic, index, state), topic, index);
    assert ChangeFits(s, rec) == CanTouch(s, topic, index) && TopicOf(rec) == topic;
    RecoveryDeltaMeans(s, topic, index, state, walk);
  }

  lemma UpdateChange(s: TopicState, u: PartitionUpdateRecord, walk: seq<Str>)
    requires PartitionsKeyed(s) && Enumerates(walk, s.topics.Keys)
    ensures var rec := V1PartitionUpdate(u);
            Sent(s, ChangeOf(rec, s), walk) == Ok(MeantTopics(s, rec))
            <==> FindsItself(s, walk, TopicOf(rec)) && ChangeFits(s, rec)
  {
    UpdateMeansItsDiff(s, u, walk);
  }

  lemma ChangeMeans(s: TopicState, rec: Record, walk: seq<Str>)
    requires IsChange(rec) && PartitionsKeyed(s) && Enumerates(walk, s.topics.Keys)
    ensures Sent(s, ChangeOf(rec, s), walk) == Ok(MeantTopics(s, rec))
            <==> FindsItself(s, walk, TopicOf(rec)) && ChangeFits(s, rec)
  {
    if rec.V1PartitionDirAssignment? { DirectoryChange(s, rec.topicName, rec.index, rec.replica, rec.directory, walk); }
    else if rec.V1PartitionElr? { ElrChange(s, rec.topicName, rec.index, rec.eligible, rec.lastKnown, walk); }
    else if rec.V1PartitionRecovery? { RecoveryChange(s, rec.topicName, rec.index, rec.state, walk); }
    else { UpdateChange(s, rec.update, walk); }
  }

  /** A partition change means itself on every walk of the topics exactly when its topic has
      an id of its own and the image holds what the change refers to. */
  lemma ChangeMeansIff(s: TopicState, rec: Record)
    requires IsChange(rec) && PartitionsKeyed(s)
    ensures (forall walk :: Enumerates(walk, s.topics.Keys) ==> Sent(s, ChangeOf(rec, s), walk) == Ok(MeantTopics(s, rec)))
            <==> OwnsId(s, TopicOf(rec)) && ChangeFits(s, rec)
  {
    EveryWalkFinds(s, TopicOf(rec));
    var some := SomeWalk(s.topics.Keys);
    assert Enumerates(some, s.topics.Keys);
    forall walk | Enumerates(walk, s.topics.Keys)
      ensures Sent(s, ChangeOf(rec, s), walk) == Ok(MeantTopics(s, rec))
              <==> FindsItself(s, walk, TopicOf(rec)) && ChangeFits(s, rec)
    {
      ChangeMeans(s, rec, walk);
    }
  }

  // ----- one record -----

  /** What the translation relies on. It holds after every log. */
  ghost predicate Sound(x: Image)
  {
    && PartitionsKeyed(x.topics) && ElrMinimal(x.topics.elr) && RecoveryMinimal(x.topics.recovery)
    && NoEmptyInner(x.topics.configs) && NoEmptyInner(x.configs.clientMetrics) && NoEmptyInner(x.configs.groupConfigs)
  }

  /** `rec` is written as `k`, and nothing else. */
  ghost predicate WritesAs(x: Image, rec: Record, k: KraftRecord)
  {
    forall order :: Orders(x, rec, order) && ToKraft(rec, x, order) == Ok([k])
  }

  ghost predicate ReadsAs(x: Image, k: KraftRecord, rec: Record)
  {
    forall scan :: Scans(x, scan) ==> FromKraft(k, x, scan) == Ok(rec)
  }

  lemma WritesOne(x: Image, rec: Record, k: KraftRecord)
    requires WritesAs(x, rec, k)
    ensures Encodings(x, rec) == iset{Ok([k])}
  {
    var order := Order([], []);
    assert Orders(x, rec, order) && ToKraft(rec, x, order) == Ok([k]);
  }

  lemma ReadsOne(x: Image, k: KraftRecord, rec: Record)
    requires ReadsAs(x, k, rec)
    ensures forall o :: o in Decodings(x, k) ==> o == Ok(rec)
  {
  }

  /** A record that is written as `k`, which reads as `sent`. */
  lemma ReadCarries(x: Image, rec: Record, k: KraftRecord, sent: Record, goal: Image)
    requires WritesAs(x, rec, k) && ReadsAs(x, k, sent) && Agree(Apply(x, sent), goal)
    ensures Carries(Kraft(), x, rec, goal)
  {
    WritesOne(x, rec, k);
    ReadsOne(x, k, sent);
    OneCarries(Kraft(), x, rec, k, goal);
  }

  lemma TopicCarries(x: Image, t: TopicRecord)
    ensures Carries(Kraft(), x, V1Topic(t), Apply(x, V1Topic(t)))
  {
    var k, rec := KTopic(t.name, t.topicId), V1Topic(t);
    var sent := V1Topic(TopicFromKraft(t.name, t.topicId, x.topics));
    TopicMeansItself(x.topics, t);
    ApplyInGroup(x, rec);
    ApplyInGroup(x, sent);
    assert WritesAs(x, rec, k) && ReadsAs(x, k, sent);
    ReadCarries(x, rec, k, sent, Apply(x, rec));
  }

  lemma SidecarsMeanNothing(x: Image, p: PartitionRecord)
    requires Sound(x)
    ensures Apply(x, WithSidecars(p, x.topics)) == Apply(x, V1Partition(p))
  {
    SidecarsStay(x.topics, p);
    ApplyInGroup(x, V1Partition(p));
    ApplyInGroup(x, WithSidecars(p, x.topics));
  }

  lemma PartitionCarries(x: Image, p: PartitionRecord)
    requires Sound(x) && OwnsId(x.topics, p.topic) && PartitionFits(p) && SidecarFits(x.topics, p.topic, p.partition)
    ensures Carries(Kraft(), x, V1Partition(p), Apply(x, V1Partition(p)))
  {
    var rec, sent := V1Partition(p), WithSidecars(p, x.topics);
    PartitionEncodesIff(x.topics, p);
    var k := KPartition(PartitionToKraft(p, x.topics).value);
    SidecarsMeanNothing(x, p);
    assert ReadsAs(x, k, sent) by {
      forall scan | Scans(x, scan) ensures FromKraft(k, x, scan) == Ok(sent) {
        OwnIdIsFound(x.topics, scan.topics, p.topic);
        PartitionRoundTrip(x.topics, p, scan.topics);
      }
    }
    ReadCarries(x, rec, k, sent, Apply(x, rec));
  }

  lemma RemovalCarries(x: Image, name: Str)
    requires OwnsId(x.topics, name)
    ensures Carries(Kraft(), x, V1DeleteTopic(name), Apply(x, V1DeleteTopic(name)))
  {
    var rec, k := V1DeleteTopic(name), KRemoveTopic(x.topics.topics[name].topicId);
    assert ReadsAs(x, k, rec) by {
      forall scan | Scans(x, scan) ensures FromKraft(k, x, scan) == Ok(rec) {
        OwnIdIsFound(x.topics, scan.topics, name);
      }
    }
    ReadCarries(x, rec, k, rec, Apply(x, rec));
  }

  lemma BrokerConfigCarries(x: Image, node: NodeId, name: Str, value: Option<Str>)
    requires node <= U64_MAX
    ensures Carries(Kraft(), x, V1BrokerConfig(node, name, value), Apply(x, V1BrokerConfig(node, name, value)))
  {
    var rec, k := V1BrokerConfig(node, name, value), KConfig(BrokerConfigToKraft(node, name, value));
    BrokerConfigRoundTrip(node, name, value, x);
    assert WritesAs(x, rec, k) && ReadsAs(x, k, rec);
    ReadCarries(x, rec, k, rec, Apply(x, rec));
  }

  predicate IsPlainKraft(k: KraftRecord)
  {
    !(k.KTopic? || k.KPartition? || k.KPartitionChange? || k.KRemoveTopic? || k.KConfig? || k.KRemoveAcl?)
  }

  lemma PlainWritesPlain(rec: Record)
    requires PlainToKraft(rec).Ok?
    ensures IsPlainKraft(PlainToKraft(rec).value)
  {
  }

  lemma PlainWrites(x: Image, rec: Record, k: KraftRecord)
    requires IsPlain(rec) && PlainToKraft(rec) == Ok(k)
    ensures WritesAs(x, rec, k)
  {
    forall order ensures ToKraft(rec, x, order) == Ok([k]) {
      assert ToKraft(rec, x, order) == One(Ok(k));
    }
  }

  lemma PlainReads(x: Image, k: KraftRecord, rec: Record)
    requires IsPlainKraft(k) && PlainFromKraft(k) == Ok(rec)
    ensures ReadsAs(x, k, rec)
  {
  }

  lemma PlainCarries(x: Image, rec: Record)
    requires IsPlain(rec) && Carried(rec)
    ensures Carries(Kraft(), x, rec, Apply(x, rec))
  {
    PlainRoundTrip(rec);
    var k := PlainToKraft(rec).value;
    PlainWritesPlain(rec);
    PlainWrites(x, rec, k);
    PlainReads(x, k, rec);
    ReadCarries(x, rec, k, rec, Apply(x, rec));
  }

  lemma ChangeStaysInTopics(x: Image, rec: Record)
    requires IsChange(rec)
    ensures Meant(x, rec) == x.(topics := MeantTopics(x.topics, rec))
  {
    ApplyInGroup(x, rec);
  }

  lemma ChangeLands(x: Image, c: PartitionChange, walk: seq<Str>)
    requires Enumerates(walk, x.topics.topics.Keys) && Sent(x.topics, Ok(c), walk).Ok?
    ensures var rec := ChangeFromKraft(c, x.topics, walk);
            rec.Ok? && Apply(x, rec.value) == x.(topics := Sent(x.topics, Ok(c), walk).value)
  {
    var rec := ChangeFromKraft(c, x.topics, walk);
    assert rec.value.V1Partition? || rec.value.V1PartitionUpdate?;
    ApplyInGroup(x, rec.value);
  }

  /** A change that means `t` on every walk of the topics. */
  lemma ChangeReaches(x: Image, c: PartitionChange, t: TopicState)
    requires forall walk :: Enumerates(walk, x.topics.topics.Keys) ==> Sent(x.topics, Ok(c), walk) == Ok(t)
    ensures forall o :: o in Decodings(x, KPartitionChange(c)) ==> o.Ok? && Apply(x, o.value) == x.(topics := t)
  {
    forall scan | Scans(x, scan)
      ensures var o := FromKraft(KPartitionChange(c), x, scan); o.Ok? && Apply(x, o.value) == x.(topics := t)
    {
      ChangeLands(x, c, scan.topics);
    }
  }

  lemma ChangeWrites(x: Image, rec: Record, c: PartitionChange)
    requires IsChange(rec) && ChangeOf(rec, x.topics) == Ok(c)
    ensures WritesAs(x, rec, KPartitionChange(c))
  {
  }

  lemma ChangeIsWritten(s: TopicState, rec: Record) returns (c: PartitionChange)
    requires PartitionsKeyed(s) && IsChange(rec) && OwnsId(s, TopicOf(rec)) && ChangeFits(s, rec)
    ensures ChangeOf(rec, s) == Ok(c)
    ensures forall walk :: Enumerates(walk, s.topics.Keys) ==> Sent(s, Ok(c), walk) == Ok(MeantTopics(s, rec))
  {
    var some := SomeWalk(s.topics.Keys);
    ChangeMeansIff(s, rec);
    assert Sent(s, ChangeOf(rec, s), some) == Ok(MeantTopics(s, rec));
    c := ChangeOf(rec, s).value;
  }

  lemma ChangeCarriesAs(x: Image, rec: Record, c: PartitionChange, t: TopicState)
    requires WritesAs(x, rec, KPartitionChange(c))
    requires forall walk :: Enumerates(walk, x.topics.topics.Keys) ==> Sent(x.topics, Ok(c), walk) == Ok(t)
    ensures Carries(Kraft(), x, rec, x.(topics := t))
  {
    WritesOne(x, rec, KPartitionChange(c));
    ChangeReaches(x, c, t);
    OneCarries(Kraft(), x, rec, KPartitionChange(c), x.(topics := t));
  }

  lemma ChangeCarries(x: Image, rec: Record)
    requires Sound(x) && IsChange(rec) && OwnsId(x.topics, TopicOf(rec)) && ChangeFits(x.topics, rec)
    ensures Carries(Kraft(), x, rec, Meant(x, rec))
  {
    var c := ChangeIsWritten(x.topics, rec);
    ChangeWrites(x, rec, c);
    ChangeCarriesAs(x, rec, c, MeantTopics(x.topics, rec));
    ChangeStaysInTopics(x, rec);
  }

  // ----- records that fan out -----

  lemma ConfigReads(x: Image, c: ConfigRecord, rec: Record)
    requires ConfigFromKraft(c, x) == Ok(rec)
    ensures ReadsAs(x, KConfig(c), rec)
  {
  }

  lemma ReadsTo(x: Image, k: KraftRecord, rec: Record, y: Image)
    requires ReadsAs(x, k, rec) && y == Apply(x, rec)
    ensures forall o :: o in Kraft().decodes(x, k) ==> o.Ok? && Kraft().apply(x, o.value) == y
  {
    ReadsOne(x, k, rec);
  }

  lemma {:induction false} ConfigsArrive(x: Image, cs: seq<ConfigRecord>, goal: Image)
    requires DecodeAll(x, cs) == Ok(goal)
    ensures Arrives(Kraft(), x, ConfigRecords(cs), [], goal)
    decreases |cs|
  {
    var ks := ConfigRecords(cs);
    if cs != [] {
      var rec := ConfigFromKraft(cs[0], x).value;
      var y := Apply(x, rec);
      ConfigReads(x, cs[0], rec);
      ReadsTo(x, ks[0], rec, y);
      ConfigsArrive(y, cs[1..], goal);
      assert ks[1..] == ConfigRecords(cs[1..]);
      HeadArrives(Kraft(), x, ks, y, goal);
    }
  }

  lemma KeysToSend(m: map<Str, Configs>, resource: Str, configs: Configs, keys: seq<Str>)
    requires NoEmptyInner(m) && resource in m && OrdersKeys(m, resource, configs, keys)
    ensures keys != []
  {
    assert Inner(m, resource).Keys <= Elems(keys);
  }

  lemma WholeMapArrives(x: Image, kind: int, resource: Str, configs: Configs, keys: seq<Str>)
    requires IsWholeMap(kind) && NoEmptyInner(Table(x, kind)) && OrdersKeys(Table(x, kind), resource, configs, keys)
    ensures Arrives(Kraft(), x, ConfigRecords(FanOut(kind, resource, configs, keys)), [], Apply(x, WholeMap(kind, resource, configs)))
  {
    if resource in Table(x, kind) { KeysToSend(Table(x, kind), resource, configs, keys); }
    FanOutMeansReplace(x, kind, resource, configs, keys);
    ConfigsArrive(x, FanOut(kind, resource, configs, keys), Apply(x, WholeMap(kind, resource, configs)));
  }

  lemma WholeMapOrders(x: Image, kind: int, resource: Str, configs: Configs, order: Order)
    requires IsWholeMap(kind)
    ensures var rec := WholeMap(kind, resource, configs);
            && (Orders(x, rec, order) <==> OrdersKeys(Table(x, kind), resource, configs, order.keys))
            && ToKraft(rec, x, order) == Ok(ConfigRecords(FanOut(kind, resource, configs, order.keys)))
  {
  }

  lemma WholeMapCarries(x: Image, kind: int, resource: Str, configs: Configs)
    requires IsWholeMap(kind) && NoEmptyInner(Table(x, kind))
    ensures var rec := WholeMap(kind, resource, configs); Carries(Kraft(), x, rec, Apply(x, rec))
  {
    var rec := WholeMap(kind, resource, configs);
    forall order | Orders(x, rec, order)
      ensures ToKraft(rec, x, order).Ok? && Arrives(Kraft(), x, ToKraft(rec, x, order).value, [], Apply(x, rec))
    {
      WholeMapOrders(x, kind, resource, configs, order);
      WholeMapArrives(x, kind, resource, configs, order.keys);
    }
  }

  lemma RemovalReads(x: Image, id: AclId, o: Result<Record, TranslateError>) returns (walk: seq<AclEntry>)
    requires o in Decodings(x, KRemoveAcl(id))
    ensures Enumerates(walk, x.security.acls) && o == RemovalFromKraft(walk, IdOrZero, id)
  {
    var scan :| Scans(x, scan) && o == FromKraft(KRemoveAcl(id), x, scan);
    walk := scan.acls;
  }

  lemma {:induction false} RemovalsArrive(x: Image, ids: seq<AclId>, goal: Image)
    requires EveryScanEnds(x, IdOrZero, ids, goal)
    ensures Arrives(Kraft(), x, Removals(ids), [], goal)
    decreases |ids|
  {
    var ks := Removals(ids);
    if ids != [] {
      assert ks[1..] == Removals(ids[1..]);
      forall o | o in Kraft().decodes(x, ks[0])
        ensures o.Ok? && Arrives(Kraft(), Kraft().apply(x, o.value), ks[1..], [], goal)
      {
        var walk := RemovalReads(x, ids[0], o);
        ScanStep(x, IdOrZero, ids, goal, walk, o);
        RemovalsArrive(Apply(x, o.value), ids[1..], goal);
      }
    }
  }

  lemma DeleteCarries(x: Image, f: AclEntryFilter)
    requires NoSharedId(x.security.acls, f)
    ensures var rec := V1DeleteAccessControlEntry(f); Carries(Kraft(), x, rec, Apply(x, rec))
  {
    var rec := V1DeleteAccessControlEntry(f);
    forall order | Orders(x, rec, order)
      ensures ToKraft(rec, x, order).Ok? && Arrives(Kraft(), x, ToKraft(rec, x, order).value, [], Apply(x, rec))
    {
      DeleteFanOutIsFilter(x, f, IdOrZero, order.entries);
      RemovalsArrive(x, Ids(order.entries, IdOrZero), Apply(x, rec));
    }
  }

  /** Whatever order every table is walked in, the record arrives as what it means. */
  lemma RecordCarries(x: Image, rec: Record)
    requires Sound(x) && Sends(x, rec)
    ensures Carries(Kraft(), x, rec, Meant(x, rec))
  {
    if rec.V1Topic? { TopicCarries(x, rec.topic); }
    else if rec.V1Partition? { PartitionCarries(x, rec.partition); }
    else if rec.V1DeleteTopic? { RemovalCarries(x, rec.name); }
    else if rec.V1TopicConfig? { WholeMapCarries(x, TOPIC, rec.resource, rec.configs); }
    else if rec.V1ClientMetricsConfig? { WholeMapCarries(x, CLIENT_METRICS, rec.resource, rec.configs); }
    else if rec.V1GroupConfig? { WholeMapCarries(x, GROUP, rec.resource, rec.configs); }
    else if rec.V1BrokerConfig? { BrokerConfigCarries(x, rec.nodeId, rec.configName, rec.configValue); }
    else if rec.V1DeleteAccessControlEntry? { DeleteCarries(x, rec.filter); }
    else if IsChange(rec) { ChangeCarries(x, rec); }
    else { PlainCarries(x, rec); }
  }

  // ----- the whole log -----

  lemma AgreeTransitive(a: Image, b: Image, c: Image)
    requires Agree(a, b) && Agree(b, c)
    ensures Agree(a, c)
  {
    forall t | t in a.topics.topics ensures SameTopic(a.topics.topics[t], c.topics.topics[t]) {
      assert SameTopic(a.topics.topics[t], b.topics.topics[t]) && SameTopic(b.topics.topics[t], c.topics.topics[t]);
    }
  }

  lemma SoundRespects(x: Image, d: Image)
    requires Agree(x, d) && Sound(d)
    ensures Sound(x)
  {
  }

  lemma OwnsIdRespects(s: TopicState, d: TopicState, topic: Str)
    requires AgreeTopics(s, d) && OwnsId(d, topic)
    ensures OwnsId(s, topic)
  {
    assert SameTopic(s.topics[topic], d.topics[topic]);
    forall n | n in s.topics && s.topics[n].topicId == s.topics[topic].topicId ensures n == topic {
      assert SameTopic(s.topics[n], d.topics[n]);
    }
  }

  lemma SendsRespects(x: Image, d: Image, rec: Record)
    requires Agree(x, d) && Sends(d, rec)
    ensures Sends(x, rec)
  {
    if rec.V1Partition? { OwnsIdRespects(x.topics, d.topics, rec.partition.topic); }
    else if rec.V1DeleteTopic? { OwnsIdRespects(x.topics, d.topics, rec.name); }
    else if IsChange(rec) {
      OwnsIdRespects(x.topics, d.topics, TopicOf(rec));
      ChangeFitsRespects(x.topics, d.topics, rec);
    }
  }

  lemma ChangeFitsRespects(s: TopicState, d: TopicState, rec: Record)
    requires AgreeTopics(s, d) && IsChange(rec) && ChangeFits(d, rec)
    ensures ChangeFits(s, rec)
  {
  }

  lemma TouchedRespects(s: TopicState, d: TopicState, topic: Str, index: int)
    requires AgreeTopics(s, d)
    ensures AgreeTopics(Touched(s, topic, index), Touched(d, topic, index))
  {
    if InNest(s.partitions, topic, index) { PartitionRespects(s, d, EpochStepped(s, topic, index)); }
  }

  lemma MeantRespects(x: Image, d: Image, rec: Record)
    requires Agree(x, d)
    ensures Agree(Meant(x, rec), Meant(d, rec))
  {
    ApplyRespects(x, d, rec);
    if rec.V1PartitionDirAssignment? || rec.V1PartitionElr? || rec.V1PartitionRecovery? {
      TouchedRespects(Apply(x, rec).topics, Apply(d, rec).topics, rec.topicName, rec.index);
    }
  }

  lemma TouchKeeps(x: Image, topic: Str, index: int)
    requires AnyLogInv(x)
    ensures AnyLogInv(Touch(x, topic, index))
  {
    if InNest(x.topics.partitions, topic, index) {
      var stepped := V1Partition(EpochStepped(x.topics, topic, index));
      KeepsAnyLogInv(x, stepped);
      ApplyInGroup(x, stepped);
    }
  }

  lemma MeantKeeps(x: Image, rec: Record)
    requires AnyLogInv(x)
    ensures AnyLogInv(Meant(x, rec))
  {
    KeepsAnyLogInv(x, rec);
    if rec.V1PartitionDirAssignment? || rec.V1PartitionElr? || rec.V1PartitionRecovery? {
      TouchKeeps(Apply(x, rec), rec.topicName, rec.index);
    }
  }

  lemma KraftDelivers()
    ensures Delivers(Kraft(), Sound, Sends, Meant)
  {
    forall x, rec | Sound(x) && Sends(x, rec) ensures Carries(Kraft(), x, rec, Meant(x, rec)) { RecordCarries(x, rec); }
  }

  lemma AgreementIsRespected()
    ensures Respects(Agree, Sound, Sends, Meant) && Transitive(Agree)
  {
    forall x, d, rec | Agree(x, d) && Sound(d) && Sends(d, rec)
      ensures Sound(x) && Sends(x, rec) && Agree(Meant(x, rec), Meant(d, rec))
    {
      SoundRespects(x, d);
      SendsRespects(x, d, rec);
      MeantRespects(x, d, rec);
    }
    forall a, b, c | Agree(a, b) && Agree(b, c) ensures Agree(a, c) { AgreeTransitive(a, b, c); }
  }

  lemma MeaningKeeps()
    ensures Keeps(AnyLogInv, Sound, Meant)
  {
    forall x, rec | AnyLogInv(x) ensures AnyLogInv(Meant(x, rec)) { MeantKeeps(x, rec); }
  }

  /** For every log whose records keep to the senders' conditions: sent record by record,
      with every table walked in any order at every step, all of it is encoded and decoded,
      and the image at the end agrees with the one the records mean. */
  lemma SentLogArrives(x: Image, d: Image, log: seq<Record>)
    requires Agree(x, d) && AnyLogInv(d) && AllSend(Meant, Sends, d, log)
    ensures Arrives(Kraft(), x, [], log, Meaning(Meant, d, log))
  {
    KraftDelivers();
    AgreementIsRespected();
    MeaningKeeps();
    LogArrives(Kraft(), AnyLogInv, Sound, Sends, Meant, x, d, log);
  }
}
