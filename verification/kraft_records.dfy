/** `crates/metadata/src/kraft_translate.rs`: the records of the KIP-631 log, and the
    translation of those that do not depend on the image. */
module KraftRecords {
  import opened Base
  import opened Bytes
  import opened MetadataRecords
  import opened KraftConfigs
  import opened KraftPartitions
  import opened KraftTopics
  import opened KraftAcls

  datatype KraftEndpoint = KraftEndpoint(name: Str, host: Str, port: nat, protocol: int)

  datatype KraftBroker = KraftBroker(
    brokerId: int, brokerEpoch: int, incarnationId: Uuid, rack: Option<Str>, endpoints: seq<KraftEndpoint>,
    logDirs: seq<Uuid>, fenced: bool, inControlledShutdown: bool, cordonedLogDirs: Option<seq<Uuid>>,
    features: map<Str, (int, int)>)

  datatype KraftController = KraftController(
    controllerId: int, incarnationId: Uuid, zkMigrationReady: bool, endpoints: seq<KraftEndpoint>,
    features: map<Str, (int, int)>)

  datatype KraftChange = KraftChange(
    brokerId: int, brokerEpoch: int, fenced: int, inControlledShutdown: int, logDirs: seq<Uuid>,
    cordonedLogDirs: Option<seq<Uuid>>)

  datatype KraftAcl = KraftAcl(
    id: AclId, resourceType: byte, resourceName: Str, patternType: byte, principal: Str, host: Str,
    operation: byte, permissionType: byte)

  /** A tagged field of a `NoOpRecord`: the version and the record of its body. */
  datatype PrivateField = PrivateField(tag: nat, version: int, record: Record)

  datatype KraftRecord =
    | KTopic(name: Str, topicId: Uuid)
    | KPartition(partition: KraftPartition)
    | KPartitionChange(change: PartitionChange)
    | KRemoveTopic(topicId: Uuid)
    | KConfig(config: ConfigRecord)
    | KRemoveAcl(id: AclId)
    | KAcl(acl: KraftAcl)
    | KRegisterBroker(broker: KraftBroker)
    | KRegisterController(controller: KraftController)
    | KBrokerChange(brokerChange: KraftChange)
    | KUnregisterBroker(brokerId: int, brokerEpoch: int)
    | KUnregisterController(controllerId: int)
    | KScram(user: Str, mechanism: int, salt: Str, storedKey: Str, serverKey: Str, iterations: int)
    | KRemoveScram(user: Str, mechanism: int)
    | KClientQuota(entity: EntityKey, key: Str, value: int, remove: bool)
    | KProducerIds(brokerId: int, brokerEpoch: int, nextProducerId: int)
    | KDelegationToken(token: DelegationToken)
    | KRemoveDelegationToken(tokenId: Str)
    | KFeatureLevel(name: Str, level: int)
    | KNoOp(fields: seq<PrivateField>)

  // ----- node ids, mechanisms, protocols -----

  function NodeToWire(node: NodeId): Result<int, TranslateError>
  {
    if node <= I32_MAX then Ok(node) else Err(InvalidValue)
  }

  function NodeFromWire(value: int): Result<NodeId, TranslateError>
  {
    if value >= 0 then Ok(value) else Err(InvalidValue)
  }

  predicate IsScram(mechanism: int) { mechanism == 1 || mechanism == 2 }

  function MechanismToWire(mechanism: nat): Result<int, TranslateError>
  {
    if IsScram(mechanism) then Ok(mechanism) else Err(InvalidValue)
  }

  function MechanismFromWire(value: int): Result<nat, TranslateError>
  {
    if IsScram(value) then Ok(value) else Err(InvalidValue)
  }

  function ProtocolToWire(p: ListenerProtocol): int
  {
    match p
    case Plaintext => 0
    case Ssl => 1
    case SaslPlaintext => 2
    case SaslSsl => 3
  }

  function ProtocolFromWire(value: int): Result<ListenerProtocol, TranslateError>
  {
    match value
    case 0 => Ok(Plaintext)
    case 1 => Ok(Ssl)
    case 2 => Ok(SaslPlaintext)
    case 3 => Ok(SaslSsl)
    case _ => Err(InvalidValue)
  }

  function FencingToWire(c: FencingChange): int
  {
    match c
    case Unfence => -1
    case NoFencingChange => 0
    case Fence => 1
  }

  function FencingFromWire(value: int): Result<FencingChange, TranslateError>
  {
    match value
    case -1 => Ok(Unfence)
    case 0 => Ok(NoFencingChange)
    case 1 => Ok(Fence)
    case _ => Err(InvalidValue)
  }

  function FlagFromWire(value: int): Result<bool, TranslateError>
  {
    match value
    case 0 => Ok(false)
    case 1 => Ok(true)
    case _ => Err(InvalidValue)
  }

  const PROTOCOL_CODES: seq<ListenerProtocol> := [Plaintext, Ssl, SaslPlaintext, SaslSsl]

  /** Kafka's codes: protocols count from 0, a fencing change is -1, 0 or 1, and nothing else
      is read. */
  lemma RecordCodes(code: int)
    ensures ProtocolFromWire(code) == if 0 <= code < 4 then Ok(PROTOCOL_CODES[code]) else Err(InvalidValue)
    ensures FencingFromWire(code) == if -1 <= code <= 1 then Ok([Unfence, NoFencingChange, Fence][code + 1]) else Err(InvalidValue)
    ensures FlagFromWire(code) == if 0 <= code <= 1 then Ok(code == 1) else Err(InvalidValue)
  {
  }

  /** The tag table. 1002 is burned. */
  lemma PrivateTags(rec: Record, tag: nat)
    ensures IsPrivateTag(tag) <==> tag in [1001, 1003, 1004, 1005, 1006]
    ensures rec.V1FeaturesEpoch? ==> PrivateTag(rec) == Some(1001)
    ensures rec.V1PartitionOffsetAdvance? ==> PrivateTag(rec) == Some(1003)
    ensures rec.V1TopicFreeze? ==> PrivateTag(rec) == Some(1004)
    ensures rec.V1BreakGlassProposal? ==> PrivateTag(rec) == Some(1005)
    ensures rec.V1DeleteBreakGlassProposal? ==> PrivateTag(rec) == Some(1006)
    ensures PrivateTag(rec).Some? ==> IsPrivateTag(PrivateTag(rec).value)
  {
  }

  lemma RecordCodesWritten(p: ListenerProtocol, c: FencingChange)
    ensures ProtocolFromWire(ProtocolToWire(p)) == Ok(p) && FencingFromWire(FencingToWire(c)) == Ok(c)
  {
  }

  // ----- listeners -----

  function EndpointToKraft(e: Endpoint): KraftEndpoint
  {
    KraftEndpoint(e.name, e.host, e.port, ProtocolToWire(e.protocol))
  }

  function EndpointFromKraft(k: KraftEndpoint): Result<Endpoint, TranslateError>
  {
    var protocol :- ProtocolFromWire(k.protocol);
    Ok(Endpoint(k.name, k.host, k.port, protocol))
  }

  function EndpointsToKraft(es: seq<Endpoint>): (ks: seq<KraftEndpoint>)
    ensures |ks| == |es|
  {
    seq(|es|, i requires 0 <= i < |es| => EndpointToKraft(es[i]))
  }

  function EndpointsFromKraft(ks: seq<KraftEndpoint>): Result<seq<Endpoint>, TranslateError>
  {
    if ks == [] then Ok([])
    else
      var first :- EndpointFromKraft(ks[0]);
      var rest :- EndpointsFromKraft(ks[1..]);
      Ok([first] + rest)
  }

  lemma {:induction false} EndpointsRoundTrip(es: seq<Endpoint>)
    ensures EndpointsFromKraft(EndpointsToKraft(es)) == Ok(es)
  {
    if es != [] {
      EndpointsRoundTrip(es[1..]);
      assert EndpointsToKraft(es)[1..] == EndpointsToKraft(es[1..]);
      assert [es[0]] + es[1..] == es;
    } else {
      assert EndpointsToKraft(es) == [];
    }
  }

  // ----- brokers and controllers -----

  /** `register_broker_to_kraft`. A record without listeners sends its host and port as a
      listener without a name; one with listeners sends those alone. */
  function BrokerToKraft(b: BrokerRegistrationRecord): Result<KraftBroker, TranslateError>
  {
    var endpoints := if b.endpoints == [] then [KraftEndpoint([], b.host, b.port, 0)] else EndpointsToKraft(b.endpoints);
    var id :- NodeToWire(b.nodeId);
    Ok(KraftBroker(id, b.brokerEpoch, b.incarnationId, b.rack, endpoints, b.logDirs, b.fenced,
                   b.inControlledShutdown, b.cordonedLogDirs, b.features))
  }

  /** `register_broker_from_kraft`. The first listener supplies host and port, and stays a
      listener only if it has a name. */
  function BrokerFromKraft(k: KraftBroker): Result<BrokerRegistrationRecord, TranslateError>
  {
    var host: Str := if k.endpoints == [] then [] else k.endpoints[0].host;
    var port := if k.endpoints == [] then 0 else k.endpoints[0].port;
    var listeners := if k.endpoints != [] && k.endpoints[0].name == [] then k.endpoints[1..] else k.endpoints;
    var endpoints :- EndpointsFromKraft(listeners);
    var node :- NodeFromWire(k.brokerId);
    Ok(BrokerRegistrationRecord(node, k.brokerEpoch, k.incarnationId, host, port, k.rack, endpoints, k.logDirs,
                                k.fenced, k.inControlledShutdown, k.cordonedLogDirs, k.features))
  }

  /** The listeners carry the host and the port: there are none, or the first one has a
      name and is where the broker says it listens. */
  predicate ListenersCarry(b: BrokerRegistrationRecord)
  {
    b.endpoints == [] ||
    (b.endpoints[0].name != [] && b.endpoints[0].host == b.host && b.endpoints[0].port == b.port)
  }

  lemma BrokerRoundTrip(b: BrokerRegistrationRecord)
    ensures BrokerToKraft(b).Ok? && BrokerFromKraft(BrokerToKraft(b).value) == Ok(b)
            <==> b.nodeId <= I32_MAX && ListenersCarry(b)
  {
    if b.nodeId <= I32_MAX && b.endpoints != [] {
      var ks := EndpointsToKraft(b.endpoints);
      EndpointsRoundTrip(b.endpoints);
      EndpointsRoundTrip(b.endpoints[1..]);
      assert ks[1..] == EndpointsToKraft(b.endpoints[1..]);
    } else if b.nodeId <= I32_MAX {
      assert [KraftEndpoint([], b.host, b.port, 0)][1..] == [];
    }
  }

  function ControllerToKraft(c: ControllerRegistrationRecord): Result<KraftController, TranslateError>
  {
    var id :- NodeToWire(c.nodeId);
    Ok(KraftController(id, c.incarnationId, c.zkMigrationReady, EndpointsToKraft(c.endpoints), c.features))
  }

  function ControllerFromKraft(k: KraftController): Result<ControllerRegistrationRecord, TranslateError>
  {
    var endpoints :- EndpointsFromKraft(k.endpoints);
    var node :- NodeFromWire(k.controllerId);
    Ok(ControllerRegistrationRecord(node, k.incarnationId, k.zkMigrationReady, endpoints, k.features))
  }

  function ChangeToKraft(c: BrokerRegistrationChangeRecord): Result<KraftChange, TranslateError>
  {
    var id :- NodeToWire(c.nodeId);
    Ok(KraftChange(id, c.brokerEpoch, FencingToWire(c.fenced), if c.inControlledShutdown then 1 else 0, c.logDirs,
                   c.cordonedLogDirs))
  }

  function ChangeFromWire(k: KraftChange): Result<BrokerRegistrationChangeRecord, TranslateError>
  {
    var fenced :- FencingFromWire(k.fenced);
    var shutdown :- FlagFromWire(k.inControlledShutdown);
    var node :- NodeFromWire(k.brokerId);
    Ok(BrokerRegistrationChangeRecord(node, k.brokerEpoch, fenced, shutdown, k.logDirs, k.cordonedLogDirs))
  }

  lemma ControllerRoundTrip(c: ControllerRegistrationRecord)
    ensures ControllerToKraft(c).Ok? && ControllerFromKraft(ControllerToKraft(c).value) == Ok(c) <==> c.nodeId <= I32_MAX
  {
    EndpointsRoundTrip(c.endpoints);
  }

  lemma ChangeRoundTrip(c: BrokerRegistrationChangeRecord)
    ensures ChangeToKraft(c).Ok? && ChangeFromWire(ChangeToKraft(c).value) == Ok(c) <==> c.nodeId <= I32_MAX
  {
    assert FencingFromWire(FencingToWire(c.fenced)) == Ok(c.fenced);
  }

  // ----- access control entries -----

  function AclToKraft(e: AclEntry): KraftAcl
  {
    KraftAcl(IdOrZero(e), ResourceTypeToWire(e.resourceType), e.resourceName, PatternTypeToWire(e.patternType),
             e.principal, e.host, OperationToWire(e.operation), PermissionToWire(e.permissionType))
  }

  function AclFromKraft(k: KraftAcl): Result<AclEntry, TranslateError>
  {
    var resourceType :- ResourceTypeFromWire(k.resourceType);
    var patternType :- PatternTypeFromWire(k.patternType);
    var operation :- OperationFromWire(k.operation);
    var permission :- PermissionFromWire(k.permissionType);
    Ok(AclEntry(resourceType, k.resourceName, patternType, k.principal, k.host, operation, permission))
  }

  lemma AclRoundTrip(e: AclEntry)
    ensures AclFromKraft(AclToKraft(e)) == Ok(e)
  {
    assert OperationFromWire(OperationToWire(e.operation)) == Ok(e.operation);
    assert ResourceTypeFromWire(ResourceTypeToWire(e.resourceType)) == Ok(e.resourceType);
  }

  // ----- the private carrier -----

  const PRIVATE_TAG_FLOOR: nat := 1001
  const PRIVATE_RECORD_VERSION: int := 0

  /** The 1.x tag table. */
  function PrivateTag(rec: Record): Option<nat>
  {
    match rec
    case V1FeaturesEpoch(_) => Some(1001)
    case V1PartitionOffsetAdvance(_, _, _) => Some(1003)
    case V1TopicFreeze(_) => Some(1004)
    case V1BreakGlassProposal(_) => Some(1005)
    case V1DeleteBreakGlassProposal(_) => Some(1006)
    case _ => None
  }

  predicate IsPrivateTag(tag: nat) { tag == 1001 || 1003 <= tag <= 1006 }

  function PrivateCarrier(rec: Record): Result<KraftRecord, TranslateError>
  {
    match PrivateTag(rec)
    case Some(tag) => Ok(KNoOp([PrivateField(tag, PRIVATE_RECORD_VERSION, rec)]))
    case None => Err(NoCounterpart)
  }

  function FromPrivateCarrier(fields: seq<PrivateField>): Result<Record, TranslateError>
  {
    if |fields| != 1 || fields[0].tag < PRIVATE_TAG_FLOOR then Err(NoCounterpart)
    else if !IsPrivateTag(fields[0].tag) then Err(UnknownPrivateTag)
    else if fields[0].version != PRIVATE_RECORD_VERSION then Err(UnknownPrivateRecordVersion)
    else if PrivateTag(fields[0].record) != Some(fields[0].tag) then Err(PrivateTagMismatch)
    else Ok(fields[0].record)
  }

  /** The carrier accepts exactly what it writes. */
  lemma CarrierAcceptsExactly(fields: seq<PrivateField>)
    ensures FromPrivateCarrier(fields).Ok? <==>
              exists rec :: PrivateTag(rec).Some? && PrivateCarrier(rec) == Ok(KNoOp(fields))
  {
    if FromPrivateCarrier(fields).Ok? {
      var rec := fields[0].record;
      assert fields == [PrivateField(fields[0].tag, PRIVATE_RECORD_VERSION, rec)];
      assert PrivateCarrier(rec) == Ok(KNoOp(fields));
    }
  }

  // ----- image-free records -----

  /** The records whose translation does not look at the image. */
  predicate IsPlain(rec: Record)
  {
    !(|| rec.V1Topic? || rec.V1Partition? || rec.V1DeleteTopic? || rec.V1TopicConfig? || rec.V1ClientMetricsConfig?
      || rec.V1GroupConfig? || rec.V1BrokerConfig? || rec.V1DeleteAccessControlEntry? || rec.V1PartitionDirAssignment?
      || rec.V1PartitionElr? || rec.V1PartitionRecovery? || rec.V1PartitionUpdate?)
  }

  function NodeRecordToKraft(rec: Record): Result<KraftRecord, TranslateError>
  {
    match rec
    case V1BrokerRegistration(b) => var k :- BrokerToKraft(b); Ok(KRegisterBroker(k))
    case V1ControllerRegistration(c) => var k :- ControllerToKraft(c); Ok(KRegisterController(k))
    case V1BrokerRegistrationChange(c) => var k :- ChangeToKraft(c); Ok(KBrokerChange(k))
    case V1UnregisterBroker(node, epoch) => var id :- NodeToWire(node); Ok(KUnregisterBroker(id, epoch))
    case V1UnregisterController(node) => var id :- NodeToWire(node); Ok(KUnregisterController(id))
    case V1ProducerIds(r) => var id :- NodeToWire(r.brokerId); Ok(KProducerIds(id, r.brokerEpoch, r.nextProducerId))
    case _ => PrivateCarrier(rec)
  }

  function PlainToKraft(rec: Record): Result<KraftRecord, TranslateError>
  {
    match rec
    case V1FeatureLevel(name, level) => Ok(KFeatureLevel(name, level))
    case V1ScramCredential(user, c) =>
      if c.iterations > I32_MAX then Err(InvalidValue)
      else var mechanism :- MechanismToWire(c.mechanism);
           Ok(KScram(user, mechanism, c.salt, c.storedKey, c.serverKey, c.iterations))
    case V1DeleteScramCredential(user, mechanism) => var m :- MechanismToWire(mechanism); Ok(KRemoveScram(user, m))
    case V1AccessControlEntry(e) => Ok(KAcl(AclToKraft(e)))
    case V1ClientQuota(entity, key, quota) =>
      Ok(KClientQuota(entity, key, if quota.Some? then quota.value else 0, quota.None?))
    case V1DelegationToken(t) => Ok(KDelegationToken(t))
    case V1DeleteDelegationToken(id) => Ok(KRemoveDelegationToken(id))
    case _ => NodeRecordToKraft(rec)
  }

  function NodeRecordFromKraft(k: KraftRecord): Result<Record, TranslateError>
  {
    match k
    case KRegisterBroker(b) => var r :- BrokerFromKraft(b); Ok(V1BrokerRegistration(r))
    case KRegisterController(c) => var r :- ControllerFromKraft(c); Ok(V1ControllerRegistration(r))
    case KBrokerChange(c) => var r :- ChangeFromWire(c); Ok(V1BrokerRegistrationChange(r))
    case KUnregisterBroker(id, epoch) => var node :- NodeFromWire(id); Ok(V1UnregisterBroker(node, epoch))
    case KUnregisterController(id) => var node :- NodeFromWire(id); Ok(V1UnregisterController(node))
    case KProducerIds(id, epoch, next) => var node :- NodeFromWire(id); Ok(V1ProducerIds(ProducerIdsRecord(node, epoch, next)))
    case KNoOp(fields) => FromPrivateCarrier(fields)
    case _ => Err(NoCounterpart)
  }

  function PlainFromKraft(k: KraftRecord): Result<Record, TranslateError>
  {
    match k
    case KFeatureLevel(name, level) => Ok(V1FeatureLevel(name, level))
    case KScram(user, mechanism, salt, storedKey, serverKey, iterations) =>
      var m :- MechanismFromWire(mechanism);
      if iterations < 0 then Err(InvalidValue)
      else Ok(V1ScramCredential(user, ScramCredential(m, salt, storedKey, serverKey, iterations)))
    case KRemoveScram(user, mechanism) => var m :- MechanismFromWire(mechanism); Ok(V1DeleteScramCredential(user, m))
    case KAcl(acl) => var e :- AclFromKraft(acl); Ok(V1AccessControlEntry(e))
    case KClientQuota(entity, key, value, remove) => Ok(V1ClientQuota(entity, key, if remove then None else Some(value)))
    case KDelegationToken(t) => Ok(V1DelegationToken(t))
    case KRemoveDelegationToken(id) => Ok(V1DeleteDelegationToken(id))
    case _ => NodeRecordFromKraft(k)
  }

  /** What an image-free record must keep to for the log to carry it. */
  predicate Carried(rec: Record)
  {
    match rec
    case V1BrokerRegistration(b) => b.nodeId <= I32_MAX && ListenersCarry(b)
    case V1ControllerRegistration(c) => c.nodeId <= I32_MAX
    case V1BrokerRegistrationChange(c) => c.nodeId <= I32_MAX
    case V1UnregisterBroker(node, _) => node <= I32_MAX
    case V1UnregisterController(node) => node <= I32_MAX
    case V1ProducerIds(r) => r.brokerId <= I32_MAX
    case V1ScramCredential(_, c) => IsScram(c.mechanism) && c.iterations <= I32_MAX
    case V1DeleteScramCredential(_, mechanism) => IsScram(mechanism)
    case V1Voters(_) => false
    case V1KRaftVersion(_) => false
    case _ => true
  }

  lemma RegistrationRoundTrip(rec: Record)
    requires rec.V1BrokerRegistration? || rec.V1ControllerRegistration? || rec.V1BrokerRegistrationChange?
    ensures var k := NodeRecordToKraft(rec);
            k.Ok? && NodeRecordFromKraft(k.value) == Ok(rec) <==> Carried(rec)
  {
    if rec.V1BrokerRegistration? { BrokerRoundTrip(rec.broker); }
    else if rec.V1ControllerRegistration? { ControllerRoundTrip(rec.controller); }
    else { ChangeRoundTrip(rec.change); }
  }

  lemma NodeRecordRoundTrip(rec: Record)
    requires || rec.V1BrokerRegistration? || rec.V1ControllerRegistration? || rec.V1BrokerRegistrationChange?
             || rec.V1UnregisterBroker? || rec.V1UnregisterController? || rec.V1ProducerIds?
    ensures var k := PlainToKraft(rec);
            k.Ok? && PlainFromKraft(k.value) == Ok(rec) <==> Carried(rec)
  {
    if rec.V1BrokerRegistration? || rec.V1ControllerRegistration? || rec.V1BrokerRegistrationChange? {
      RegistrationRoundTrip(rec);
    }
  }

  lemma CarrierRoundTrip(rec: Record)
    requires PrivateTag(rec).Some?
    ensures PlainToKraft(rec).Ok? && PlainFromKraft(PlainToKraft(rec).value) == Ok(rec) && Carried(rec)
  {
  }

  lemma OtherRoundTrip(rec: Record)
    requires || rec.V1ScramCredential? || rec.V1DeleteScramCredential? || rec.V1AccessControlEntry?
             || rec.V1ClientQuota? || rec.V1FeatureLevel? || rec.V1DelegationToken? || rec.V1DeleteDelegationToken?
    ensures var k := PlainToKraft(rec);
            k.Ok? && PlainFromKraft(k.value) == Ok(rec) <==> Carried(rec)
  {
    if rec.V1AccessControlEntry? { AclRoundTrip(rec.entry); }
  }

  /** An image-free record reads back as itself exactly when it is carried. */
  lemma PlainRoundTrip(rec: Record)
    requires IsPlain(rec)
    ensures PlainToKraft(rec).Ok? && PlainFromKraft(PlainToKraft(rec).value) == Ok(rec) <==> Carried(rec)
  {
    if PrivateTag(rec).Some? { CarrierRoundTrip(rec); }
    else if || rec.V1ScramCredential? || rec.V1DeleteScramCredential? || rec.V1AccessControlEntry?
            || rec.V1ClientQuota? || rec.V1FeatureLevel? || rec.V1DelegationToken? || rec.V1DeleteDelegationToken? {
      OtherRoundTrip(rec);
    } else if !rec.V1Voters? && !rec.V1KRaftVersion? {
      NodeRecordRoundTrip(rec);
    }
  }
}
