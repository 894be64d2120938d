/** `crates/metadata/src/records.rs`, `acl.rs`, `break_glass.rs` and
    `write_freeze.rs`: the records of the metadata log. UUIDs and node ids are
    naturals; principals, signatures, voters and quota floats are opaque values
    with equality. */
module MetadataRecords {
  import opened Base

  type Uuid = nat
  type NodeId = nat
  type Configs = map<Str, Str>

  /** `DirectoryId.MIGRATING`, the nil UUID. */
  const MIGRATING: Uuid := 0

  datatype TopicRecord = TopicRecord(name: Str, topicId: Uuid, partitions: int, replicationFactor: int)

  datatype PartitionRecord = PartitionRecord(
    topic: Str, partition: int, leader: NodeId, replicas: seq<NodeId>, isr: seq<NodeId>,
    leaderEpoch: int, addingReplicas: seq<NodeId>, removingReplicas: seq<NodeId>,
    directories: seq<Uuid>, partitionEpoch: int)

  datatype LeaderRecoveryState = Recovered | Recovering

  datatype PartitionUpdateRecord = PartitionUpdateRecord(
    partition: PartitionRecord, eligible: Option<seq<NodeId>>, lastKnown: Option<seq<NodeId>>,
    recovery: Option<LeaderRecoveryState>)

  datatype ListenerProtocol = Plaintext | Ssl | SaslPlaintext | SaslSsl

  datatype Endpoint = Endpoint(name: Str, host: Str, port: nat, protocol: ListenerProtocol)

  datatype BrokerRegistrationRecord = BrokerRegistrationRecord(
    nodeId: NodeId, brokerEpoch: int, incarnationId: Uuid, host: Str, port: nat, rack: Option<Str>,
    endpoints: seq<Endpoint>, logDirs: seq<Uuid>, fenced: bool, inControlledShutdown: bool,
    cordonedLogDirs: Option<seq<Uuid>>, features: map<Str, (int, int)>)

  datatype FencingChange = Unfence | NoFencingChange | Fence
  {
    function Apply(fenced: bool): bool
    {
      match this
      case Unfence => false
      case NoFencingChange => fenced
      case Fence => true
    }
  }

  datatype BrokerRegistrationChangeRecord = BrokerRegistrationChangeRecord(
    nodeId: NodeId, brokerEpoch: int, fenced: FencingChange, inControlledShutdown: bool,
    logDirs: seq<Uuid>, cordonedLogDirs: Option<seq<Uuid>>)
  {
    function AppliedTo(current: BrokerRegistrationRecord): BrokerRegistrationRecord
    {
      current.(fenced := fenced.Apply(current.fenced),
               inControlledShutdown := current.inControlledShutdown || inControlledShutdown,
               logDirs := if logDirs == [] then current.logDirs else logDirs,
               cordonedLogDirs := if cordonedLogDirs.Some? then cordonedLogDirs
                                  else current.cordonedLogDirs)
    }
  }

  datatype ControllerRegistrationRecord = ControllerRegistrationRecord(
    nodeId: NodeId, incarnationId: Uuid, zkMigrationReady: bool, endpoints: seq<Endpoint>,
    features: map<Str, (int, int)>)

  type EntityKey = seq<(Str, Option<Str>)>

  datatype ProducerIdsRecord = ProducerIdsRecord(brokerId: NodeId, brokerEpoch: int, nextProducerId: int)

  /** A mechanism is 1 or 2 for the two SCRAM ones, as on the wire, and any other number
      for a SASL mechanism that is not SCRAM. */
  datatype ScramCredential = ScramCredential(
    mechanism: nat, salt: Str, storedKey: Str, serverKey: Str, iterations: nat)

  datatype DelegationToken = DelegationToken(
    tokenId: Str, owner: Str, requester: Str, issueMs: int, expiryMs: int, maxMs: int, renewers: seq<Str>)

  datatype ResourceType = Topic | Group | Cluster | TransactionalId | DelegationTokenResource | User

  datatype PatternType = Literal | Prefixed

  datatype PermissionType = Allow | Deny

  datatype AclOperation =
    | All | Read | Write | CreateOp | DeleteOp | Alter | Describe | ClusterAction | DescribeConfigs
    | AlterConfigs | IdempotentWrite | TwoPhaseCommit | CreateTokens | DescribeTokens

  datatype AclEntry = AclEntry(
    resourceType: ResourceType, resourceName: Str, patternType: PatternType, principal: Str, host: Str,
    operation: AclOperation, permissionType: PermissionType)

  predicate Admits<T(==)>(axis: Option<T>, value: T)
  {
    axis.None? || axis.value == value
  }

  datatype AclEntryFilter = AclEntryFilter(
    resourceType: Option<ResourceType>, resourceName: Option<Str>, patternType: Option<PatternType>,
    principal: Option<Str>, host: Option<Str>, operation: Option<AclOperation>,
    permissionType: Option<PermissionType>)
  {
    predicate Matches(e: AclEntry)
    {
      && Admits(resourceType, e.resourceType)
      && Admits(resourceName, e.resourceName)
      && Admits(patternType, e.patternType)
      && Admits(principal, e.principal)
      && Admits(host, e.host)
      && Admits(operation, e.operation)
      && Admits(permissionType, e.permissionType)
    }
  }

  /** A filter pinned to one entry, with every axis set. */
  function ExactFilter(e: AclEntry): (f: AclEntryFilter)
    ensures forall e' :: f.Matches(e') <==> e' == e
  {
    AclEntryFilter(Some(e.resourceType), Some(e.resourceName), Some(e.patternType), Some(e.principal),
                   Some(e.host), Some(e.operation), Some(e.permissionType))
  }

  datatype TopicFreezeRecord = TopicFreezeRecord(
    scope: Str, patternType: PatternType, frozen: bool, reason: Str, setBy: Str, setAtMs: int,
    proposalId: Uuid, keyId: Str, signature: Str)

  datatype BreakGlassApproval = BreakGlassApproval(
    principal: Str, approvedAtMs: int, keyId: Str, signature: Str)

  datatype BreakGlassProposalRecord = BreakGlassProposalRecord(
    proposalId: Uuid, action: nat, target: Str, proposer: Str, reason: Str, createdAtMs: int,
    expiresAtMs: int, approvals: seq<BreakGlassApproval>, consumedAtMs: int, withdrawn: bool)

  datatype Record =
    | V1Topic(topic: TopicRecord)
    | V1Partition(partition: PartitionRecord)
    | V1BrokerRegistration(broker: BrokerRegistrationRecord)
    | V1DeleteTopic(name: Str)
    | V1TopicConfig(resource: Str, configs: Configs)
    | V1ScramCredential(user: Str, credential: ScramCredential)
    | V1DeleteScramCredential(user: Str, mechanism: nat)
    | V1AccessControlEntry(entry: AclEntry)
    | V1DeleteAccessControlEntry(filter: AclEntryFilter)
    | V1BrokerConfig(nodeId: NodeId, configName: Str, configValue: Option<Str>)
    | V1ClientQuota(entity: EntityKey, configName: Str, quota: Option<int>)
    | V1ProducerIds(producerIds: ProducerIdsRecord)
    | V1DelegationToken(token: DelegationToken)
    | V1DeleteDelegationToken(tokenId: Str)
    | V1UnregisterBroker(nodeId: NodeId, brokerEpoch: int)
    | V1KRaftVersion(kraftVersion: nat)
    | V1Voters(voters: seq<nat>)
    | V1FeatureLevel(name: Str, level: int)
    | V1ClientMetricsConfig(resource: Str, configs: Configs)
    | V1FeaturesEpoch(epoch: int)
    | V1PartitionDirAssignment(topicName: Str, index: int, replica: NodeId, directory: Uuid)
    | V1PartitionOffsetAdvance(topicName: Str, index: int, count: int)
    | V1GroupConfig(resource: Str, configs: Configs)
    | V1ControllerRegistration(controller: ControllerRegistrationRecord)
    | V1TopicFreeze(freeze: TopicFreezeRecord)
    | V1BreakGlassProposal(proposal: BreakGlassProposalRecord)
    | V1DeleteBreakGlassProposal(proposalId: Uuid)
    | V1PartitionElr(topicName: Str, index: int, eligible: seq<NodeId>, lastKnown: seq<NodeId>)
    | V1PartitionRecovery(topicName: Str, index: int, state: LeaderRecoveryState)
    | V1PartitionUpdate(update: PartitionUpdateRecord)
    | V1BrokerRegistrationChange(change: BrokerRegistrationChangeRecord)
    | V1UnregisterController(nodeId: NodeId)
}
