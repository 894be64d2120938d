/** `crates/metadata/src/image.rs`: what `validate` admits, told by what the record would do to
    the image, and what every admitted log keeps to. */
module ImageAdmission {
  import opened Base
  import opened Collections
  import opened MetadataRecords
  import opened Images
  import opened ImageInvariants
  import opened ImageSnapshot

  // ----- registrations -----

  /** An unregistration is admitted exactly when it would change the image: the broker is
      registered at its epoch, and is gone afterwards. */
  lemma UnregisterIsAdmittedIff(x: Image, node: NodeId, epoch: int)
    ensures var rec := V1UnregisterBroker(node, epoch);
            && (Validate(x, rec).None? <==> node in x.nodes.brokers && x.nodes.brokers[node].brokerEpoch == epoch)
            && (Validate(x, rec).None? <==> Apply(x, rec) != x)
            && (Validate(x, rec).None? ==> node in x.nodes.brokers && node !in Apply(x, rec).nodes.brokers)
            && (Validate(x, rec).Some? ==> Validate(x, rec) == Some(InvalidRecord))
  {
    ApplyInGroup(x, V1UnregisterBroker(node, epoch));
  }

  lemma UnregisterControllerIsAdmittedIff(x: Image, node: NodeId)
    ensures var rec := V1UnregisterController(node);
            && (Validate(x, rec).None? <==> node in x.nodes.controllers)
            && (Validate(x, rec).None? <==> Apply(x, rec) != x)
            && (Validate(x, rec).Some? ==> Validate(x, rec) == Some(InvalidRecord))
  {
    ApplyInGroup(x, V1UnregisterController(node));
    if node !in x.nodes.controllers { assert x.nodes.controllers - {node} == x.nodes.controllers; }
  }

  /** A registration change is admitted exactly at the epoch the broker is registered at; one
      that is refused would have changed nothing. */
  lemma ChangeIsAdmittedIff(x: Image, c: BrokerRegistrationChangeRecord)
    ensures var rec := V1BrokerRegistrationChange(c);
            && (Validate(x, rec).None? <==> c.nodeId in x.nodes.brokers && x.nodes.brokers[c.nodeId].brokerEpoch == c.brokerEpoch)
            && (Validate(x, rec).Some? ==> Validate(x, rec) == Some(InvalidRecord) && Apply(x, rec) == x)
  {
    ApplyInGroup(x, V1BrokerRegistrationChange(c));
  }

  // ----- producer ids -----

  /** A producer block is admitted exactly when it would raise the next producer id and its
      broker is registered at the epoch it names; a block that would not raise it would have
      changed nothing. */
  lemma ProducerBlockIsAdmittedIff(x: Image, ids: ProducerIdsRecord)
    ensures var rec := V1ProducerIds(ids);
            var before, after := NextProducerId(x.control), NextProducerId(Apply(x, rec).control);
            && (Validate(x, rec).None? <==>
                  after > before && ids.brokerId in x.nodes.brokers && x.nodes.brokers[ids.brokerId].brokerEpoch == ids.brokerEpoch)
            && (ids.nextProducerId > before <==> after > before)
            && (after > before ==> after == ids.nextProducerId)
            && (after <= before ==> Apply(x, rec) == x)
            && (Validate(x, rec).Some? ==> Validate(x, rec) == Some(InvalidRecord))
  {
    ApplyInGroup(x, V1ProducerIds(ids));
  }

  // ----- topics and partitions -----

  /** A new topic is admitted, and a known one only as an expansion: the same id and factor,
      and more partitions than are stored. */
  lemma TopicIsAdmittedIff(x: Image, t: TopicRecord)
    ensures Validate(x, V1Topic(t)).None? <==>
              (t.name in x.topics.topics ==>
                 && x.topics.topics[t.name].topicId == t.topicId
                 && x.topics.topics[t.name].replicationFactor == t.replicationFactor
                 && t.partitions > Min(|Inner(x.topics.partitions, t.name)|, I32_MAX))
    ensures Validate(x, V1Topic(t)).Some? ==> Validate(x, V1Topic(t)) == Some(TopicExists(t.name))
  {
  }

  /** The topic that a record needs to be live, if any. */
  function NeedsTopic(rec: Record): Option<Str>
  {
    match rec
    case V1Partition(p) => Some(p.topic)
    case V1PartitionUpdate(u) => Some(u.partition.topic)
    case V1DeleteTopic(name) => Some(name)
    case V1TopicConfig(resource, _) => Some(resource)
    case _ => None
  }

  /** A record that needs a live topic is admitted exactly when there is one, and one about
      the state beside a partition exactly when that is stored. */
  lemma NeedsAreMet(x: Image, rec: Record)
    ensures NeedsTopic(rec).Some? ==>
              Validate(x, rec) == if NeedsTopic(rec).value in x.topics.topics then None else Some(UnknownTopic(NeedsTopic(rec).value))
    ensures rec.V1PartitionElr? || rec.V1PartitionRecovery? ==>
              Validate(x, rec) == if InNest(x.topics.partitions, rec.topicName, rec.index) then None else Some(UnknownTopic(rec.topicName))
  {
  }

  // ----- freezes and proposals -----

  /** A proposal is admitted exactly when it is new, or keeps every stored approval of one that
      is neither consumed nor withdrawn. */
  lemma ProposalIsAdmittedIff(x: Image, p: BreakGlassProposalRecord)
    ensures var held := x.guard.breakGlass;
            Validate(x, V1BreakGlassProposal(p)) ==
            if p.proposalId !in held then None
            else if held[p.proposalId].consumedAtMs != 0 then Some(ProposalConsumed(p.proposalId))
            else if held[p.proposalId].withdrawn then Some(ProposalWithdrawn(p.proposalId))
            else if held[p.proposalId].approvals <= p.approvals then None
            else Some(ApprovalsNotAnExtension(p.proposalId))
  {
  }

  /** The records that are admitted whatever the image holds, and the one that looks at itself
      alone. */
  lemma OthersAreAdmitted(x: Image, rec: Record)
    requires NeedsTopic(rec).None? && !rec.V1Topic? && !rec.V1PartitionElr? && !rec.V1PartitionRecovery?
    requires !rec.V1BrokerRegistrationChange? && !rec.V1UnregisterBroker? && !rec.V1UnregisterController?
    requires !rec.V1ProducerIds? && !rec.V1BreakGlassProposal?
    ensures Validate(x, rec).None? <==> !(rec.V1TopicFreeze? && rec.freeze.scope == [])
  {
  }

  // ----- admitted logs -----

  /** Each record of an admitted log is admitted by the image it meets. */
  lemma {:induction false} AdmittedWhereItStands(x: Image, log: seq<Record>, i: nat)
    requires Validated(x, log) && i < |log|
    ensures Validate(Replay(x, log[..i]), log[i]).None?
    ensures Replay(x, log[..i + 1]) == Apply(Replay(x, log[..i]), log[i])
    decreases |log|
  {
    if i == 0 {
      assert log[..0] == [] && log[..1] == [log[0]] && [log[0]][1..] == [];
    } else {
      AdmittedWhereItStands(Apply(x, log[0]), log[1..], i - 1);
      assert log[..i][1..] == log[1..][..i - 1] && log[..i + 1][1..] == log[1..][..i];
    }
  }

  /** In an admitted log every unregistration removes a broker that was there, at its epoch. */
  lemma UnregistrationsRemove(x: Image, log: seq<Record>, i: nat)
    requires Validated(x, log) && i < |log| && log[i].V1UnregisterBroker?
    ensures var before, after := Replay(x, log[..i]).nodes.brokers, Replay(x, log[..i + 1]).nodes.brokers;
            && log[i].nodeId in before && before[log[i].nodeId].brokerEpoch == log[i].brokerEpoch
            && after == before - {log[i].nodeId}
  {
    AdmittedWhereItStands(x, log, i);
    UnregisterIsAdmittedIff(Replay(x, log[..i]), log[i].nodeId, log[i].brokerEpoch);
  }

  /** The next producer id only rises along a log, and strictly over an admitted block. */
  lemma {:induction false} ProducerIdsRise(x: Image, log: seq<Record>, i: nat, j: nat)
    requires Validated(x, log) && i <= j <= |log|
    ensures NextProducerId(Replay(x, log[..i]).control) <= NextProducerId(Replay(x, log[..j]).control)
    decreases j
  {
    if i < j {
      ProducerIdsRise(x, log, i, j - 1);
      AdmittedWhereItStands(x, log, j - 1);
      ApplyInGroup(Replay(x, log[..j - 1]), log[j - 1]);
    }
  }

  /** No two blocks of an admitted log overlap: a later one ends above an earlier one. */
  lemma BlocksDoNotOverlap(x: Image, log: seq<Record>, i: nat, j: nat)
    requires Validated(x, log) && i < j < |log| && log[i].V1ProducerIds? && log[j].V1ProducerIds?
    ensures log[i].producerIds.nextProducerId < log[j].producerIds.nextProducerId
    ensures log[i].producerIds.nextProducerId <= NextProducerId(Replay(x, log[..j]).control)
  {
    AdmittedWhereItStands(x, log, i);
    AdmittedWhereItStands(x, log, j);
    ProducerBlockIsAdmittedIff(Replay(x, log[..i]), log[i].producerIds);
    ProducerBlockIsAdmittedIff(Replay(x, log[..j]), log[j].producerIds);
    ProducerIdsRise(x, log, i + 1, j);
  }
}
