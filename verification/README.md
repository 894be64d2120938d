# Krabka: a verified model of the metadata log, the hybrid logical clock and the wire layers

Krabka is a Kafka-compatible broker. This project models six of its components and proves
what they promise, for every input, every run and every order in which a hash table may be
walked.

- **The metadata image** (`image*.dfy`, `metadata_records.dfy`). Every replica replays one
  committed log with `apply`; `validate` admits a record; `to_records` and `from_records`
  are snapshot and restore. The model is a value `Image` with a step `Apply`, and a class
  `MetadataImage` whose methods update fields in place and are proved equal to that step.
- **The hybrid logical clock** (`hlc_*.dfy`), after Kulkarni et al., OPODIS 2014, with a
  one-sided fence, machine integers, saturation and error exits. A network of clocks is a
  state machine in which reading physical time and entering the locked section are separate
  steps, because the code reads before it locks.
- **The KIP-631 translation** (`kraft_*.dfy`, `deliveries.dfy`). `to_kraft_records` and
  `from_kraft` are modelled for every record. For each kind the square "apply directly"
  against "encode, decode against the live image, apply" has the condition under which it
  closes, and a whole log sent record by record is compared with its replay.
- **The path hoister** (`hoist.dfy`). A file is the names it binds and the paths in it; the
  fixpoint loop, the rewriting and name resolution are modelled.
- **KafkaUuid parsing** (`kafka_uuid.dfy`), over all strings.
- **Framing and the wire tap** (`snappy.dfy`, `lz4.dfy`, `tap_*.dfy`). The two pumps of the
  tap are a state machine over all interleavings; the block codecs are parameters.

`base.dfy`, `collections.dfy`, `bytes.dfy` and `chunks.dfy` hold shared vocabulary. `dafny verify dfyconfig.toml` checks the
whole project.

## How to read the model

- A hash table is a `map`, and each walk of one is a sequence that enumerates its keys; a
  theorem about a walk holds for every such sequence.
- Rust strings are `string`; UTF-8 is spelled out where bytes matter (`Bytes.Utf8`).
- Integers are unbounded, and ranges, saturation, wrap-around and overflow are written out.
  Bitwise operations whose operands have no bit in common are additions.
- What a foreign library or the network does is a parameter with a stated hypothesis.

## Where the code and its documentation part

- `to_records` is documented to reproduce the image exactly. It does so exactly under the
  condition of `ImageEquivalence.RestoreIsExactIff`; empty config and quota tables
  (`ImageEquivalence.EmptyTableIsNotRestored`) and a derived `replication_factor` are what
  can differ while the topic ids are unique. `validate` reads that factor:
  `ImageEquivalence.ValidateSplitsOnlyOnFactor` says when two such images admit differently,
  and `ImageEquivalence.FactorSplitsAdmission` gives an admitted log and a record for which
  they do.
- `validate` does not compare topic ids. `ImageEquivalence.SharedIdDesynchronizes` gives an
  admitted log whose image no walk of the tables restores; `ImageInvariants.KeepsIdsExact`
  says that the id index stays exact if and only if the id is free, and
  `ImageEquivalence.SnapshotIsInvisibleIff` that snapshots are invisible if and only if the
  index is exact.
- An empty list of downgrade records is documented to mean a lossless downgrade, which holds
  (`ImageDowngrade.NoRecordsMeansLossless`). A second downgrade is silent if and only if no
  directory stands at the second listing of a repeated replica;
  `ImageDowngrade.RepeatedReplicaIsNotSilent` gives an admitted log where one does.
- The round trip of every modelled record is documented as the bar of the translation. A
  topic loses its replication factor (`KraftTopics.TopicMeansItself`), a partition delta
  steps the partition epoch (`KraftPartitions.ElrDeltaMeans` and its two siblings), a broker
  registration keeps its host and port only under `KraftRecords.BrokerRoundTrip`, and a
  record about a topic whose id another live topic shares can land on that other topic
  (`KraftPartitions.EveryWalkFinds`).
- The comment on removal by ACL id says that the entry is present when the removal decodes.
  Two entries that share an id can be removed for one another;
  `KraftAcls.DeleteFanOutIsFilter` gives the exact condition.
- A path the hoister leaves alone can be captured by a new import:
  `Hoist.ShortPathIsCaptured`.
- With `max_offset` at the largest `i64` the clock's fence refuses nothing:
  `HlcClocks.FenceIsTight`.
- A client that reuses a correlation id in flight makes the tap label a response with
  another request: `TapProtocol.ReuseMislabels`. Which request labels a response is exactly
  what `TapProtocol.CapturedUnderIff` says.

## Model

| member | source | states |
|---|---|---|
| `ImageEquivalence.SnapshotIsInvisible` | crates/metadata/src/image.rs:1130-1364 | For every admitted log prefix that leaves an exact id index, every walk order of its tables and every suffix, a replica restored from the snapshot and one that replayed everything agree on all but empty config/quota tables and the derived replication factor |
| `ImageEquivalence.SnapshotIsInvisibleIff` | crates/metadata/src/image.rs:1130-1364 | For every admitted log, no walk order and no later log tells the two replicas apart if and only if the id index the log leaves is the exact inverse of the topics |
| `ImageEquivalence.RestoreAgreesIff` | crates/metadata/src/image.rs:1130-1364 | Every walk of the tables restores an image that agrees with the original if and only if the original's id index is exact |
| `ImageEquivalence.ApplyRespects` | crates/metadata/src/image.rs:775-985 | No record can tell two agreeing images apart |
| `ImageEquivalence.ReplayRespects` | crates/metadata/src/image.rs:1358-1364 | No log can either |
| `ImageEquivalence.RestoreIsExactIff` | crates/metadata/src/image.rs:1130-1364 | Whatever order the topics are walked in, restore gives back the very image if and only if no config or quota table is empty, each factor is that of the topic's highest-numbered partition and the id index is exact |
| `ImageEquivalence.EmptyTableIsNotRestored` | crates/metadata/src/image.rs:1130-1364 | An admitted log that leaves an empty config table, which no walk restores |
| `ImageEquivalence.RestoreOfUniformIsExact` | crates/metadata/src/image.rs:1007-1021 | With one replica count per topic, equal to its factor, and no empty table, restore is exact for any walk order of partitions too |
| `ImageEquivalence.SecondSnapshotChangesNothing` | crates/metadata/src/image.rs:1130-1364 | With an exact id index, a snapshot of a restored image restores to the same image |
| `ImageEquivalence.ValidateSplitsOnlyOnFactor` | crates/metadata/src/image.rs:1375-1402 | Agreeing images give different verdicts exactly on a topic expansion that matches one of two derived factors |
| `ImageEquivalence.FactorSplitsAdmission` | crates/metadata/src/image.rs:1375-1402 | An admitted log and a topic expansion that the image admits and its restored copy refuses |
| `ImageEquivalence.SharedIdDesynchronizes` | crates/metadata/src/image.rs:1375-1402 | An admitted log with a shared topic id such that no walk of the tables restores an image that agrees |
| `ImageSnapshot.RestoreIs` | crates/metadata/src/image.rs:1130-1364 | What restore yields, field by field, for every reachable image and every walk order |
| `ImageSnapshot.ApplyInGroup` | crates/metadata/src/image.rs:775-985 | Each record changes one of six groups of fields and leaves the other five alone |
| `ImageInvariants.AnyLog` | crates/metadata/src/image.rs:775-1105 | On any log: index entries name live topics with that id, partitions sit under their own key, no doubly empty ELR entry, `Recovered` entry or empty group is stored, each freeze is frozen and in the registry its pattern selects |
| `ImageInvariants.KeepsCountsExact` | crates/metadata/src/image.rs:1007-1021 | On admitted records the cached partition count is the number of stored partitions, and only live topics have partitions |
| `ImageInvariants.KeepsIdsExact` | crates/metadata/src/image.rs:777-797 | The id index stays the exact inverse of the topics if and only if the record's topic id is free |
| `ImageInvariants.ValidatedLog` | crates/metadata/src/image.rs:1373-1555 | After every admitted log the any-log invariants hold, the cached counts are exact and the features epoch fits the feature levels |
| `ImageInvariants.FreeIdsStayExact` | crates/metadata/src/image.rs:777-797 | A log whose every topic record takes a free id keeps the id index exact |
| `ImageInvariants.ValidatedLogLeavesNoOrphans` | crates/metadata/src/image.rs:812-822 | After every admitted log, ELR and recovery entries belong to stored partitions and topic configs to live topics |
| `ImageInvariants.ProducerIdsNeverFallBack` | crates/metadata/src/image.rs:879-889 | On any log the next producer id never falls |
| `ImageInvariants.CanonicalIdempotent` | crates/metadata/src/image.rs:95-98 | Canonicalizing a quota entity twice is canonicalizing it once, so a replayed record reaches the same key |
| `ImageInvariants.CanonicalSorts` | crates/metadata/src/image.rs:95-98 | The canonical entity is sorted by entity type and a permutation of the entity |
| `ImageInvariants.CanonicalIsStable` | crates/metadata/src/image.rs:95-98 | Parts of one type keep their order |
| `ImageReaders.BrokerConfigSeen` | crates/metadata/src/image.rs:851-861 | After any record, one key of one broker reads what a broker config record for that key writes or removes, and every other key of every broker reads as before |
| `ImageReaders.QuotaSeen` | crates/metadata/src/image.rs:862-878 | The same for one key of one quota entity, under the canonical entity |
| `ImageReaders.BrokerConfigLastWriter` | crates/metadata/src/image.rs:851-861 | After any log, a key reads what the last record about it wrote |
| `ImageReaders.QuotaLastWriter` | crates/metadata/src/image.rs:862-878 | After any log, a quota reads what the last record about it wrote, however the parts of its entity were ordered |
| `ImageReaders.TopicConfigSeen` | crates/metadata/src/image.rs:823-830 | A whole map decides every key of its topic, and a delete of the topic clears them |
| `ImageReaders.TopicConfigLastWriter` | crates/metadata/src/image.rs:823-830 | After any log, a topic's key reads as in the last whole map since the topic was deleted |
| `ImageReaders.TopicSeen` | crates/metadata/src/image.rs:777-797 | What each record does to the entry of one topic: id, factor and count |
| `ImageReaders.TopicIdSeen` | crates/metadata/src/image.rs:777-797 | What each record does to one entry of the id index |
| `ImageReaders.PartitionSeen` | crates/metadata/src/image.rs:1007-1039 | What each record does to one stored partition |
| `ImageReaders.DirectorySeen` | crates/metadata/src/image.rs:942-958 | An assignment names the directory of the first listing of the replica and of nothing else, a short list being filled up first |
| `ImageReaders.ElrSeen` | crates/metadata/src/image.rs:1041-1061 | What each record does to the eligible replicas of one partition; a doubly empty pair removes them |
| `ImageReaders.RecoverySeen` | crates/metadata/src/image.rs:1063-1088 | What each record does to the recovery state of one partition |
| `ImageReaders.AdvancesAddUp` | crates/metadata/src/image.rs:960-967 | Over any log that does not delete the topic an offset moves by the sum of its advances, modulo 2^64 |
| `ImageReaders.DeletedTopicIsGone` | crates/metadata/src/image.rs:812-822 | Nothing about a deleted topic is left to read |
| `ImageReaders.BrokerSeen` | crates/metadata/src/image.rs:799-805 | What each record does to one registration: a fence fences, an unfence unfences, a controlled shutdown sticks, named directories replace, all at the registered epoch only |
| `ImageReaders.ControllerSeen` | crates/metadata/src/image.rs:806-811 | What each record does to one controller registration |
| `ImageReaders.ScramSeen` | crates/metadata/src/image.rs:831-846 | What each record does to one credential |
| `ImageReaders.TokenSeen` | crates/metadata/src/image.rs:893-899 | What each record does to one token |
| `ImageReaders.AclSeen` | crates/metadata/src/acl.rs:93-110 | A delete takes out the entries that fit its filter on every axis, an open axis fitting everything, and no other |
| `ImageReaders.AclHeldIff` | crates/metadata/src/image.rs:847-850 | After any log an entry is held if and only if it was put in and no later delete fits it |
| `ImageReaders.FreezeSeen` | crates/metadata/src/image.rs:1090-1105 | What each record does to one freeze scope of one registry |
| `ImageReaders.ProposalSeen` | crates/metadata/src/image.rs:978-983 | What each record does to one proposal |
| `ImageReaders.FeatureSeen` | crates/metadata/src/image.rs:906-914 | What each record does to one feature level; level zero removes it |
| `ImageReaders.ControlSeen` | crates/metadata/src/image.rs:879-938 | What each record does to the quorum, the features epoch and the producer ids |
| `ImageAdmission.UnregisterIsAdmittedIff` | crates/metadata/src/image.rs:1452-1459 | An unregistration is admitted if and only if the broker is registered at its epoch, which is if and only if it would change the image; the broker is then gone |
| `ImageAdmission.UnregisterControllerIsAdmittedIff` | crates/metadata/src/image.rs:1460-1467 | The same for a controller, without an epoch |
| `ImageAdmission.ChangeIsAdmittedIff` | crates/metadata/src/image.rs:1444-1451 | A registration change is admitted if and only if the broker is registered at its epoch; a refused one would have changed nothing |
| `ImageAdmission.ProducerBlockIsAdmittedIff` | crates/metadata/src/image.rs:1553-1566 | A producer block is admitted if and only if it raises the next producer id and its broker is registered at its epoch; one that would not raise it would have changed nothing |
| `ImageAdmission.TopicIsAdmittedIff` | crates/metadata/src/image.rs:1375-1402 | A topic is admitted if and only if it is new or an expansion with the same id and factor |
| `ImageAdmission.NeedsAreMet` | crates/metadata/src/image.rs:1403-1438 | A record about a topic or a partition is admitted if and only if that is there |
| `ImageAdmission.ProposalIsAdmittedIff` | crates/metadata/src/image.rs:1532-1552 | The verdict on a proposal, with its errors in order |
| `ImageAdmission.OthersAreAdmitted` | crates/metadata/src/image.rs:1468-1524 | Every other record is admitted, but for a freeze without a scope |
| `ImageAdmission.UnregistrationsRemove` | crates/metadata/src/image.rs:1452-1459 | In every admitted log each unregistration removes a broker that was there at its epoch, and no other |
| `ImageAdmission.BlocksDoNotOverlap` | crates/metadata/src/image.rs:1553-1566 | In every admitted log the producer blocks strictly rise |
| `ImageStore.MetadataImage.constructor` | crates/metadata/src/image.rs:208-240 | A new image is the empty one |
| `ImageStore.MetadataImage.RegisterTopic` | crates/metadata/src/image.rs:777-797 | The in-place topic step is the step on values |
| `ImageStore.MetadataImage.DeleteTopic` | crates/metadata/src/image.rs:812-822 | The in-place cascade of a topic delete is the step on values |
| `ImageStore.MetadataImage.StorePartition` | crates/metadata/src/image.rs:1007-1021 | The in-place partition step, count and factor included, is the step on values |
| `ImageStore.MetadataImage.UpdatePartition` | crates/metadata/src/image.rs:1023-1039 | The in-place update, with both ELR lists or neither, is the step on values |
| `ImageStore.MetadataImage.StoreElr` | crates/metadata/src/image.rs:1041-1061 | The in-place ELR step is the step on values |
| `ImageStore.MetadataImage.StoreRecovery` | crates/metadata/src/image.rs:1063-1088 | The in-place recovery step is the step on values |
| `ImageStore.MetadataImage.Freeze` | crates/metadata/src/image.rs:1090-1105 | The in-place freeze step is the step on values |
| `ImageStore.MetadataImage.Apply` | crates/metadata/src/image.rs:775-985 | Applying a record in place changes the image as `Images.Apply` says, for every record |
| `ImageStore.MetadataImage.ApplyAll` | crates/metadata/src/image.rs:1358-1364 | Applying a sequence in place is the replay |
| `ImageStore.MetadataImage.WriteRecords` | crates/metadata/src/image.rs:1130-1351 | The push loops emit exactly the snapshot of some walk of the tables, partitions ascending within each topic |
| `ImageStore.MetadataImage.FromRecords` | crates/metadata/src/image.rs:1353-1364 | A new object that applies the records in order holds their replay |
| `ImageStore.Rebuild` | crates/metadata/src/image.rs:1130-1364 | An object built from another one's records agrees with it whenever the id index is exact, and then equals it if and only if no config or quota table is empty and each factor is that of the topic's last partition |
| `ImageGuard.TopicFreeze` | crates/metadata/src/image.rs:529-548 | The downward walk returns the literal entry, else the entry of the longest prefix scope, else nothing, and nothing for an internal topic |
| `ImageGuard.FreezeIsUnique` | crates/metadata/src/image.rs:529-548 | That specification has one answer |
| `ImageGuard.HigherPrefixIsLonger` | crates/metadata/src/image.rs:529-548 | Among the prefixes of one string, the one that sorts higher is longer |
| `ImageGuard.ProposalEvolves` | crates/metadata/src/image.rs:1532-1552 | Over any run of submissions between creation and deletion, approvals are only appended and a consumed or withdrawn proposal never changes |
| `ImageGuard.ConcurrentApprovals` | crates/metadata/src/image.rs:1532-1552 | Once one approval list is accepted, another is accepted later only if it extends it |
| `ImageGuard.RivalApprovalIsRefused` | crates/metadata/src/image.rs:1532-1552 | Two different entries appended to the same stored list cannot both be accepted |
| `ImageDowngrade.DowngradeIs` | crates/metadata/src/image.rs:686-766 | Applying the emitted records yields exactly the projected image; state not gated above the target is unchanged |
| `ImageDowngrade.DowngradeIsSound` | crates/metadata/src/image.rs:664-766 | After the records the required floor is at most the target |
| `ImageDowngrade.FloorIsExact` | crates/metadata/src/image.rs:664-679 | The floor is at most a level if and only if no credential, token or entry for a block of hosts is gated above it, which is if and only if the projection keeps them all |
| `ImageDowngrade.FloorIsWhereLossBegins` | crates/metadata/src/image.rs:664-766 | The records leave the gated state alone if and only if the target is at or above the floor |
| `ImageDowngrade.WhatSurvives` | crates/metadata/src/image.rs:686-733 | Which credentials, tokens and entries a reader finds after the records |
| `ImageDowngrade.WhichDirectoriesSurvive` | crates/metadata/src/image.rs:734-766 | Which log directories of each broker are left, and that nothing else about brokers, configs, guards and control changes |
| `ImageDowngrade.WhichSlotsSurvive` | crates/metadata/src/image.rs:744-766 | Which directory slots of each partition are left |
| `ImageDowngrade.SecondDowngradeIsSilent` | crates/metadata/src/image.rs:686-766 | Below the directory level, a second call emits nothing if and only if no directory stands at a repeated replica's later listing |
| `ImageDowngrade.SecondDowngradeIsSilentAbove` | crates/metadata/src/image.rs:686-766 | At or above that level a second call emits nothing |
| `ImageDowngrade.DistinctReplicasSuffice` | crates/metadata/src/image.rs:744-766 | Distinct replicas imply that condition |
| `ImageDowngrade.RepeatedReplicaIsNotSilent` | crates/metadata/src/image.rs:744-766 | An admitted log after which every second downgrade below the directory level emits records |
| `ImageDowngrade.NoRecordsMeansLossless` | crates/metadata/src/image.rs:681-686 | No records means that the projection is the image and that the image fits the target |
| `ImageDowngrade.ClearedNamesNothing` | crates/metadata/src/image.rs:744-766 | Which directories are left in one partition after its removal records |
| `HlcStamp.DecodeEncode` | crates/hlc/src/stamp.rs:92-132 | Every stamp that encodes decodes to itself |
| `HlcStamp.EncodeDecode` | crates/hlc/src/stamp.rs:92-132 | Every 16 bytes are the encoding of what they decode to |
| `HlcStamp.Encode` | crates/hlc/src/stamp.rs:92-102 | Encoding fails exactly for a node id above the largest `u32`, and yields 16 bytes |
| `HlcStamp.Decode` | crates/hlc/src/stamp.rs:119-132 | Decoding succeeds exactly on 16 bytes |
| `HlcStamp.EncodeLayout` | crates/hlc/src/stamp.rs:92-102 | Which bytes hold the wall time, the counter and the node id, in big-endian order |
| `HlcStamp.StampCarriage` | crates/hlc/src/headers.rs:26-37 | A stamp put on a record is the one extracted, whatever headers stand before it and whatever other keys after |
| `HlcClocks.NowAdvances` | crates/hlc/src/clock.rs:253-266 | A minted stamp is above all the clock held; an overflow leaves the clock alone |
| `HlcClocks.ObserveAdvances` | crates/hlc/src/clock.rs:298-344 | A merged stamp is above the clock and the peer; a refused or overflowing call moves neither wall nor counter |
| `HlcClocks.RefusedIff` | crates/hlc/src/clock.rs:298-320 | A peer is refused if and only if its wall time is further ahead of the reading than the offset, and the offset is below the largest `i64`; the refusal names the saturated delta and is counted |
| `HlcClocks.NowMintsTheLeast` | crates/hlc/src/clock.rs:253-266 | A send mints the least stamp above the clock at the reading or later, and fails exactly when the counter is exhausted there |
| `HlcClocks.ObserveMintsTheLeast` | crates/hlc/src/clock.rs:321-344 | An accepted receive mints the least stamp above the clock and the peer at the reading or later, at the latest of the three wall times, and fails exactly when a counter is exhausted there |
| `HlcClocks.FreshRefusesIff` | crates/hlc/src/clock.rs:211-225 | A fresh clock refuses exactly the peers further ahead than its offset, or than zero if that is negative |
| `HlcClocks.ObserveFenced` | crates/hlc/src/clock.rs:298-344 | Every call lifts the wall to at most the reading plus the offset and records the saturated delta |
| `HlcClocks.FenceIsTight` | crates/hlc/src/clock.rs:298-320 | The fence bounds accepted peers if and only if the offset is below the largest `i64` |
| `HlcClocks.HlcClock.constructor` | crates/hlc/src/clock.rs:211-225 | A fresh clock starts at its reading with a clamped offset |
| `HlcClocks.HlcClock.Now` | crates/hlc/src/clock.rs:253-266 | The in-place call is the step on values |
| `HlcClocks.HlcClock.Observe` | crates/hlc/src/clock.rs:298-344 | The in-place call is the step on values |
| `HlcNetwork.Causality` | crates/hlc/src/clock.rs:253-344 | In any interleaved run of any number of clocks, with any physical clocks and foreign stamps, happens-before implies stamp order |
| `HlcNetwork.StampsAreUnique` | crates/hlc/src/stamp.rs:55-66 | No two events of a run share a stamp |
| `HlcNetwork.WallTimeIsAReading` | crates/hlc/src/clock.rs:211-343 | In a closed network every wall time is a physical reading made at the event or in its causal past |
| `HlcNetwork.CounterIsPaidFor` | crates/hlc/src/clock.rs:325-373 | In a closed network a counter of k stands at the end of a chain of k direct predecessors with the same wall time |
| `HlcNetwork.FenceBound` | crates/hlc/src/clock.rs:298-344 | Over every run a clock leads its own largest reading by at most the offset, and its reported skew is the maximum over all deltas seen |
| `HlcNetwork.CountersCount` | crates/hlc/src/clock.rs:298-344 | Over every run the two counters are the numbers of the receives they count, up to the largest `u64`, and no refused receive mints a stamp |
| `HlcNetwork.MaxDeltaIsMax` | crates/hlc/src/clock.rs:298-320 | The reported skew is zero or one of the deltas, and at least each of them |
| `HlcNetwork.RunKeeps` | crates/hlc/src/clock.rs:211-344 | The network invariant holds in every state of every run |
| `KraftConfigs.FanOutMeansReplace` | crates/metadata/src/kraft_translate.rs:548-636 | Sent key by key in any order, decoded against the live image and applied, a whole-map replacement leaves exactly the image of the direct replacement, for topic, group and client-metrics resources, if and only if it is not the clearing of a resource stored empty, which no log stores |
| `KraftConfigs.ConfigToKraft` | crates/metadata/src/kraft_translate.rs:548-636 | The emitted sets and tombstones cover each key of the old and new maps once |
| `KraftConfigs.DecodeKey` | crates/metadata/src/kraft_translate.rs:1938-2024 | Decoding one key against the live image and applying it leaves the image with that key merged into the map it held |
| `KraftConfigs.BrokerConfigRoundTrip` | crates/metadata/src/kraft_translate.rs:1938-1961 | A broker config survives the log, the cluster-wide default included |
| `KraftConfigs.ParsePrint` | crates/metadata/src/kraft_translate.rs:1938-1961 | Every `u64` node id survives its decimal resource name |
| `KraftPartitions.UpdateMeansItsDiff` | crates/metadata/src/kraft_translate.rs:1258-1323 | On each walk of the topics, encoding an update as a diff, decoding and applying it equals applying it directly if and only if the walk leads the topic's id back to the topic, the partition is known, node ids fit, the partition epoch steps by one, the leader epoch steps by one exactly on a leader change, and changed directories are one per replica |
| `KraftPartitions.SentUpdate` | crates/metadata/src/kraft_translate.rs:1739-1847 | What the decoded diff means in every case in which the id leads back to the topic, failures included |
| `KraftPartitions.LandsElsewhere` | crates/metadata/src/kraft_translate.rs:1739-1847 | Where the id leads to another topic, the change fails or steps that topic's partition, so it never means what it meant directly |
| `KraftPartitions.PartitionUpdateToKraft` | crates/metadata/src/kraft_translate.rs:1258-1323 | Editing the change field by field gives the diff against the stored partition |
| `KraftPartitions.PartitionChangeFromKraft` | crates/metadata/src/kraft_translate.rs:1739-1847 | Editing the stored partition field by field gives the decoded record, with the same errors |
| `KraftPartitions.InvalidValueIsFinal` | crates/metadata/src/kraft_translate.rs:127-139 | A change is called invalid only if no image whatever accepts it |
| `KraftPartitions.DirectoryDeltaMeans` | crates/metadata/src/kraft_translate.rs:1177-1219 | A directory assignment sent through the log is the assignment plus an epoch step, if and only if the id leads back to the topic, the partition is known, the replica is listed, no stored directory is cut off, and the epoch can step |
| `KraftPartitions.ElrDeltaMeans` | crates/metadata/src/kraft_translate.rs:1221-1256 | An ELR delta sent through the log is the delta plus an epoch step, if and only if the id leads back to the topic, the partition is known, the ids fit and the epoch can step |
| `KraftPartitions.RecoveryDeltaMeans` | crates/metadata/src/kraft_translate.rs:1221-1256 | A recovery delta sent through the log is the delta plus an epoch step, if and only if the id leads back to the topic, the partition is known and the epoch can step |
| `KraftPartitions.EveryWalkFinds` | crates/metadata/src/kraft_translate.rs:2033-2038 | Every walk order leads a topic's id back to the topic if and only if no other live topic has the id |
| `KraftPartitions.LiveTopicIsFound` | crates/metadata/src/kraft_translate.rs:2033-2038 | With an exact id index the id of a live topic finds that topic in every walk order |
| `KraftPartitions.PartitionCodes` | crates/metadata/src/kraft_translate.rs:1849-1864 | The codes of leaders and recovery states |
| `KraftTopics.TopicMeansItself` | crates/metadata/src/kraft_translate.rs:1659-1676 | A topic sent through the log always agrees with the topic applied directly, and equals it if and only if its factor is the one derived from the lowest partition, or one |
| `KraftTopics.NewTopicLosesItsFactor` | crates/metadata/src/kraft_translate.rs:1659-1676 | A topic without partitions is stored with factor one, whatever its record said |
| `KraftTopics.DerivedFactorIs` | crates/metadata/src/kraft_translate.rs:1659-1676 | The derived factor is the replica count of the partition with the lowest index, if that fits an `i16`, and else one |
| `KraftTopics.PartitionRoundTrip` | crates/metadata/src/kraft_translate.rs:1678-1737 | A partition record reads back as itself with the image's ELR and recovery state, if and only if the id leads back to the topic and every node it or that state names fits |
| `KraftTopics.SidecarsStay` | crates/metadata/src/kraft_translate.rs:1135-1175 | With the image's own ELR and recovery state beside it, the record means what it meant alone |
| `KraftRecords.BrokerRoundTrip` | crates/metadata/src/kraft_translate.rs:1502-1553 | A broker registration reads back as itself if and only if its id fits and its listeners carry its host and port |
| `KraftRecords.AclRoundTrip` | crates/metadata/src/kraft_translate.rs:1430-1440 | Every access control entry reads back as itself |
| `KraftRecords.RecordCodes` | crates/metadata/src/kraft_translate.rs:378-402 | The codes of protocols, fencing changes and flags, and that nothing else is read |
| `KraftRecords.PrivateTags` | crates/metadata/src/kraft_translate.rs:905-954 | The tag of each private record; 1002 is no tag |
| `KraftRecords.CarrierAcceptsExactly` | crates/metadata/src/kraft_translate.rs:965-1034 | The private carrier accepts exactly what it writes |
| `KraftRecords.PlainRoundTrip` | crates/metadata/src/kraft_translate.rs:1376-1487 | Each record whose translation does not look at the image reads back as itself if and only if it is carried: its node id fits, its SCRAM mechanism and iterations do, its listeners carry its address, and it is not a raft control record |
| `KraftLog.ChangeMeansIff` | crates/metadata/src/kraft_translate.rs:702-874 | A partition change means itself on every walk of the topics if and only if its topic has an id of its own and the image holds what the change refers to |
| `KraftLog.RecordCarries` | crates/metadata/src/kraft_translate.rs:422-435 | For every record that meets its condition, every encoding order and every scan order of every decode, the record is encoded, decoded and applied to an image that agrees with what it means |
| `KraftLog.SentLogArrives` | crates/metadata/src/kraft_translate.rs:527-545 | For every log whose records meet their conditions, sent from any image that agrees, the whole log arrives as what its records mean, in every order of every walk |
| `KraftReplay.SentLogIsReplayed` | crates/metadata/src/kraft_translate.rs:527-545 | From the first record of a cluster on, such a log leads every replica to an image that agrees with its direct replay up to the partition epochs |
| `KraftReplay.SentLogWithoutDeltas` | crates/metadata/src/kraft_translate.rs:527-545 | And up to agreement alone when the log holds no partition delta |
| `KraftReplay.MeaningIsReplay` | crates/metadata/src/image.rs:775-985 | What the records of a log mean is its replay up to the partition epochs, because no step reads one |
| `Deliveries.LogArrives` | crates/metadata/src/kraft_translate.rs:527-545 | Over any link that delivers each sendable record as what it means, every log of such records arrives as what they mean |
| `KraftAcls.CanonicalInjective` | crates/metadata/src/kraft_translate.rs:325-339 | Distinct entries have distinct canonical bytes |
| `KraftAcls.AclCodes` | crates/metadata/src/kraft_translate.rs:210-310 | The codes of the four enumerated axes, and that nothing else is read |
| `KraftAcls.Fnv1a128` | crates/metadata/src/kraft_translate.rs:344-359 | The loop computes the two hash lanes |
| `KraftAcls.HashOfA` | crates/metadata/src/kraft_translate.rs:344-359 | The first lane of the one-byte text `a` is its published FNV-1a hash |
| `KraftAcls.OperationsNeverCollide` | crates/metadata/src/kraft_translate.rs:325-359 | Entries that differ only in the operation never share an id |
| `KraftAcls.OnePlaceNeverCollides` | crates/metadata/src/kraft_translate.rs:344-359 | A byte-by-byte hash whose steps can be undone separates inputs that differ in one place |
| `KraftAcls.DeleteFanOutIsFilter` | crates/metadata/src/kraft_translate.rs:638-652 | For every order of removals and every order of each rescan, the removals decode and leave exactly what the filter does not match, if and only if no matched entry shares its id with an unmatched one |
| `KraftAcls.DeleteWithoutCollisions` | crates/metadata/src/kraft_translate.rs:1468-1481 | So it is when the hash separates the image's entries |
| `Hoist.ChooseLevels` | crates/protocol-codegen/src/hoist.rs:441-470 | The loop ends, with the settled levels |
| `Hoist.Pass` | crates/protocol-codegen/src/hoist.rs:446-468 | One pass over the level map, against the claims of its start, moves exactly the clashing paths |
| `Hoist.ChosenSettle` | crates/protocol-codegen/src/hoist.rs:433-470 | The chosen levels clash with nothing and lie between one and the deepest level |
| `Hoist.ChosenIff` | crates/protocol-codegen/src/hoist.rs:433-470 | The chosen levels are exactly those at the end of passes from the deepest levels, in each of which a clashing path goes up one level, or out from the first, and no other path moves |
| `Hoist.NoPathMovesWithoutNeed` | crates/protocol-codegen/src/hoist.rs:446-468 | A path ends at or below every level that neither the file nor any level of another path stands against |
| `Hoist.LeftOutOnlyAtTheTop` | crates/protocol-codegen/src/hoist.rs:458-462 | A path is left out only if something stands against it at its first level |
| `Hoist.ClashingPathsMoveUp` | crates/protocol-codegen/src/hoist.rs:458-462 | Two paths that clash at their type both move up to their modules |
| `Hoist.SettledNamesAgree` | crates/protocol-codegen/src/hoist.rs:473-517 | Each imported name is bound to one path |
| `Hoist.NewNamesAreFresh` | crates/protocol-codegen/src/hoist.rs:496-517 | A new import binds a name that is no item and no import of the file and no prelude name, to a path of two segments or more; a local variable may share it |
| `Hoist.RewrittenResolves` | crates/protocol-codegen/src/hoist.rs:388-398 | A rewritten path resolves to its original full path, up to the std facade it was written with when it goes through the prelude |
| `Hoist.UnrewrittenResolves` | crates/protocol-codegen/src/hoist.rs:80-112 | A path left alone keeps its meaning if and only if no new import captures its first segment |
| `Hoist.HoistingPreservesResolution` | crates/protocol-codegen/src/hoist.rs:80-112 | Every path of the file names what it named before, if and only if the file binds the root of no shortened path to something else and no path left alone opens with a newly imported name |
| `Hoist.HarmlessIsKept` | crates/protocol-codegen/src/hoist.rs:80-112 | A condition on the file alone: if every root stands and no path opens with a name that a collected path holds between the root and its deepest level, every path keeps its meaning |
| `Hoist.OpenedByUnrivalled` | crates/protocol-codegen/src/hoist.rs:433-470 | Its converse: a path that cannot be hoisted and opens with the deepest name of a collected path that nothing stands against changes its meaning |
| `Hoist.UnrivalledFileIff` | crates/protocol-codegen/src/hoist.rs:80-112 | Where no collected path has a rival, the condition on the file alone is exact |
| `Hoist.UnrivalledIsImported` | crates/protocol-codegen/src/hoist.rs:433-470 | A path that nothing stands against is imported at its deepest level |
| `Hoist.DeepestLevel` | crates/protocol-codegen/src/hoist.rs:404-411 | No capitalised segment lies between the root and the deepest level |
| `Hoist.HoistableIff` | crates/protocol-codegen/src/hoist.rs:293-298 | A path can be hoisted if and only if it starts at a crate root and has three segments or more, the second of which is no type |
| `Hoist.RootedIff` | crates/protocol-codegen/src/hoist.rs:158-172 | A path that begins in lower case starts at a crate root if and only if the file binds its first name to nothing |
| `Hoist.PreludeIff` | crates/protocol-codegen/src/hoist.rs:422-431 | A path below a std root is a prelude path if and only if its last name alone names the same item |
| `Hoist.ShortPathIsCaptured` | crates/protocol-codegen/src/hoist.rs:80-112 | A file in which a short path is captured |
| `KafkaUuids.JavaUrlDecode` | crates/ids/src/kafka_uuid.rs:388-435 | The bit-shifting loop decodes the data, its padding and nothing after it, with the JDK's errors |
| `KafkaUuids.WhyRefused` | crates/ids/src/kafka_uuid.rs:388-435 | Which inputs get which error |
| `KafkaUuids.AcceptsExactly` | crates/ids/src/kafka_uuid.rs:207-225 | Over all strings, parsing accepts exactly 22 alphabet characters, with or without `==` |
| `KafkaUuids.ValueIsPlace` | crates/ids/src/kafka_uuid.rs:369-386 | A character stands for its place in the URL-safe alphabet of RFC 4648 |
| `KafkaUuids.SpreadKeepsTheNumber` | crates/ids/src/kafka_uuid.rs:199-203 | Four characters and the three octets they stand for are one number |
| `KafkaUuids.ParsePrint` | crates/ids/src/kafka_uuid.rs:199-225 | Every id survives printing and parsing, padded or not |
| `KafkaUuids.SameIdIff` | crates/ids/src/kafka_uuid.rs:361-435 | Two accepted strings name one id if and only if their first 21 characters and the top two bits of the 22nd agree |
| `KafkaUuids.PackSpread` | crates/ids/src/kafka_uuid.rs:199-203 | Octets survive the alphabet for any length |
| `TapFrames.Pending.Record` | crates/kafka-tap/src/frame.rs:44-47 | The pending map after a request |
| `TapFrames.Pending.Take` | crates/kafka-tap/src/frame.rs:48-52 | What a response finds, and the map after it |
| `TapFrames.RequestLayout` | crates/kafka-tap/src/frame.rs:19-28 | Which bytes of a request are its key, its version and its correlation id, whatever follows |
| `TapFrames.ResponseLayout` | crates/kafka-tap/src/frame.rs:33-35 | Which bytes of a response are its correlation id |
| `TapPump.Pump` | crates/kafka-tap/src/lib.rs:79-133 | One direction writes on, byte for byte, the complete frames its stream starts with, and tells the recorder and the pending map of each in order |
| `TapPump.WholeFramesPass` | crates/kafka-tap/src/lib.rs:79-133 | Whole frames pass unchanged and are seen one by one |
| `TapPump.TeePairs` | crates/kafka-tap/src/lib.rs:100-128 | A request and then a response with its id are captured under one label, the response once, and no other id is touched |
| `TapProtocol.RelaysInOrder` | crates/kafka-tap/src/lib.rs:79-133 | In every interleaving, whatever the client and the upstream send, each direction writes on exactly the frames it read, in order |
| `TapProtocol.CapturesAreFrames` | crates/kafka-tap/src/lib.rs:100-128 | In every interleaving each captured frame is a frame that was read: a request under its own label, a response under that of the request whose entry it took |
| `TapProtocol.RequestsAreCaptured` | crates/kafka-tap/src/lib.rs:100-128 | In every interleaving each request written on whose header can be read was captured once, under its own key and version |
| `TapProtocol.ResponsesAreCapturedIff` | crates/kafka-tap/src/frame.rs:44-52 | In every interleaving a response written on was captured if and only if some request was marked under its id with no mark or take of that id between the two |
| `TapProtocol.CapturedUnderIff` | crates/kafka-tap/src/frame.rs:44-52 | In every interleaving a response was captured under a label if and only if the last request marked under its id, with nothing taken since, has that label |
| `TapProtocol.HolderIff` | crates/kafka-tap/src/frame.rs:44-52 | A request holds an id if and only if it was marked under it and nothing was marked or taken under it since |
| `TapProtocol.ResponsesFollowTheirRequests` | crates/kafka-tap/src/lib.rs:67-133 | In every interleaving in which the client does not reuse an id in flight and the upstream answers each request at most once, each response written on was captured once, under its own request's key and version, after that request |
| `TapProtocol.ReuseMislabels` | crates/kafka-tap/src/frame.rs:44-52 | A run in which a reused correlation id makes the recorder label a response with another request |
| `Snappy.Compress` | crates/compression/src/snappy.rs:37-74 | The output is the framed blocks, and the buffer never outgrows what was reserved, scratch space included |
| `Snappy.Decompress` | crates/compression/src/snappy.rs:76-129 | On any bytes the loop ends with the specified verdict; neither the result nor the buffer is longer than the cap |
| `Snappy.DecompressesIff` | crates/compression/src/snappy.rs:76-129 | Bytes decompress to a result if and only if they are the magic, eight bytes of version and framed blocks that decode to it one after the other within the cap |
| `Snappy.DecompressCompress` | crates/compression/src/snappy.rs:37-129 | Under every cap, what was compressed decompresses to itself or is too large |
| `Lz4.WriteBlock` | crates/compression/src/lz4.rs:152-188 | One block: its size field, then the compressed bytes or the block itself |
| `Lz4.StoresTheShorter` | crates/compression/src/lz4.rs:152-188 | A block of thirteen bytes or more takes the shorter of its two forms, and the size field says which and how long |
| `Lz4.Compress` | crates/compression/src/lz4.rs:58-128 | The output is the frame, of at most the data plus four bytes per block plus eleven, and the buffer never outgrows what was reserved |
| `Lz4.ReadCompress` | crates/compression/src/lz4.rs:58-93 | A reader of the frame format gets the data back |

## Left out

- `wincode` and serde serialization, generated codecs and byte-level KIP-631 framing: translation is modelled at record level.
- `krabka-voters`, `krabka-security`, quota floats and signatures are opaque values with equality.
- `image/acl_index.rs`: access control entries are a set; the index that speeds up lookups is not part of this model.
- `to_kraft_values` and `from_kraft_value` down to bytes, with the `metadata.version` gates of the record versions: records are compared as records.
- `KafkaPrincipal` text, UUID bytes and the wincode body of a private record: carried through the translation as opaque values.
- `HlcClock::observation`, tracing spans and metrics: plain readers.
- Feature, `metadata.version` and wire-byte tables beyond the constants used.
- `KafkaUuid::random`, `first_accepted` and the hyphenated form: the first depends on a random source, the last on a foreign parser.
- `Uuid` values are naturals in the metadata model, so their text and byte forms do not appear there.
- gzip, zstd, raw Snappy and LZ4 blocks and `FrameDecoder`: foreign libraries. The block codecs are parameters with a round-trip hypothesis.
- The syntax tree walk of the hoister (`Binder`, `Collector`, `macro_args`): a file is given as its scope and its paths. An imported path is its own identity, so chains of `use` items are not followed.
- Sockets, threads and I/O errors of the tap: a failed read ends a pump, and a recorder call is one step.
- Hoist.HoistingPreservesResolution: takes `extern crate alloc` for an item of the file, as the hoister's `Binder` does, so a shortened `alloc` path of such a file counts as changed.
- ImageInvariants.ValidatedLog: is stated for logs without `V1FeaturesEpoch`, which the source writes into snapshots only.
- KraftLog.SentLogArrives: gives sufficient conditions per record; they are exact for each square but not for a log, where a later record can hide an earlier difference.
- KafkaUuids.JavaUrlDecode: does not model the message texts, nor the prefix that `TooLong` quotes.
- KraftAcls.OperationsNeverCollide: unconditional only for entries that differ in the operation, because a 128-bit hash of unbounded text has collisions; elsewhere separation is a hypothesis.
- KraftPartitions.ElrDeltaMeans: equality holds after the epoch step and the re-stored partition that a partition change always brings; the same is true of `RecoveryDeltaMeans` and `DirectoryDeltaMeans`.
- Lz4.ReadCompress: the reader is written from the frame format, because the repository reads frames with a foreign library.
- Snappy.Decompress: does not model how much a growing buffer over-allocates, only its length.
- TapPump.Pump: one direction run alone; `TapProtocol` covers the two together.
