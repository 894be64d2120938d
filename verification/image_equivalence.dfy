/** A snapshot taken anywhere is invisible: what two images that differ only in
    derived or empty state can still disagree on, and what they cannot. */
module ImageEquivalence {
  import opened Base
  import opened Collections
  import opened MetadataRecords
  import opened Images
  import opened ImageInvariants
  import opened ImageSnapshot

  // ----- agreement up to derived state -----

  ghost predicate SameTopic(a: TopicRecord, b: TopicRecord)
  {
    a.name == b.name && a.topicId == b.topicId && a.partitions == b.partitions
  }

  /** Equal, except for the derived replication factors. */
  ghost predicate AgreeTopics(a: TopicState, b: TopicState)
  {
    && a.ids == b.ids && a.partitions == b.partitions && a.nextOffsets == b.nextOffsets
    && a.elr == b.elr && a.recovery == b.recovery && a.configs == b.configs
    && a.topics.Keys == b.topics.Keys
    && (forall t :: t in a.topics ==> SameTopic(a.topics[t], b.topics[t]))
  }

  /** Equal, except for empty inner tables. */
  ghost predicate AgreeConfigs(a: ConfigState, b: ConfigState)
  {
    && a.clientMetrics == b.clientMetrics && a.groupConfigs == b.groupConfigs
    && Compact(a.brokerConfigs) == Compact(b.brokerConfigs)
    && Compact(a.clientQuotas) == Compact(b.clientQuotas)
  }

  ghost predicate Agree(a: Image, b: Image)
  {
    && a.clusterId == b.clusterId && a.nodes == b.nodes && a.security == b.security
    && a.guard == b.guard && a.control == b.control
    && AgreeTopics(a.topics, b.topics) && AgreeConfigs(a.configs, b.configs)
  }

  lemma PartitionRespects(a: TopicState, b: TopicState, p: PartitionRecord)
    requires AgreeTopics(a, b)
    ensures AgreeTopics(ApplyPartition(a, p), ApplyPartition(b, p))
  {
    if p.topic in a.topics { assert SameTopic(a.topics[p.topic], b.topics[p.topic]); }
  }

  lemma TopicRespects(a: TopicState, b: TopicState, t: TopicRecord)
    requires AgreeTopics(a, b)
    ensures AgreeTopics(ApplyTopic(a, t), ApplyTopic(b, t))
  {
    if t.name in a.topics { assert SameTopic(a.topics[t.name], b.topics[t.name]); }
  }

  lemma DeleteRespects(a: TopicState, b: TopicState, name: Str)
    requires AgreeTopics(a, b)
    ensures AgreeTopics(ApplyDeleteTopic(a, name), ApplyDeleteTopic(b, name))
  {
    if name in a.topics { assert SameTopic(a.topics[name], b.topics[name]); }
  }

  lemma ElrRespects(a: TopicState, b: TopicState, topic: Str, index: int, e: seq<NodeId>, l: seq<NodeId>)
    requires AgreeTopics(a, b)
    ensures AgreeTopics(ApplyElr(a, topic, index, e, l), ApplyElr(b, topic, index, e, l))
  {
  }

  lemma RecoveryRespects(a: TopicState, b: TopicState, topic: Str, index: int, state: LeaderRecoveryState)
    requires AgreeTopics(a, b)
    ensures AgreeTopics(ApplyRecovery(a, topic, index, state), ApplyRecovery(b, topic, index, state))
  {
  }

  lemma UpdateRespects(a: TopicState, b: TopicState, u: PartitionUpdateRecord)
    requires AgreeTopics(a, b)
    ensures AgreeTopics(ApplyPartitionUpdate(a, u), ApplyPartitionUpdate(b, u))
  {
    var p := u.partition;
    PartitionRespects(a, b, p);
    var a1, b1 := ApplyPartition(a, p), ApplyPartition(b, p);
    if u.eligible.Some? && u.lastKnown.Some? {
      ElrRespects(a1, b1, p.topic, p.partition, u.eligible.value, u.lastKnown.value);
      a1 := ApplyElr(a1, p.topic, p.partition, u.eligible.value, u.lastKnown.value);
      b1 := ApplyElr(b1, p.topic, p.partition, u.eligible.value, u.lastKnown.value);
    }
    if u.recovery.Some? { RecoveryRespects(a1, b1, p.topic, p.partition, u.recovery.value); }
  }

  lemma StoringRespects(a: TopicState, b: TopicState, r: Record)
    requires AgreeTopics(a, b) && (r.V1Partition? || r.V1Topic? || r.V1DeleteTopic? || r.V1PartitionUpdate?)
    ensures AgreeTopics(TopicStep(a, r), TopicStep(b, r))
  {
    if r.V1Partition? { PartitionRespects(a, b, r.partition); }
    else if r.V1Topic? { TopicRespects(a, b, r.topic); }
    else if r.V1DeleteTopic? { DeleteRespects(a, b, r.name); }
    else { UpdateRespects(a, b, r.update); }
  }

  lemma TopicStepRespects(a: TopicState, b: TopicState, r: Record)
    requires AgreeTopics(a, b)
    ensures AgreeTopics(TopicStep(a, r), TopicStep(b, r))
  {
    if r.V1Partition? || r.V1Topic? || r.V1DeleteTopic? || r.V1PartitionUpdate? { StoringRespects(a, b, r); }
    else if r.V1PartitionElr? { ElrRespects(a, b, r.topicName, r.index, r.eligible, r.lastKnown); }
    else if r.V1PartitionRecovery? { RecoveryRespects(a, b, r.topicName, r.index, r.state); }
  }

  lemma ConfigStepRespects(a: ConfigState, b: ConfigState, r: Record)
    requires AgreeConfigs(a, b)
    ensures AgreeConfigs(ConfigStep(a, r), ConfigStep(b, r))
  {
    if r.V1BrokerConfig? {
      var inner := SetKey(a.brokerConfigs, r.nodeId, r.configName, r.configValue)[r.nodeId];
      CompactUpdate(a.brokerConfigs, b.brokerConfigs, r.nodeId, inner);
    } else if r.V1ClientQuota? {
      var key := Canonical(r.entity);
      var inner := SetKey(a.clientQuotas, key, r.configName, r.quota)[key];
      CompactUpdate(a.clientQuotas, b.clientQuotas, key, inner);
    }
  }

  /** No record can tell agreeing images apart. */
  lemma ApplyRespects(a: Image, b: Image, r: Record)
    requires Agree(a, b)
    ensures Agree(Apply(a, r), Apply(b, r))
  {
    TopicStepRespects(a.topics, b.topics, r);
    ConfigStepRespects(a.configs, b.configs, r);
  }

  lemma {:induction false} ReplayRespects(a: Image, b: Image, log: seq<Record>)
    requires Agree(a, b)
    ensures Agree(Replay(a, log), Replay(b, log))
    decreases |log|
  {
    if log != [] {
      ApplyRespects(a, b, log[0]);
      ReplayRespects(Apply(a, log[0]), Apply(b, log[0]), log[1..]);
    }
  }

  /** A restored image agrees with the original as far as its id index does. */
  lemma RestoredAgreesIff(x: Image, w: Walk)
    ensures Agree(Restored(x, w), x) <==> IdsBuilt(x.topics.topics, w.topics, |w.topics|) == x.topics.ids
  {
    CompactIsStable(x.configs.brokerConfigs);
    CompactIsStable(x.configs.clientQuotas);
    CompactIsStable(Compact(x.configs.brokerConfigs));
    CompactIsStable(Compact(x.configs.clientQuotas));
  }

  // ----- the main theorem -----

  /** Some order in which all tables of an image may be walked. */
  lemma SomeImageWalk(x: Image) returns (w: Walk)
    ensures Walks(x, w)
  {
    var b := SomeWalk(x.nodes.brokers.Keys);
    var c := SomeWalk(x.nodes.controllers.Keys);
    var bc := SomeWalk(FlatKeys(x.configs.brokerConfigs));
    var t := SomeWalk(x.topics.topics.Keys);
    var p := SomeWalk(FlatKeys(x.topics.partitions));
    var o := SomeWalk(FlatKeys(x.topics.nextOffsets));
    var e := SomeWalk(FlatKeys(x.topics.elr));
    var r := SomeWalk(FlatKeys(x.topics.recovery));
    var tc := SomeWalk(x.topics.configs.Keys);
    var sc := SomeWalk(x.security.scram.Keys);
    var a := SomeWalk(x.security.acls);
    var q := SomeWalk(FlatKeys(x.configs.clientQuotas));
    var tk := SomeWalk(x.security.tokens.Keys);
    var m := SomeWalk(x.configs.clientMetrics.Keys);
    var g := SomeWalk(x.configs.groupConfigs.Keys);
    var fl := SomeWalk(x.guard.freezesLiteral.Keys);
    var fp := SomeWalk(x.guard.freezesPrefixed.Keys);
    var bg := SomeWalk(x.guard.breakGlass.Keys);
    var f := SomeWalk(x.control.featureLevels.Keys);
    w := Walk(b, c, bc, t, p, o, e, r, tc, sc, a, q, tk, m, g, fl, fp, bg, f);
  }

  /** Every walk of the tables restores an image that agrees if and only if the id index
      is the exact inverse of the topics. */
  lemma RestoreAgreesIff(x: Image)
    requires ReachableInv(x)
    ensures (forall w :: Walks(x, w) ==> Agree(FromRecords(x.clusterId, ToRecords(x, w)), x)) <==> IdsExact(x.topics)
  {
    if IdsExact(x.topics) {
      forall w | Walks(x, w) ensures Agree(FromRecords(x.clusterId, ToRecords(x, w)), x) {
        RestoreIs(x, w);
        ExactIdsAreRebuilt(x.topics, w.topics);
        RestoredAgreesIff(x, w);
      }
    }
    if forall w :: Walks(x, w) ==> Agree(FromRecords(x.clusterId, ToRecords(x, w)), x) {
      var w := SomeImageWalk(x);
      forall ks | Enumerates(ks, x.topics.topics.Keys) ensures IdsBuilt(x.topics.topics, ks, |ks|) == x.topics.ids {
        var w' := w.(topics := ks);
        assert Walks(x, w');
        RestoreIs(x, w');
        RestoredAgreesIff(x, w');
      }
      RebuiltIdsAreExact(x.topics);
    }
  }

  /** For every log `p` that `validate` admits and that leaves an exact id index, every
      order of walking the tables of the image it leaves, and every committed log `s`
      after it: a replica restored from the snapshot and a replica that replayed
      everything agree. */
  lemma SnapshotIsInvisible(clusterId: Uuid, p: seq<Record>, w: Walk, s: seq<Record>)
    requires Validated(New(clusterId), p) && Walks(Replay(New(clusterId), p), w)
    requires IdsExact(Replay(New(clusterId), p).topics)
    ensures Agree(Replay(FromRecords(clusterId, ToRecords(Replay(New(clusterId), p), w)), s),
                  Replay(New(clusterId), p + s))
  {
    var x := Replay(New(clusterId), p);
    NewIsReachable(clusterId);
    ValidatedLog(New(clusterId), p);
    KeepsClusterId(New(clusterId), p);
    RestoreAgreesIff(x);
    ReplayRespects(FromRecords(clusterId, ToRecords(x, w)), x, s);
    ReplayConcat(New(clusterId), p, s);
  }

  /** No walk of the tables and no later log tells the two replicas apart. */
  ghost predicate Invisible(clusterId: Uuid, p: seq<Record>)
  {
    forall w, s :: Walks(Replay(New(clusterId), p), w) ==>
      Agree(Replay(FromRecords(clusterId, ToRecords(Replay(New(clusterId), p), w)), s), Replay(New(clusterId), p + s))
  }

  lemma InvisibleAtOnce(clusterId: Uuid, p: seq<Record>, w: Walk)
    requires Invisible(clusterId, p) && Walks(Replay(New(clusterId), p), w)
    ensures Agree(FromRecords(clusterId, ToRecords(Replay(New(clusterId), p), w)), Replay(New(clusterId), p))
  {
    InvisibleSoFar(clusterId, p, w, FromRecords(clusterId, ToRecords(Replay(New(clusterId), p), w)), []);
  }

  lemma InvisibleSoFar(clusterId: Uuid, p: seq<Record>, w: Walk, y: Image, s: seq<Record>)
    requires Invisible(clusterId, p) && Walks(Replay(New(clusterId), p), w) && s == []
    requires y == FromRecords(clusterId, ToRecords(Replay(New(clusterId), p), w))
    ensures Agree(y, Replay(New(clusterId), p))
  {
    var x, x', y' := Replay(New(clusterId), p), Replay(New(clusterId), p + s), Replay(y, s);
    assert Agree(y', x');
    assert p + s == p;
    assert x' == x && y' == y;
  }

  /** For every log that `validate` admits, a snapshot at its end is invisible if and
      only if the id index that it leaves is exact. */
  lemma SnapshotIsInvisibleIff(clusterId: Uuid, p: seq<Record>)
    requires Validated(New(clusterId), p)
    ensures Invisible(clusterId, p) <==> IdsExact(Replay(New(clusterId), p).topics)
  {
    var x := Replay(New(clusterId), p);
    if IdsExact(x.topics) {
      forall w, s | Walks(x, w)
        ensures Agree(Replay(FromRecords(clusterId, ToRecords(x, w)), s), Replay(New(clusterId), p + s))
      {
        SnapshotIsInvisible(clusterId, p, w, s);
      }
    }
    if Invisible(clusterId, p) {
      NewIsReachable(clusterId);
      ValidatedLog(New(clusterId), p);
      KeepsClusterId(New(clusterId), p);
      forall w | Walks(x, w) ensures Agree(FromRecords(x.clusterId, ToRecords(x, w)), x) {
        InvisibleAtOnce(clusterId, p, w);
      }
      RestoreAgreesIff(x);
    }
  }

  lemma {:induction false} KeepsClusterId(x: Image, log: seq<Record>)
    ensures Replay(x, log).clusterId == x.clusterId
    decreases |log|
  {
    if log != [] { KeepsClusterId(Apply(x, log[0]), log[1..]); }
  }

  // ----- when the restored image is equal, not just in agreement -----

  ghost predicate Uniform(s: TopicState)
  {
    forall t, i :: t in s.topics && InNest(s.partitions, t, i) ==>
      |s.partitions[t][i].replicas| == s.topics[t].replicationFactor
  }

  /** A partition whose replica count an `i16` can hold. */
  ghost predicate FactorFits(s: TopicState, t: Str, i: int)
  {
    InNest(s.partitions, t, i) && |s.partitions[t][i].replicas| <= I16_MAX
  }

  /** `rf` is the replica count of the topic's highest-numbered partition that
      fits, or the stored factor when none does. */
  ghost predicate RfOfLast(s: TopicState, t: Str, rf: int)
    requires t in s.topics
  {
    if exists i :: FactorFits(s, t, i)
    then exists i :: FactorFits(s, t, i) && rf == |s.partitions[t][i].replicas|
                     && forall j :: FactorFits(s, t, j) ==> j <= i
    else rf == s.topics[t].replicationFactor
  }

  lemma {:induction false} RfAfterIsLast(s: TopicState, ks: seq<(Str, int)>, n: nat, t: Str)
    returns (last: Option<int>)
    requires t in s.topics && Ascending(ks) && n <= |ks|
    requires forall i :: 0 <= i < |ks| ==> InNest(s.partitions, ks[i].0, ks[i].1)
    ensures last.None? ==> RfAfter(s, ks, n, t) == s.topics[t].replicationFactor
    ensures last.None? ==> forall i :: 0 <= i < n && ks[i].0 == t ==> !FactorFits(s, t, ks[i].1)
    ensures last.Some? ==> FactorFits(s, t, last.value)
                           && RfAfter(s, ks, n, t) == |s.partitions[t][last.value].replicas|
    ensures last.Some? ==> forall i :: 0 <= i < n && ks[i].0 == t && FactorFits(s, t, ks[i].1) ==> ks[i].1 <= last.value
    decreases n
  {
    if n == 0 { return None; }
    last := RfAfterIsLast(s, ks, n - 1, t);
    assert InNest(s.partitions, ks[n - 1].0, ks[n - 1].1);
    if ks[n - 1].0 == t && FactorFits(s, t, ks[n - 1].1) {
      last := Some(ks[n - 1].1);
    }
  }

  lemma RfOfLastIsUnique(s: TopicState, t: Str, a: int, b: int)
    requires t in s.topics && RfOfLast(s, t, a) && RfOfLast(s, t, b)
    ensures a == b
  {
  }

  /** In the source's own order the restored factor is that of the last
      partition, whatever order the topics are walked in. */
  lemma RfRestored(s: TopicState, ks: seq<(Str, int)>, t: Str)
    requires t in s.topics && Ascending(ks) && Enumerates(ks, FlatKeys(s.partitions))
    ensures RfOfLast(s, t, RfAfter(s, ks, |ks|, t))
  {
    assert forall i :: 0 <= i < |ks| ==> ks[i] in Elems(ks);
    var last := RfAfterIsLast(s, ks, |ks|, t);
    forall i | FactorFits(s, t, i)
      ensures exists j :: 0 <= j < |ks| && ks[j] == (t, i)
    {
      assert (t, i) in FlatKeys(s.partitions);
      assert (t, i) in Elems(ks);
    }
    assert last.None? ==> forall i :: !FactorFits(s, t, i);
  }

  lemma SameRf(s: TopicState, ks: seq<(Str, int)>, t: Str)
    requires t in s.topics && Ascending(ks) && Enumerates(ks, FlatKeys(s.partitions))
    ensures RfOfLast(s, t, s.topics[t].replicationFactor) <==> RestoredFactors(s, ks)[t] == s.topics[t]
  {
    RfRestored(s, ks, t);
    if RfOfLast(s, t, s.topics[t].replicationFactor) {
      RfOfLastIsUnique(s, t, s.topics[t].replicationFactor, RfAfter(s, ks, |ks|, t));
    }
  }

  /** Every factor is that of the topic's highest-numbered partition. */
  ghost predicate FactorsOfLast(s: TopicState)
  {
    forall t :: t in s.topics ==> RfOfLast(s, t, s.topics[t].replicationFactor)
  }

  lemma FactorsExactIff(s: TopicState, ks: seq<(Str, int)>)
    requires Ascending(ks) && Enumerates(ks, FlatKeys(s.partitions))
    ensures RestoredFactors(s, ks) == s.topics <==> FactorsOfLast(s)
  {
    forall t | t in s.topics
      ensures RfOfLast(s, t, s.topics[t].replicationFactor) <==> RestoredFactors(s, ks)[t] == s.topics[t]
    {
      SameRf(s, ks, t);
    }
    assert (forall t :: t in s.topics ==> RestoredFactors(s, ks)[t] == s.topics[t]) ==> RestoredFactors(s, ks) == s.topics;
  }

  lemma RestoredIsExactIff(x: Image, w: Walk)
    ensures Restored(x, w) == x
            <==> && NoEmptyInner(x.configs.brokerConfigs) && NoEmptyInner(x.configs.clientQuotas)
                 && RestoredFactors(x.topics, w.partitions) == x.topics.topics
                 && IdsBuilt(x.topics.topics, w.topics, |w.topics|) == x.topics.ids
  {
    CompactIsStable(x.configs.brokerConfigs);
    CompactIsStable(x.configs.clientQuotas);
    assert RestoredTopics(x.topics, w.topics, w.partitions).topics == RestoredFactors(x.topics, w.partitions);
  }

  /** Whatever order the topics are walked in, restoring gives back the very same image
      if and only if no config or quota table is empty, each factor is that of the
      topic's last partition, and the id index is exact. */
  lemma RestoreIsExactIff(x: Image, w: Walk)
    requires ReachableInv(x) && Walks(x, w) && Ascending(w.partitions)
    ensures (forall ts :: Enumerates(ts, x.topics.topics.Keys) ==>
               FromRecords(x.clusterId, ToRecords(x, w.(topics := ts))) == x)
            <==> && NoEmptyInner(x.configs.brokerConfigs) && NoEmptyInner(x.configs.clientQuotas)
                 && FactorsOfLast(x.topics) && IdsExact(x.topics)
  {
    FactorsExactIff(x.topics, w.partitions);
    forall ts | Enumerates(ts, x.topics.topics.Keys)
      ensures FromRecords(x.clusterId, ToRecords(x, w.(topics := ts))) == Restored(x, w.(topics := ts))
      ensures IdsExact(x.topics) ==> IdsBuilt(x.topics.topics, ts, |ts|) == x.topics.ids
    {
      RestoreIs(x, w.(topics := ts));
      if IdsExact(x.topics) { ExactIdsAreRebuilt(x.topics, ts); }
    }
    forall ts { RestoredIsExactIff(x, w.(topics := ts)); }
    if forall ts :: Enumerates(ts, x.topics.topics.Keys) ==> FromRecords(x.clusterId, ToRecords(x, w.(topics := ts))) == x {
      assert w.(topics := w.topics) == w;
      RebuiltIdsAreExact(x.topics);
    }
  }

  lemma {:induction false} RfOfUniform(s: TopicState, ks: seq<(Str, int)>, n: nat, t: Str)
    requires Uniform(s) && t in s.topics && n <= |ks|
    ensures RfAfter(s, ks, n, t) == s.topics[t].replicationFactor
  {
    if n > 0 {
      RfOfUniform(s, ks, n - 1, t);
      if InNest(s.partitions, ks[n - 1].0, ks[n - 1].1) && ks[n - 1].0 == t {
        assert InNest(s.partitions, t, ks[n - 1].1);
      }
    }
  }

  /** With one replica count per topic the order of the partition walk does not matter
      either. */
  lemma RestoreOfUniformIsExact(x: Image, w: Walk)
    requires ReachableInv(x) && Walks(x, w) && Uniform(x.topics) && IdsExact(x.topics)
    requires NoEmptyInner(x.configs.brokerConfigs) && NoEmptyInner(x.configs.clientQuotas)
    ensures FromRecords(x.clusterId, ToRecords(x, w)) == x
  {
    RestoreIs(x, w);
    ExactIdsAreRebuilt(x.topics, w.topics);
    UniformFactors(x.topics, w.partitions);
    RestoredIsExactIff(x, w);
  }

  lemma UniformFactors(s: TopicState, ks: seq<(Str, int)>)
    requires Uniform(s)
    ensures RestoredFactors(s, ks) == s.topics
  {
    forall t | t in s.topics ensures RestoredFactors(s, ks)[t] == s.topics[t] {
      RfOfUniform(s, ks, |ks|, t);
    }
  }

  /** A restored factor is that of the last partition of the restored topics. */
  lemma RestoredRfIsLast(s: TopicState, r: TopicState, ks: seq<(Str, int)>, t: Str)
    requires t in s.topics && Ascending(ks) && Enumerates(ks, FlatKeys(s.partitions))
    requires r.topics == RestoredFactors(s, ks) && r.partitions == s.partitions
    ensures RfOfLast(r, t, r.topics[t].replicationFactor)
  {
    RfRestored(s, ks, t);
    assert forall i :: FactorFits(r, t, i) <==> FactorFits(s, t, i);
  }

  lemma RestoredIsReachable(x: Image, w: Walk)
    requires ReachableInv(x) && IdsBuilt(x.topics.topics, w.topics, |w.topics|) == x.topics.ids
    ensures ReachableInv(Restored(x, w))
  {
    var s, r := x.topics, RestoredTopics(x.topics, w.topics, w.partitions);
    assert forall t :: t in s.topics ==> SameTopic(r.topics[t], s.topics[t]);
    assert forall t :: TopicPartitionCount(r, t) == TopicPartitionCount(s, t);
  }

  lemma RestoredIsCompact(x: Image, w: Walk)
    ensures NoEmptyInner(Restored(x, w).configs.brokerConfigs) && NoEmptyInner(Restored(x, w).configs.clientQuotas)
  {
    CompactIsStable(Compact(x.configs.brokerConfigs));
    CompactIsStable(Compact(x.configs.clientQuotas));
  }

  /** A snapshot of a restored image restores to the same image, whatever order the
      tables of either are walked in. */
  lemma SecondSnapshotChangesNothing(x: Image, w: Walk, w': Walk)
    requires ReachableInv(x) && IdsExact(x.topics) && Walks(x, w) && Ascending(w.partitions)
    requires Walks(FromRecords(x.clusterId, ToRecords(x, w)), w') && Ascending(w'.partitions)
    ensures var y := FromRecords(x.clusterId, ToRecords(x, w));
            FromRecords(x.clusterId, ToRecords(y, w')) == y
  {
    RestoreIs(x, w);
    ExactIdsAreRebuilt(x.topics, w.topics);
    var y := Restored(x, w);
    RestoredIsReachable(x, w);
    RestoreIs(y, w');
    forall t | t in y.topics.topics ensures RfOfLast(y.topics, t, y.topics.topics[t].replicationFactor) {
      RestoredRfIsLast(x.topics, y.topics, w.partitions, t);
    }
    FactorsExactIff(y.topics, w'.partitions);
    ExactIdsAreRebuilt(y.topics, w'.topics);
    RestoredIsCompact(x, w);
    RestoredIsExactIff(y, w');
  }

  // ----- what the agreement does not cover -----

  /** Admission is where agreeing images part: exactly on a topic expansion whose
      replication factor matches one of the two derived factors. */
  lemma ValidateSplitsOnlyOnFactor(a: Image, b: Image, r: Record)
    requires Agree(a, b)
    ensures Validate(a, r) != Validate(b, r)
            <==> && r.V1Topic? && r.topic.name in a.topics.topics
                 && a.topics.topics[r.topic.name].topicId == r.topic.topicId
                 && r.topic.partitions > TopicPartitionCount(a.topics, r.topic.name)
                 && (a.topics.topics[r.topic.name].replicationFactor == r.topic.replicationFactor)
                    != (b.topics.topics[r.topic.name].replicationFactor == r.topic.replicationFactor)
  {
    if r.V1Topic? && r.topic.name in a.topics.topics {
      assert SameTopic(a.topics.topics[r.topic.name], b.topics.topics[r.topic.name]);
    }
  }

  // ----- images that a snapshot does not give back -----

  /** `validate` does not compare topic ids. Two live topics that share one leave the
      index short after one is deleted: an admitted log whose image no walk restores,
      even up to agreement. */
  lemma SharedIdDesynchronizes(clusterId: Uuid)
    ensures var log := [V1Topic(TopicRecord("a", 7, 1, 1)), V1Topic(TopicRecord("b", 7, 1, 1)), V1DeleteTopic("b")];
            var x := Replay(New(clusterId), log);
            && Validated(New(clusterId), log)
            && forall w :: Walks(x, w) ==> !Agree(FromRecords(clusterId, ToRecords(x, w)), x)
  {
    var log := [V1Topic(TopicRecord("a", 7, 1, 1)), V1Topic(TopicRecord("b", 7, 1, 1)), V1DeleteTopic("b")];
    var x := Replay(New(clusterId), log);
    SharedIdImage(clusterId);
    NewIsReachable(clusterId);
    ValidatedLog(New(clusterId), log);
    KeepsClusterId(New(clusterId), log);
    forall w | Walks(x, w) ensures !Agree(FromRecords(clusterId, ToRecords(x, w)), x) {
      LiveTopicIsIndexed(x.topics, w.topics, "a");
      RestoreIs(x, w);
      RestoredAgreesIff(x, w);
    }
  }

  lemma SharedIdImage(clusterId: Uuid)
    ensures var log := [V1Topic(TopicRecord("a", 7, 1, 1)), V1Topic(TopicRecord("b", 7, 1, 1)), V1DeleteTopic("b")];
            var s := Replay(New(clusterId), log).topics;
            && Validated(New(clusterId), log) && s.topics == map["a" := TopicRecord("a", 7, 0, 1)] && s.ids == map[]
  {
    var a, b, d := V1Topic(TopicRecord("a", 7, 1, 1)), V1Topic(TopicRecord("b", 7, 1, 1)), V1DeleteTopic("b");
    var n := New(clusterId);
    assert "a" != "b";
    ReplayThree(n, a, b, d);
    ValidatedThree(n, a, b, d);
  }

  lemma ValidatedThree(x: Image, a: Record, b: Record, c: Record)
    requires Validate(x, a).None? && Validate(Apply(x, a), b).None? && Validate(Apply(Apply(x, a), b), c).None?
    requires !a.V1FeaturesEpoch? && !b.V1FeaturesEpoch? && !c.V1FeaturesEpoch?
    ensures Validated(x, [a, b, c])
  {
    assert [a, b, c][1..] == [b, c] && [b, c][1..] == [c] && [c][1..] == [];
    assert Validated(Apply(Apply(x, a), b), [c]);
    assert Validated(Apply(x, a), [b, c]);
  }

  /** Every restored index has an entry for the id of a live topic. */
  lemma LiveTopicIsIndexed(s: TopicState, ts: seq<Str>, t: Str)
    requires Enumerates(ts, s.topics.Keys) && t in s.topics
    ensures s.topics[t].topicId in IdsBuilt(s.topics, ts, |ts|)
  {
    forall j | 0 <= j < |ts| ensures ts[j] in s.topics { ElemAt(ts, j); }
    BuiltEntries(s, ts, |ts|);
    assert t in Elems(ts);
  }

  /** Removing a config that was never set leaves an empty table, which no snapshot
      writes: an admitted log whose image no walk gives back. */
  lemma EmptyTableIsNotRestored(clusterId: Uuid)
    ensures var log := [V1BrokerConfig(1, "k", None)];
            var x := Replay(New(clusterId), log);
            && Validated(New(clusterId), log)
            && forall w :: Walks(x, w) ==> FromRecords(clusterId, ToRecords(x, w)) != x
  {
    var r := V1BrokerConfig(1, "k", None);
    assert [r][1..] == [];
    var x := Apply(New(clusterId), r);
    assert Replay(New(clusterId), [r]) == x && x.configs.brokerConfigs[1] == map[];
    NewIsReachable(clusterId);
    ValidatedLog(New(clusterId), [r]);
    forall w | Walks(x, w) ensures FromRecords(clusterId, ToRecords(x, w)) != x {
      RestoreIs(x, w);
      RestoredIsExactIff(x, w);
    }
  }

  function Replicated(index: int, replicas: seq<NodeId>): PartitionRecord
  {
    PartitionRecord("t", index, 1, replicas, replicas, 0, [], [], [], 0)
  }

  /** A topic of two partitions, the lower one applied last with one replica. */
  function LowerLast(): seq<Record>
  {
    [V1Topic(TopicRecord("t", 7, 2, 2)), V1Partition(Replicated(1, [1, 2])), V1Partition(Replicated(0, [1]))]
  }

  lemma LowerLastIs(clusterId: Uuid)
    ensures Validated(New(clusterId), LowerLast())
    ensures var s := Replay(New(clusterId), LowerLast()).topics;
            && s.topics == map["t" := TopicRecord("t", 7, 2, 1)] && s.ids == map[7 := "t"] && IdsExact(s)
            && s.partitions == map["t" := map[0 := Replicated(0, [1]), 1 := Replicated(1, [1, 2])]]
  {
    var log, n := LowerLast(), New(clusterId);
    var p, q := Replicated(1, [1, 2]), Replicated(0, [1]);
    var x1 := Apply(n, log[0]);
    assert x1.topics.topics == map["t" := TopicRecord("t", 7, 0, 2)] && x1.topics.ids == map[7 := "t"];
    var x2 := Apply(x1, log[1]);
    assert x2.topics.partitions == map["t" := map[1 := p]];
    assert x2.topics.topics == map["t" := TopicRecord("t", 7, 1, 2)];
    var x3 := Apply(x2, log[2]);
    assert x3.topics.partitions == map["t" := map[1 := p][0 := q]];
    assert map[1 := p][0 := q] == map[0 := q, 1 := p];
    ReplayThree(n, log[0], log[1], log[2]);
    ValidatedThree(n, log[0], log[1], log[2]);
  }

  /** In ascending order partition 1 comes last. */
  lemma HigherFactorIsRestored(s: TopicState, ks: seq<(Str, int)>)
    requires s.partitions == map["t" := map[0 := Replicated(0, [1]), 1 := Replicated(1, [1, 2])]] && "t" in s.topics
    requires Ascending(ks) && Enumerates(ks, FlatKeys(s.partitions))
    ensures RfAfter(s, ks, |ks|, "t") == 2
  {
    RfRestored(s, ks, "t");
    assert FactorFits(s, "t", 1);
  }

  lemma HigherFactorComesBack(x: Image, w: Walk)
    requires ReachableInv(x) && IdsExact(x.topics) && Walks(x, w) && Ascending(w.partitions)
    requires x.topics.topics == map["t" := TopicRecord("t", 7, 2, 1)]
    requires x.topics.partitions == map["t" := map[0 := Replicated(0, [1]), 1 := Replicated(1, [1, 2])]]
    ensures var y := FromRecords(x.clusterId, ToRecords(x, w));
            && Agree(y, x) && y.topics.partitions == x.topics.partitions
            && "t" in y.topics.topics && y.topics.topics["t"] == TopicRecord("t", 7, 2, 2)
  {
    RestoreIs(x, w);
    ExactIdsAreRebuilt(x.topics, w.topics);
    RestoredAgreesIff(x, w);
    HigherFactorIsRestored(x.topics, w.partitions);
  }

  lemma ExpansionVerdict(x: Image)
    requires x.topics.partitions == map["t" := map[0 := Replicated(0, [1]), 1 := Replicated(1, [1, 2])]]
    requires "t" in x.topics.topics && x.topics.topics["t"].topicId == 7
    ensures Validate(x, V1Topic(TopicRecord("t", 7, 3, 1))).None? <==> x.topics.topics["t"].replicationFactor == 1
  {
    var inner: map<int, PartitionRecord> := map[0 := Replicated(0, [1]), 1 := Replicated(1, [1, 2])];
    assert inner.Keys == {0, 1} && |inner.Keys| == 2;
  }

  lemma FactorSplits(x: Image, w: Walk)
    requires ReachableInv(x) && IdsExact(x.topics) && Walks(x, w) && Ascending(w.partitions)
    requires x.topics.topics == map["t" := TopicRecord("t", 7, 2, 1)]
    requires x.topics.partitions == map["t" := map[0 := Replicated(0, [1]), 1 := Replicated(1, [1, 2])]]
    ensures var y := FromRecords(x.clusterId, ToRecords(x, w));
            var expansion := V1Topic(TopicRecord("t", 7, 3, 1));
            Agree(y, x) && y != x && Validate(x, expansion).None? && Validate(y, expansion).Some?
  {
    HigherFactorComesBack(x, w);
    ExpansionVerdict(x);
    ExpansionVerdict(FromRecords(x.clusterId, ToRecords(x, w)));
  }

  /** The restored replica has the factor of the higher partition: it agrees with the
      original, refuses an expansion that the original admits, and is not equal. */
  lemma FactorSplitsAdmission(clusterId: Uuid, w: Walk)
    requires Walks(Replay(New(clusterId), LowerLast()), w) && Ascending(w.partitions)
    ensures Validated(New(clusterId), LowerLast())
    ensures var x := Replay(New(clusterId), LowerLast());
            var y := FromRecords(clusterId, ToRecords(x, w));
            var expansion := V1Topic(TopicRecord("t", 7, 3, 1));
            Agree(y, x) && y != x && Validate(x, expansion).None? && Validate(y, expansion).Some?
  {
    LowerLastIs(clusterId);
    NewIsReachable(clusterId);
    ValidatedLog(New(clusterId), LowerLast());
    KeepsClusterId(New(clusterId), LowerLast());
    FactorSplits(Replay(New(clusterId), LowerLast()), w);
  }
}
