/** `min_required_metadata_version` and `metadata_version_downgrade_records`:
    projecting an image onto an older `metadata.version`. */
module ImageDowngrade {
  import opened Base
  import opened Collections
  import opened MetadataRecords
  import opened Images
  import opened ImageInvariants
  import opened ImageSnapshot

  const METADATA_VERSION_MIN: int := 7
  const SCRAM_MIN_LEVEL: int := 11
  const DELEGATION_TOKEN_MIN_LEVEL: int := 14
  const DIRECTORY_ASSIGNMENT_MIN_LEVEL: int := 17
  const CORDONED_LOG_DIRS_MIN_LEVEL: int := 30
  const CIDR_ACL_MIN_LEVEL: int := 32

  predicate IsCidr(e: AclEntry) { '/' in e.host }

  /** The lowest level that can hold the gated state of the image. */
  function MinRequired(s: SecurityState): int
  {
    var a := METADATA_VERSION_MIN;
    var b := if |s.scram| == 0 then a else Max(a, SCRAM_MIN_LEVEL);
    var c := if |s.tokens| == 0 then b else Max(b, DELEGATION_TOKEN_MIN_LEVEL);
    if exists e :: e in s.acls && IsCidr(e) then Max(c, CIDR_ACL_MIN_LEVEL) else c
  }

  // ----- the projection of each table -----

  function ProjectBroker(b: BrokerRegistrationRecord, target: int): BrokerRegistrationRecord
  {
    b.(logDirs := if target < DIRECTORY_ASSIGNMENT_MIN_LEVEL then [] else b.logDirs,
       cordonedLogDirs := if target < CORDONED_LOG_DIRS_MIN_LEVEL then None else b.cordonedLogDirs)
  }

  /** The slots of a partition that name a directory: replicas and directories
      zipped, so the shorter list bounds them. */
  predicate NamesDirectory(p: PartitionRecord, j: nat)
  {
    j < |p.replicas| && j < |p.directories| && p.directories[j] != MIGRATING
  }

  /** The removal records of one partition, up to slot `n`. */
  function DirRecords(p: PartitionRecord, n: nat): seq<Record>
  {
    if n == 0 then []
    else DirRecords(p, n - 1)
         + if NamesDirectory(p, n - 1)
           then [V1PartitionDirAssignment(p.topic, p.partition, p.replicas[n - 1], MIGRATING)] else []
  }

  /** The partition after those records. */
  function Cleared(p: PartitionRecord, n: nat): (q: PartitionRecord)
    ensures q == p.(directories := q.directories)
  {
    if n == 0 then p
    else if NamesDirectory(p, n - 1) then AssignDirectory(Cleared(p, n - 1), p.replicas[n - 1], MIGRATING)
    else Cleared(p, n - 1)
  }

  // ----- one partition -----

  /** A replica listed twice: assignments to it reach its first slot only. */
  predicate Shadowed(p: PartitionRecord, j: nat)
  {
    j < |p.replicas| && Position(p.replicas, p.replicas[j]) != j
  }

  lemma {:induction false} ClearedSlot(p: PartitionRecord, n: nat, j: nat)
    requires n <= |p.replicas|
    ensures |Cleared(p, n).directories| >= |p.directories|
    ensures var d := Cleared(p, n).directories;
            j < |d| ==>
              && (d[j] == MIGRATING || (j < |p.directories| && d[j] == p.directories[j]))
              && (j < |p.directories| && (Shadowed(p, j) || j >= |p.replicas|) ==> d[j] == p.directories[j])
              && (j < n && j < |p.directories| && !Shadowed(p, j) ==> d[j] == MIGRATING)
    decreases n
  {
    if n > 0 {
      ClearedSlot(p, n - 1, j);
      if NamesDirectory(p, n - 1) {
        var q, slot := Cleared(p, n - 1), Position(p.replicas, p.replicas[n - 1]);
        assert q.replicas == p.replicas && slot < |p.replicas|;
        assert Cleared(p, n).directories == Grown(q.directories, |p.replicas|)[slot := MIGRATING];
        assert !Shadowed(p, slot);
      }
    }
  }

  /** Clearing a partition leaves no named directory exactly when no named slot
      belongs to a replica already listed before it. */
  lemma ClearedNamesNothing(p: PartitionRecord)
    ensures (forall j: nat :: !NamesDirectory(Cleared(p, |p.replicas|), j))
            <==> forall j: nat :: NamesDirectory(p, j) ==> !Shadowed(p, j)
  {
    var q := Cleared(p, |p.replicas|);
    if w: nat :| NamesDirectory(p, w) && Shadowed(p, w) {
      ClearedSlot(p, |p.replicas|, w);
      assert NamesDirectory(q, w);
    } else {
      forall j: nat ensures !NamesDirectory(q, j) { ClearedSlot(p, |p.replicas|, j); }
    }
  }

  // ----- the emitted records -----

  /** The orders in which the downgrade walks its tables. */
  datatype DowngradeWalk = DowngradeWalk(
    acls: seq<AclEntry>, scram: seq<(Str, nat)>, tokens: seq<Str>, brokers: seq<NodeId>, partitions: seq<(Str, int)>)

  ghost predicate WalksDowngrade(x: Image, w: DowngradeWalk)
  {
    && Enumerates(w.acls, set e | e in x.security.acls && IsCidr(e))
    && Enumerates(w.scram, x.security.scram.Keys)
    && Enumerates(w.tokens, x.security.tokens.Keys)
    && Enumerates(w.brokers, x.nodes.brokers.Keys)
    && Enumerates(w.partitions, FlatKeys(x.topics.partitions))
  }

  function AclRemovals(ks: seq<AclEntry>): seq<Record>
  {
    if ks == [] then [] else [V1DeleteAccessControlEntry(ExactFilter(ks[0]))] + AclRemovals(ks[1..])
  }

  function ScramRemovals(ks: seq<(Str, nat)>): seq<Record>
  {
    if ks == [] then [] else [V1DeleteScramCredential(ks[0].0, ks[0].1)] + ScramRemovals(ks[1..])
  }

  function TokenRemovals(ks: seq<Str>): seq<Record>
  {
    if ks == [] then [] else [V1DeleteDelegationToken(ks[0])] + TokenRemovals(ks[1..])
  }

  function BrokerRecords(brokers: map<NodeId, BrokerRegistrationRecord>, ks: seq<NodeId>, target: int): seq<Record>
    requires forall k :: k in ks ==> k in brokers
  {
    if ks == [] then []
    else
      var b := brokers[ks[0]];
      (if ProjectBroker(b, target) != b then [V1BrokerRegistration(ProjectBroker(b, target))] else [])
      + BrokerRecords(brokers, ks[1..], target)
  }

  function PartitionRecords(m: map<Str, map<int, PartitionRecord>>, ks: seq<(Str, int)>): seq<Record>
    requires forall k :: k in ks ==> InNest(m, k.0, k.1)
  {
    if ks == [] then []
    else
      assert ks[0] in ks && InNest(m, ks[0].0, ks[0].1);
      var p := m[ks[0].0][ks[0].1];
      DirRecords(p, |p.replicas|) + PartitionRecords(m, ks[1..])
  }

  ghost function SecurityRemovals(w: DowngradeWalk, target: int): seq<Record>
  {
    (if target < CIDR_ACL_MIN_LEVEL then AclRemovals(w.acls) else [])
    + (if target < SCRAM_MIN_LEVEL then ScramRemovals(w.scram) else [])
    + (if target < DELEGATION_TOKEN_MIN_LEVEL then TokenRemovals(w.tokens) else [])
  }

  lemma WalkedKeys(x: Image, w: DowngradeWalk)
    requires WalksDowngrade(x, w)
    ensures forall k :: k in w.brokers ==> k in x.nodes.brokers
    ensures forall k :: k in w.partitions ==> InNest(x.topics.partitions, k.0, k.1)
  {
    assert forall k :: k in w.brokers ==> k in Elems(w.brokers);
    forall k | k in w.partitions ensures InNest(x.topics.partitions, k.0, k.1) {
      assert k in Elems(w.partitions);
    }
  }

  /** `metadata_version_downgrade_records`. */
  ghost function DowngradeRecords(x: Image, w: DowngradeWalk, target: int): seq<Record>
    requires WalksDowngrade(x, w)
  {
    WalkedKeys(x, w);
    SecurityRemovals(w, target)
    + BrokerRecords(x.nodes.brokers, w.brokers, target)
    + (if target < DIRECTORY_ASSIGNMENT_MIN_LEVEL then PartitionRecords(x.topics.partitions, w.partitions) else [])
  }

  // ----- what the records do -----

  function ProjectSecurity(s: SecurityState, target: int): SecurityState
  {
    SecurityState(
      if target < SCRAM_MIN_LEVEL then map[] else s.scram,
      if target < CIDR_ACL_MIN_LEVEL then set e | e in s.acls && !IsCidr(e) else s.acls,
      if target < DELEGATION_TOKEN_MIN_LEVEL then map[] else s.tokens)
  }

  function ProjectBrokers(m: map<NodeId, BrokerRegistrationRecord>, target: int): map<NodeId, BrokerRegistrationRecord>
  {
    map k | k in m :: ProjectBroker(m[k], target)
  }

  function ClearAll(m: map<Str, map<int, PartitionRecord>>): map<Str, map<int, PartitionRecord>>
  {
    map t | t in m :: map i | i in m[t] :: Cleared(m[t][i], |m[t][i].replicas|)
  }

  /** The image at the older level: gated state gone, the rest untouched. */
  function Downgraded(x: Image, target: int): Image
  {
    x.(security := ProjectSecurity(x.security, target),
       nodes := x.nodes.(brokers := ProjectBrokers(x.nodes.brokers, target)),
       topics := x.topics.(partitions := if target < DIRECTORY_ASSIGNMENT_MIN_LEVEL
                                         then ClearAll(x.topics.partitions) else x.topics.partitions))
  }

  lemma {:induction false} FoldAclRemovals(s: SecurityState, ks: seq<AclEntry>)
    ensures Fold(SecurityStep, s, AclRemovals(ks)) == s.(acls := s.acls - Elems(ks))
    ensures AllIn(SecurityGroup, AclRemovals(ks))
    decreases |ks|
  {
    if ks == [] { assert s.acls - Elems(ks) == s.acls; }
    else {
      var r := V1DeleteAccessControlEntry(ExactFilter(ks[0]));
      var s' := SecurityStep(s, r);
      assert s'.acls == s.acls - {ks[0]};
      FoldAclRemovals(s', ks[1..]);
      assert AclRemovals(ks)[1..] == AclRemovals(ks[1..]);
      assert Elems(ks) == {ks[0]} + Elems(ks[1..]);
      assert s.acls - {ks[0]} - Elems(ks[1..]) == s.acls - Elems(ks);
    }
  }

  lemma {:induction false} FoldScramRemovals(s: SecurityState, ks: seq<(Str, nat)>)
    ensures Fold(SecurityStep, s, ScramRemovals(ks)) == s.(scram := s.scram - Elems(ks))
    ensures AllIn(SecurityGroup, ScramRemovals(ks))
    decreases |ks|
  {
    if ks == [] { assert s.scram - Elems(ks) == s.scram; }
    else {
      assert (ks[0].0, ks[0].1) == ks[0];
      FoldScramRemovals(s.(scram := s.scram - {ks[0]}), ks[1..]);
      assert ScramRemovals(ks)[1..] == ScramRemovals(ks[1..]);
      assert Elems(ks) == {ks[0]} + Elems(ks[1..]);
      assert s.scram - {ks[0]} - Elems(ks[1..]) == s.scram - Elems(ks);
    }
  }

  lemma {:induction false} FoldTokenRemovals(s: SecurityState, ks: seq<Str>)
    ensures Fold(SecurityStep, s, TokenRemovals(ks)) == s.(tokens := s.tokens - Elems(ks))
    ensures AllIn(SecurityGroup, TokenRemovals(ks))
    decreases |ks|
  {
    if ks == [] { assert s.tokens - Elems(ks) == s.tokens; }
    else {
      FoldTokenRemovals(s.(tokens := s.tokens - {ks[0]}), ks[1..]);
      assert TokenRemovals(ks)[1..] == TokenRemovals(ks[1..]);
      assert Elems(ks) == {ks[0]} + Elems(ks[1..]);
      assert s.tokens - {ks[0]} - Elems(ks[1..]) == s.tokens - Elems(ks);
    }
  }

  lemma FoldSecurity(x: Image, w: DowngradeWalk, target: int)
    requires WalksDowngrade(x, w)
    ensures Fold(SecurityStep, x.security, SecurityRemovals(w, target)) == ProjectSecurity(x.security, target)
    ensures AllIn(SecurityGroup, SecurityRemovals(w, target))
  {
    var s := x.security;
    var a := if target < CIDR_ACL_MIN_LEVEL then AclRemovals(w.acls) else [];
    var b := if target < SCRAM_MIN_LEVEL then ScramRemovals(w.scram) else [];
    var c := if target < DELEGATION_TOKEN_MIN_LEVEL then TokenRemovals(w.tokens) else [];
    FoldConcat(SecurityStep, s, a + b, c);
    FoldConcat(SecurityStep, s, a, b);
    FoldAclRemovals(s, w.acls);
    var s1 := Fold(SecurityStep, s, a);
    assert s.acls - Elems(w.acls) == set e | e in s.acls && !IsCidr(e);
    FoldScramRemovals(s1, w.scram);
    assert s.scram - Elems(w.scram) == map[];
    var s2 := Fold(SecurityStep, s1, b);
    FoldTokenRemovals(s2, w.tokens);
    assert s.tokens - Elems(w.tokens) == map[];
  }

  function ProjectListed(m: map<NodeId, BrokerRegistrationRecord>, ks: seq<NodeId>, target: int)
    : map<NodeId, BrokerRegistrationRecord>
  {
    map k | k in m :: if k in ks then ProjectBroker(m[k], target) else m[k]
  }

  lemma ProjectListedStep(m: map<NodeId, BrokerRegistrationRecord>, ks: seq<NodeId>, target: int)
    requires ks != [] && ks[0] in m && ks[0] !in ks[1..]
    ensures ProjectListed(m[ks[0] := ProjectBroker(m[ks[0]], target)], ks[1..], target) == ProjectListed(m, ks, target)
  {
    assert forall k :: k in ks <==> k == ks[0] || k in ks[1..];
  }

  lemma {:induction false} FoldBrokers(s: NodeState, ks: seq<NodeId>, target: int)
    requires Distinct(ks) && NodesKeyed(s) && forall k :: k in ks ==> k in s.brokers
    ensures Fold(NodeStep, s, BrokerRecords(s.brokers, ks, target)) == s.(brokers := ProjectListed(s.brokers, ks, target))
    ensures AllIn(NodeGroup, BrokerRecords(s.brokers, ks, target))
    decreases |ks|
  {
    if ks == [] {
      assert s.brokers == ProjectListed(s.brokers, ks, target);
    } else {
      var b := s.brokers[ks[0]];
      var s' := s.(brokers := s.brokers[ks[0] := ProjectBroker(b, target)]);
      assert ks[0] !in ks[1..];
      SameBrokerRecords(s.brokers, s'.brokers, ks[1..], target);
      FoldBrokers(s', ks[1..], target);
      ProjectListedStep(s.brokers, ks, target);
      BrokerStep(s, b, target, BrokerRecords(s.brokers, ks[1..], target));
    }
  }

  lemma BrokerStep(s: NodeState, b: BrokerRegistrationRecord, target: int, tail: seq<Record>)
    requires b.nodeId in s.brokers && s.brokers[b.nodeId] == b
    ensures var head := if ProjectBroker(b, target) != b then [V1BrokerRegistration(ProjectBroker(b, target))] else [];
            Fold(NodeStep, s, head + tail)
            == Fold(NodeStep, s.(brokers := s.brokers[b.nodeId := ProjectBroker(b, target)]), tail)
  {
    var r := V1BrokerRegistration(ProjectBroker(b, target));
    if ProjectBroker(b, target) != b {
      FoldConcat(NodeStep, s, [r], tail);
      FoldOne(NodeStep, s, r);
    } else {
      assert [] + tail == tail;
      assert s.brokers[b.nodeId := b] == s.brokers;
    }
  }

  lemma {:induction false} SameBrokerRecords(m: map<NodeId, BrokerRegistrationRecord>,
                                             m': map<NodeId, BrokerRegistrationRecord>, ks: seq<NodeId>, target: int)
    requires forall k :: k in ks ==> k in m && k in m' && m[k] == m'[k]
    ensures BrokerRecords(m, ks, target) == BrokerRecords(m', ks, target)
  {
    if ks != [] { SameBrokerRecords(m, m', ks[1..], target); }
  }

  lemma {:induction false} DirRecordsInGroup(p: PartitionRecord, n: nat)
    ensures AllIn(TopicGroup, DirRecords(p, n))
  {
    if n > 0 { DirRecordsInGroup(p, n - 1); }
  }

  lemma {:induction false} PartitionRecordsInGroup(m: map<Str, map<int, PartitionRecord>>, ks: seq<(Str, int)>)
    requires forall k :: k in ks ==> InNest(m, k.0, k.1)
    ensures AllIn(TopicGroup, PartitionRecords(m, ks))
  {
    if ks != [] {
      assert ks[0] in ks;
      DirRecordsInGroup(m[ks[0].0][ks[0].1], |m[ks[0].0][ks[0].1].replicas|);
      PartitionRecordsInGroup(m, ks[1..]);
    }
  }

  /** `s` with the stored partition `q`. */
  function Storing(s: TopicState, q: PartitionRecord): TopicState
  {
    s.(partitions := NestPut(s.partitions, q.topic, q.partition, q))
  }

  lemma AssignOne(s: TopicState, p: PartitionRecord, replica: NodeId)
    ensures TopicStep(Storing(s, p), V1PartitionDirAssignment(p.topic, p.partition, replica, MIGRATING))
         == Storing(s, AssignDirectory(p, replica, MIGRATING))
  {
    NestPutTwice(s.partitions, p.topic, p.partition, p, AssignDirectory(p, replica, MIGRATING));
  }

  /** The records of one partition clear that partition and nothing else. */
  lemma {:induction false} FoldDirRecords(s: TopicState, p: PartitionRecord, n: nat)
    requires n <= |p.replicas| && InNest(s.partitions, p.topic, p.partition)
    requires s.partitions[p.topic][p.partition] == p
    ensures Fold(TopicStep, s, DirRecords(p, n)) == Storing(s, Cleared(p, n))
    decreases n
  {
    if n == 0 {
      NestPutSame(s.partitions, p.topic, p.partition);
    } else {
      FoldDirRecords(s, p, n - 1);
      var before := DirRecords(p, n - 1);
      if NamesDirectory(p, n - 1) {
        var r := V1PartitionDirAssignment(p.topic, p.partition, p.replicas[n - 1], MIGRATING);
        FoldConcat(TopicStep, s, before, [r]);
        FoldOne(TopicStep, Storing(s, Cleared(p, n - 1)), r);
        AssignOne(s, Cleared(p, n - 1), p.replicas[n - 1]);
      } else {
        assert DirRecords(p, n) == before;
      }
    }
  }

  /** One topic with those of its partitions that `ks` lists cleared. */
  function ClearListed(parts: map<int, PartitionRecord>, t: Str, ks: seq<(Str, int)>): map<int, PartitionRecord>
  {
    map i | i in parts :: if (t, i) in ks then Cleared(parts[i], |parts[i].replicas|) else parts[i]
  }

  function ClearSome(m: map<Str, map<int, PartitionRecord>>, ks: seq<(Str, int)>): map<Str, map<int, PartitionRecord>>
  {
    map t | t in m :: ClearListed(m[t], t, ks)
  }

  lemma FoldOnePartition(s: TopicState, p: PartitionRecord, rest: seq<Record>)
    requires InNest(s.partitions, p.topic, p.partition) && s.partitions[p.topic][p.partition] == p
    ensures Fold(TopicStep, s, DirRecords(p, |p.replicas|) + rest)
         == Fold(TopicStep, Storing(s, Cleared(p, |p.replicas|)), rest)
  {
    FoldDirRecords(s, p, |p.replicas|);
    FoldConcat(TopicStep, s, DirRecords(p, |p.replicas|), rest);
  }

  /** Clearing the first listed partition leaves the others as they were. */
  lemma ClearHead(s: TopicState, ks: seq<(Str, int)>, q: PartitionRecord)
    requires Distinct(ks) && PartitionsKeyed(s) && forall k :: k in ks ==> InNest(s.partitions, k.0, k.1)
    requires ks != [] && q.topic == ks[0].0 && q.partition == ks[0].1
    ensures PartitionsKeyed(Storing(s, q)) && forall k :: k in ks[1..] ==> InNest(Storing(s, q).partitions, k.0, k.1)
    ensures PartitionRecords(s.partitions, ks[1..]) == PartitionRecords(Storing(s, q).partitions, ks[1..])
  {
    assert ks[0] !in ks[1..];
    PutKeepsPartitionsKeyed(s, q);
    forall k | k in ks[1..]
      ensures InNest(Storing(s, q).partitions, k.0, k.1) && s.partitions[k.0][k.1] == Storing(s, q).partitions[k.0][k.1]
    {
      assert k in ks && InNest(s.partitions, k.0, k.1);
    }
    SamePartitionRecords(s.partitions, Storing(s, q).partitions, ks[1..]);
  }

  lemma {:induction false} FoldPartitionsClear(s: TopicState, ks: seq<(Str, int)>)
    requires Distinct(ks) && PartitionsKeyed(s) && forall k :: k in ks ==> InNest(s.partitions, k.0, k.1)
    ensures Fold(TopicStep, s, PartitionRecords(s.partitions, ks)) == s.(partitions := ClearSome(s.partitions, ks))
    decreases |ks|
  {
    if ks == [] {
      assert forall t :: t in s.partitions ==> ClearListed(s.partitions[t], t, ks) == s.partitions[t];
    } else {
      assert ks[0] in ks && InNest(s.partitions, ks[0].0, ks[0].1) && ks[0] !in ks[1..];
      var p := s.partitions[ks[0].0][ks[0].1];
      var q := Cleared(p, |p.replicas|);
      ClearHead(s, ks, q);
      FoldOnePartition(s, p, PartitionRecords(s.partitions, ks[1..]));
      FoldPartitionsClear(Storing(s, q), ks[1..]);
      ClearSomeStep(s.partitions, ks);
    }
  }

  lemma ClearSomeStep(m: map<Str, map<int, PartitionRecord>>, ks: seq<(Str, int)>)
    requires ks != [] && ks[0] !in ks[1..] && InNest(m, ks[0].0, ks[0].1)
    ensures var p := m[ks[0].0][ks[0].1];
            ClearSome(NestPut(m, ks[0].0, ks[0].1, Cleared(p, |p.replicas|)), ks[1..]) == ClearSome(m, ks)
  {
    var p := m[ks[0].0][ks[0].1];
    var m' := NestPut(m, ks[0].0, ks[0].1, Cleared(p, |p.replicas|));
    assert forall k :: k in ks <==> k == ks[0] || k in ks[1..];
    forall t | t in m ensures ClearListed(m'[t], t, ks[1..]) == ClearListed(m[t], t, ks) {
    }
  }

  lemma {:induction false} SamePartitionRecords(m: map<Str, map<int, PartitionRecord>>,
                                                m': map<Str, map<int, PartitionRecord>>, ks: seq<(Str, int)>)
    requires forall k :: k in ks ==> InNest(m, k.0, k.1) && InNest(m', k.0, k.1) && m[k.0][k.1] == m'[k.0][k.1]
    ensures PartitionRecords(m, ks) == PartitionRecords(m', ks)
  {
    if ks != [] { SamePartitionRecords(m, m', ks[1..]); }
  }

  /** Applying the emitted records yields exactly the projected image. */
  lemma DowngradeIs(x: Image, w: DowngradeWalk, target: int)
    requires AnyLogInv(x) && WalksDowngrade(x, w)
    ensures Replay(x, DowngradeRecords(x, w, target)) == Downgraded(x, target)
  {
    WalkedKeys(x, w);
    var a, b := SecurityRemovals(w, target), BrokerRecords(x.nodes.brokers, w.brokers, target);
    var c := if target < DIRECTORY_ASSIGNMENT_MIN_LEVEL then PartitionRecords(x.topics.partitions, w.partitions) else [];
    ReplayConcat(x, a + b, c);
    ReplayConcat(x, a, b);
    FoldSecurity(x, w, target);
    ReplayInGroup(x, SecurityGroup, a);
    var x1 := x.(security := ProjectSecurity(x.security, target));
    FoldBrokers(x.nodes, w.brokers, target);
    ReplayInGroup(x1, NodeGroup, b);
    AllBrokers(x.nodes.brokers, w.brokers, target);
    var x2 := x1.(nodes := x.nodes.(brokers := ProjectBrokers(x.nodes.brokers, target)));
    FoldPartitionsClear(x.topics, w.partitions);
    PartitionRecordsInGroup(x.topics.partitions, w.partitions);
    ReplayInGroup(x2, TopicGroup, c);
    AllPartitions(x.topics.partitions, w.partitions);
  }

  lemma AllBrokers(m: map<NodeId, BrokerRegistrationRecord>, ks: seq<NodeId>, target: int)
    requires Enumerates(ks, m.Keys)
    ensures ProjectListed(m, ks, target) == ProjectBrokers(m, target)
  {
    assert forall k :: k in m ==> k in Elems(ks);
  }

  lemma AllPartitions(m: map<Str, map<int, PartitionRecord>>, ks: seq<(Str, int)>)
    requires Enumerates(ks, FlatKeys(m))
    ensures ClearSome(m, ks) == ClearAll(m)
  {
    forall t | t in m ensures ClearListed(m[t], t, ks) == ClearAll(m)[t] {
      forall i | i in m[t] ensures (t, i) in ks {
        assert (t, i) in FlatKeys(m);
        assert (t, i) in Elems(ks);
      }
    }
  }

  // ----- sound and complete -----

  /** After the downgrade the image fits the target. */
  lemma DowngradeIsSound(x: Image, w: DowngradeWalk, target: int)
    requires AnyLogInv(x) && WalksDowngrade(x, w) && target >= METADATA_VERSION_MIN
    ensures MinRequired(Replay(x, DowngradeRecords(x, w, target)).security) <= target
  {
    DowngradeIs(x, w, target);
  }

  /** State of the image that a level cannot hold: a SCRAM credential, a delegation token or
      an entry for a block of hosts below the level that brought it. */
  ghost predicate Gated(s: SecurityState, target: int)
  {
    || (target < SCRAM_MIN_LEVEL && exists k :: k in s.scram)
    || (target < DELEGATION_TOKEN_MIN_LEVEL && exists id :: id in s.tokens)
    || (target < CIDR_ACL_MIN_LEVEL && exists e :: e in s.acls && IsCidr(e))
  }

  /** The floor is exact: it is at most a level if and only if the level can hold the image,
      and then the downgrade to it removes nothing of what is gated. */
  lemma FloorIsExact(s: SecurityState, target: int)
    requires target >= METADATA_VERSION_MIN
    ensures MinRequired(s) >= METADATA_VERSION_MIN
    ensures MinRequired(s) <= target <==> !Gated(s, target)
    ensures MinRequired(s) <= target <==> ProjectSecurity(s, target) == s
  {
    assert |s.scram| == 0 <==> s.scram == map[];
    assert |s.tokens| == 0 <==> s.tokens == map[];
    if s.scram != map[] { assert exists k :: k in s.scram; }
    if s.tokens != map[] { assert exists id :: id in s.tokens; }
    var plain := set e | e in s.acls && !IsCidr(e);
    if e :| e in s.acls && IsCidr(e) { assert e !in plain; } else { assert plain == s.acls; }
  }

  /** The floor of an image is where its downgrades begin to cost: to that level the records
      leave the gated state alone, to any level below they take some of it. */
  lemma FloorIsWhereLossBegins(x: Image, w: DowngradeWalk, target: int)
    requires AnyLogInv(x) && WalksDowngrade(x, w) && target >= METADATA_VERSION_MIN
    ensures Replay(x, DowngradeRecords(x, w, target)).security == x.security <==> MinRequired(x.security) <= target
  {
    DowngradeIs(x, w, target);
    FloorIsExact(x.security, target);
  }

  /** What each reader finds after the records: credentials, tokens, entries and log
      directories of the levels that the target has, and everything else as it was. */
  lemma WhatSurvives(x: Image, w: DowngradeWalk, target: int)
    requires AnyLogInv(x) && WalksDowngrade(x, w)
    ensures var y := Replay(x, DowngradeRecords(x, w, target));
            && (forall k :: k in y.security.scram <==> k in x.security.scram && target >= SCRAM_MIN_LEVEL)
            && (forall k :: k in y.security.scram && k in x.security.scram ==> y.security.scram[k] == x.security.scram[k])
            && (forall id :: id in y.security.tokens <==> id in x.security.tokens && target >= DELEGATION_TOKEN_MIN_LEVEL)
            && (forall id :: id in y.security.tokens && id in x.security.tokens ==> y.security.tokens[id] == x.security.tokens[id])
            && (forall e :: e in y.security.acls <==> e in x.security.acls && (target >= CIDR_ACL_MIN_LEVEL || '/' !in e.host))
  {
    DowngradeIs(x, w, target);
  }

  lemma WhichDirectoriesSurvive(x: Image, w: DowngradeWalk, target: int)
    requires AnyLogInv(x) && WalksDowngrade(x, w)
    ensures var y := Replay(x, DowngradeRecords(x, w, target));
            && y.nodes.brokers.Keys == x.nodes.brokers.Keys
            && (forall n :: n in x.nodes.brokers ==>
                  y.nodes.brokers[n]
                  == x.nodes.brokers[n].(logDirs := if target >= DIRECTORY_ASSIGNMENT_MIN_LEVEL then x.nodes.brokers[n].logDirs else [],
                                         cordonedLogDirs := if target >= CORDONED_LOG_DIRS_MIN_LEVEL
                                                            then x.nodes.brokers[n].cordonedLogDirs else None))
            && (target >= DIRECTORY_ASSIGNMENT_MIN_LEVEL ==> y.topics == x.topics)
            && y.configs == x.configs && y.guard == x.guard && y.control == x.control
            && y.nodes.controllers == x.nodes.controllers
  {
    DowngradeIs(x, w, target);
  }

  /** Below the directory level every partition keeps all but its directories, and of those
      the slots without a replica and the repeated listings of one. */
  lemma WhichSlotsSurvive(x: Image, w: DowngradeWalk, target: int, t: Str, i: int, j: nat)
    requires AnyLogInv(x) && WalksDowngrade(x, w) && target < DIRECTORY_ASSIGNMENT_MIN_LEVEL
    ensures var y := Replay(x, DowngradeRecords(x, w, target));
            && (InNest(y.topics.partitions, t, i) <==> InNest(x.topics.partitions, t, i))
            && (InNest(x.topics.partitions, t, i) ==>
                  var p, q := x.topics.partitions[t][i], y.topics.partitions[t][i];
                  && q == p.(directories := q.directories) && |p.directories| <= |q.directories|
                  && (j < |p.directories| ==>
                        q.directories[j] == if j < |p.replicas| && !Shadowed(p, j) then MIGRATING else p.directories[j]))
  {
    DowngradeIs(x, w, target);
    if InNest(x.topics.partitions, t, i) {
      var p := x.topics.partitions[t][i];
      ClearedSlot(p, |p.replicas|, j);
    }
  }

  /** No partition lists a replica twice with a directory named at the second
      listing. Distinct replicas imply it. */
  ghost predicate NoShadowedDirectory(s: TopicState)
  {
    forall k :: !Shadows(s.partitions, k)
  }

  lemma DistinctReplicasSuffice(s: TopicState)
    requires forall t, i :: InNest(s.partitions, t, i) ==> Distinct(s.partitions[t][i].replicas)
    ensures NoShadowedDirectory(s)
  {
    forall k: (Str, int) | InNest(s.partitions, k.0, k.1) ensures !Shadows(s.partitions, k) {
      var replicas := s.partitions[k.0][k.1].replicas;
      assert forall j :: 0 <= j < |replicas| ==> Position(replicas, replicas[j]) == j;
    }
  }

  lemma {:induction false} SilentPartition(p: PartitionRecord, n: nat)
    ensures DirRecords(p, n) == [] <==> forall j: nat :: j < n ==> !NamesDirectory(p, j)
    decreases n
  {
    if n > 0 { SilentPartition(p, n - 1); }
  }

  lemma {:induction false} SilentPartitions(m: map<Str, map<int, PartitionRecord>>, ks: seq<(Str, int)>)
    requires forall k :: k in ks ==> InNest(m, k.0, k.1)
    ensures PartitionRecords(m, ks) == [] <==> forall k :: k in ks ==> !Named(m, k)
  {
    if ks != [] {
      SilentPartitions(m, ks[1..]);
      assert ks[0] in ks;
      var p := m[ks[0].0][ks[0].1];
      SilentPartition(p, |p.replicas|);
      assert forall k :: k in ks <==> k == ks[0] || k in ks[1..];
      assert (forall j: nat :: j < |p.replicas| ==> !NamesDirectory(p, j)) <==> !Named(m, ks[0]);
    }
  }

  lemma {:induction false} SilentBrokers(m: map<NodeId, BrokerRegistrationRecord>, ks: seq<NodeId>, target: int)
    requires forall k :: k in ks ==> k in m && ProjectBroker(m[k], target) == m[k]
    ensures BrokerRecords(m, ks, target) == []
  {
    if ks != [] { SilentBrokers(m, ks[1..], target); }
  }

  /** A second downgrade to the same level emits nothing, exactly when no
      directory hides behind a repeated replica. */
  lemma SecondDowngradeIsSilent(x: Image, target: int, w': DowngradeWalk)
    requires AnyLogInv(x) && target < DIRECTORY_ASSIGNMENT_MIN_LEVEL
    requires WalksDowngrade(Downgraded(x, target), w')
    ensures DowngradeRecords(Downgraded(x, target), w', target) == [] <==> NoShadowedDirectory(x.topics)
  {
    var y := Downgraded(x, target);
    WalkedKeys(y, w');
    SecurityIsSilent(x, target, w');
    SilentBrokers(y.nodes.brokers, w'.brokers, target);
    SilentPartitions(y.topics.partitions, w'.partitions);
    ClearedIsSilent(x.topics.partitions, w'.partitions);
  }

  /** `(t, i)` names a partition with a directory in some slot. */
  ghost predicate Named(m: map<Str, map<int, PartitionRecord>>, k: (Str, int))
  {
    InNest(m, k.0, k.1) && exists j: nat :: NamesDirectory(m[k.0][k.1], j)
  }

  /** A named directory at a repeated listing of a replica. */
  ghost predicate Shadows(m: map<Str, map<int, PartitionRecord>>, k: (Str, int))
  {
    InNest(m, k.0, k.1) && exists j: nat :: NamesDirectory(m[k.0][k.1], j) && Shadowed(m[k.0][k.1], j)
  }

  lemma ClearedIsSilent(m: map<Str, map<int, PartitionRecord>>, ks: seq<(Str, int)>)
    requires Enumerates(ks, FlatKeys(ClearAll(m)))
    ensures (forall k :: k in ks ==> !Named(ClearAll(m), k)) <==> forall k :: !Shadows(m, k)
  {
    var c := ClearAll(m);
    forall k: (Str, int) | InNest(m, k.0, k.1)
      ensures k in ks && (Named(c, k) <==> Shadows(m, k))
    {
      assert InNest(c, k.0, k.1) && c[k.0][k.1] == Cleared(m[k.0][k.1], |m[k.0][k.1].replicas|);
      assert k in FlatKeys(c);
      assert k in Elems(ks);
      ClearedNamesNothing(m[k.0][k.1]);
    }
    forall k | k in ks ensures InNest(m, k.0, k.1) { assert k in Elems(ks); }
  }

  lemma SecurityIsSilent(x: Image, target: int, w: DowngradeWalk)
    requires WalksDowngrade(Downgraded(x, target), w)
    ensures SecurityRemovals(w, target) == []
  {
    var s := Downgraded(x, target).security;
    if target < CIDR_ACL_MIN_LEVEL {
      assert (set e | e in s.acls && IsCidr(e)) == {};
      EmptyWalk(w.acls);
    }
    if target < SCRAM_MIN_LEVEL {
      assert s.scram.Keys == {};
      EmptyWalk(w.scram);
    }
    if target < DELEGATION_TOKEN_MIN_LEVEL {
      assert s.tokens.Keys == {};
      EmptyWalk(w.tokens);
    }
  }

  /** At and above the directory level no such condition is needed. */
  lemma SecondDowngradeIsSilentAbove(x: Image, target: int, w': DowngradeWalk)
    requires AnyLogInv(x) && target >= DIRECTORY_ASSIGNMENT_MIN_LEVEL
    requires WalksDowngrade(Downgraded(x, target), w')
    ensures DowngradeRecords(Downgraded(x, target), w', target) == []
  {
    WalkedKeys(Downgraded(x, target), w');
    SecurityIsSilent(x, target, w');
    SilentBrokers(Downgraded(x, target).nodes.brokers, w'.brokers, target);
  }

  /** An empty list of records is a lossless downgrade: nothing would change, and
      then the image already fits the target. */
  lemma NoRecordsMeansLossless(x: Image, w: DowngradeWalk, target: int)
    requires AnyLogInv(x) && WalksDowngrade(x, w) && target >= METADATA_VERSION_MIN
    requires DowngradeRecords(x, w, target) == []
    ensures Downgraded(x, target) == x && MinRequired(x.security) <= target
  {
    DowngradeIs(x, w, target);
    DowngradeIsSound(x, w, target);
  }

  // ----- a downgrade that is not silent the second time -----

  /** Replica 1 is listed twice, and its second listing names a directory. */
  const REPEATED: PartitionRecord := PartitionRecord("t", 0, 1, [1, 1], [1], 0, [], [], [MIGRATING, 5], 0)

  lemma RepeatedImage(clusterId: Uuid)
    ensures var log := [V1Topic(TopicRecord("t", 7, 1, 2)), V1Partition(REPEATED)];
            && Validated(New(clusterId), log)
            && Replay(New(clusterId), log).topics.partitions == map["t" := map[0 := REPEATED]]
  {
    var a, b, n := V1Topic(TopicRecord("t", 7, 1, 2)), V1Partition(REPEATED), New(clusterId);
    assert [a, b][1..] == [b] && [b][1..] == [];
    var x1 := Apply(n, a);
    assert x1.topics.topics == map["t" := TopicRecord("t", 7, 0, 2)];
    assert Replay(x1, [b]) == Apply(x1, b);
  }

  /** An admitted log after which the emitted records do not finish the downgrade: the
      second call emits a record again, in every order of walking the tables. */
  lemma RepeatedReplicaIsNotSilent(clusterId: Uuid, target: int)
    requires METADATA_VERSION_MIN <= target < DIRECTORY_ASSIGNMENT_MIN_LEVEL
    ensures var log := [V1Topic(TopicRecord("t", 7, 1, 2)), V1Partition(REPEATED)];
            var x := Replay(New(clusterId), log);
            && Validated(New(clusterId), log)
            && forall w' :: WalksDowngrade(Downgraded(x, target), w') ==>
                 DowngradeRecords(Downgraded(x, target), w', target) != []
  {
    var log := [V1Topic(TopicRecord("t", 7, 1, 2)), V1Partition(REPEATED)];
    var x := Replay(New(clusterId), log);
    RepeatedImage(clusterId);
    NewIsReachable(clusterId);
    ValidatedLog(New(clusterId), log);
    assert NamesDirectory(REPEATED, 1) && Shadowed(REPEATED, 1);
    assert Shadows(x.topics.partitions, ("t", 0));
    forall w' | WalksDowngrade(Downgraded(x, target), w')
      ensures DowngradeRecords(Downgraded(x, target), w', target) != []
    {
      SecondDowngradeIsSilent(x, target, w');
    }
  }
}
