/** The write-freeze lookup and the break-glass workflow of
    `crates/metadata/src/image.rs`. */
module ImageGuard {
  import opened Base
  import opened Collections
  import opened MetadataRecords
  import opened Images

  // ----- topic_freeze -----

  predicate Covers(m: map<Str, TopicFreezeRecord>, scope: Str, topic: Str)
  {
    scope in m && scope <= topic
  }

  /** What the lookup means: an internal topic is never frozen, a literal entry
      beats every prefix, and among the prefixes the longest wins. */
  ghost predicate IsFreezeOf(s: GuardState, topic: Str, r: Option<TopicFreezeRecord>)
  {
    if "__" <= topic then r.None?
    else if topic in s.freezesLiteral then r == Some(s.freezesLiteral[topic])
    else if r.None? then forall scope :: !Covers(s.freezesPrefixed, scope, topic)
    else exists scope ::
      && Covers(s.freezesPrefixed, scope, topic) && r.value == s.freezesPrefixed[scope]
      && forall other :: Covers(s.freezesPrefixed, other, topic) ==> |other| <= |scope|
  }

  predicate IsGreatest(k: Str, s: set<Str>)
  {
    k in s && forall x :: x in s ==> StrLeq(x, k)
  }

  lemma {:induction false} GreatestExists(s: set<Str>)
    requires s != {}
    ensures exists k :: IsGreatest(k, s)
    decreases |s|
  {
    var x := Member(s);
    StrLeqTotal(x, x);
    if s == {x} {
      assert IsGreatest(x, s);
    } else {
      var rest := s - {x};
      assert s == rest + {x};
      GreatestExists(rest);
      var r :| IsGreatest(r, rest);
      StrLeqTotal(x, r);
      if StrLeq(x, r) {
        assert IsGreatest(r, s);
      } else {
        forall y | y in s ensures StrLeq(y, x) {
          if y != x { StrLeqTransitive(y, r, x); }
        }
        assert IsGreatest(x, s);
      }
    }
  }

  /** Among the prefixes of one string, the one that sorts higher is longer. */
  lemma HigherPrefixIsLonger(a: Str, b: Str, topic: Str)
    requires a <= topic && b <= topic && StrLeq(a, b)
    ensures |a| <= |b|
  {
    if |b| < |a| {
      assert b == a[..|b|];
      PrefixSortsBelow(b, a);
      StrLeqTotal(a, b);
    }
  }

  /** `topic_freeze`: the keys at or below the topic, walked downwards, up to
      the first that the topic starts with. */
  method TopicFreeze(s: GuardState, topic: Str) returns (r: Option<TopicFreezeRecord>)
    ensures IsFreezeOf(s, topic, r)
  {
    if |s.freezesLiteral| == 0 && |s.freezesPrefixed| == 0 { return None; }
    if "__" <= topic { return None; }
    if topic in s.freezesLiteral { return Some(s.freezesLiteral[topic]); }
    var rest := set scope | scope in s.freezesPrefixed && StrLeq(scope, topic);
    forall scope | Covers(s.freezesPrefixed, scope, topic) ensures scope in rest {
      PrefixSortsBelow(scope, topic);
    }
    while rest != {}
      invariant rest <= s.freezesPrefixed.Keys
      invariant forall scope :: Covers(s.freezesPrefixed, scope, topic) ==> scope in rest
      decreases |rest|
    {
      GreatestExists(rest);
      var k :| k in rest && IsGreatest(k, rest);
      if k <= topic {
        forall other | Covers(s.freezesPrefixed, other, topic) ensures |other| <= |k| {
          HigherPrefixIsLonger(other, k, topic);
        }
        assert Covers(s.freezesPrefixed, k, topic);
        return Some(s.freezesPrefixed[k]);
      }
      rest := rest - {k};
    }
    r := None;
  }

  /** The meaning leaves no choice. */
  lemma FreezeIsUnique(s: GuardState, topic: Str, a: Option<TopicFreezeRecord>, b: Option<TopicFreezeRecord>)
    requires IsFreezeOf(s, topic, a) && IsFreezeOf(s, topic, b)
    ensures a == b
  {
    if !("__" <= topic) && topic !in s.freezesLiteral && a.Some? && b.Some? {
      var p :| Covers(s.freezesPrefixed, p, topic) && a.value == s.freezesPrefixed[p]
               && forall other :: Covers(s.freezesPrefixed, other, topic) ==> |other| <= |p|;
      var q :| Covers(s.freezesPrefixed, q, topic) && b.value == s.freezesPrefixed[q]
               && forall other :: Covers(s.freezesPrefixed, other, topic) ==> |other| <= |q|;
      assert |p| == |q| && p == topic[..|p|] && q == topic[..|q|];
    }
  }

  // ----- break-glass proposals -----

  /** One atomic submission: the record is applied only if it is admitted. */
  function Submit(x: Image, r: Record): Image
  {
    if Validate(x, r).None? then Apply(x, r) else x
  }

  function SubmitAll(x: Image, rs: seq<Record>): Image
    decreases |rs|
  {
    if rs == [] then x else SubmitAll(Submit(x, rs[0]), rs[1..])
  }

  ghost predicate Keeps(rs: seq<Record>, id: Uuid)
  {
    forall i :: 0 <= i < |rs| ==> rs[i] != V1DeleteBreakGlassProposal(id)
  }

  predicate Settled(p: BreakGlassProposalRecord)
  {
    p.consumedAtMs != 0 || p.withdrawn
  }

  /** From one stored version of a proposal to a later one: approvals are only
      appended, and a settled proposal is final. */
  ghost predicate Evolves(p: BreakGlassProposalRecord, q: BreakGlassProposalRecord)
  {
    p.approvals <= q.approvals && (Settled(p) ==> q == p)
  }

  lemma SubmitEvolves(x: Image, r: Record, id: Uuid)
    requires id in x.guard.breakGlass && r != V1DeleteBreakGlassProposal(id)
    ensures id in Submit(x, r).guard.breakGlass
    ensures Evolves(x.guard.breakGlass[id], Submit(x, r).guard.breakGlass[id])
  {
    if r.V1BreakGlassProposal? && r.proposal.proposalId == id {
      assert Validate(x, r) == ValidateProposal(x.guard, r.proposal);
    }
  }

  /** Over any run that does not delete the proposal. */
  lemma {:induction false} ProposalEvolves(x: Image, rs: seq<Record>, id: Uuid)
    requires id in x.guard.breakGlass && Keeps(rs, id)
    ensures id in SubmitAll(x, rs).guard.breakGlass
    ensures Evolves(x.guard.breakGlass[id], SubmitAll(x, rs).guard.breakGlass[id])
    decreases |rs|
  {
    if rs != [] {
      SubmitEvolves(x, rs[0], id);
      ProposalEvolves(Submit(x, rs[0]), rs[1..], id);
    }
  }

  /** Two approvals built from the same stored list: once one is accepted, the
      other can be accepted, however much later, only if it extends the first. */
  lemma ConcurrentApprovals(x: Image, p: BreakGlassProposalRecord, between: seq<Record>, q: BreakGlassProposalRecord)
    requires p.proposalId == q.proposalId && Keeps(between, p.proposalId)
    requires Validate(x, V1BreakGlassProposal(p)).None?
    requires Validate(SubmitAll(Apply(x, V1BreakGlassProposal(p)), between), V1BreakGlassProposal(q)).None?
    ensures p.approvals <= q.approvals && !Settled(p)
  {
    var y := Apply(x, V1BreakGlassProposal(p));
    assert y.guard.breakGlass[p.proposalId] == p;
    ProposalEvolves(y, between, p.proposalId);
  }

  /** Two approvers who each append a different entry to the list they read
      cannot both succeed: no approval is ever overwritten. */
  lemma RivalApprovalIsRefused(x: Image, p: BreakGlassProposalRecord, between: seq<Record>,
                               q: BreakGlassProposalRecord, stored: seq<BreakGlassApproval>,
                               a: BreakGlassApproval, b: BreakGlassApproval)
    requires p.proposalId == q.proposalId && Keeps(between, p.proposalId)
    requires p.approvals == stored + [a] && q.approvals == stored + [b] && a != b
    requires Validate(x, V1BreakGlassProposal(p)).None?
    ensures Validate(SubmitAll(Apply(x, V1BreakGlassProposal(p)), between), V1BreakGlassProposal(q)).Some?
  {
    assert p.approvals[|stored|] == a && q.approvals[|stored|] == b;
    if Validate(SubmitAll(Apply(x, V1BreakGlassProposal(p)), between), V1BreakGlassProposal(q)).None? {
      ConcurrentApprovals(x, p, between, q);
    }
  }
}
