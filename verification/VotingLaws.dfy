/** What the vote count guarantees while voting stops at the first verdict. */
module VotingLaws {
  import opened ExecutionRows
  import opened ApprovalRules

  /** One decision per actor, and no verdict before the last one. */
  ghost predicate History(mode: DecisionMode, required: int, ds: seq<Decision>) {
    && required >= 1
    && (forall i, j | 0 <= i < j < |ds| :: ds[i].actor != ds[j].actor)
    && (forall k | 0 <= k < |ds| :: Aggregate(mode, required, ds[..k]) == Ok(None))
  }

  /** The most votes a request can take. */
  function MaxVotes(mode: DecisionMode, required: int): int {
    match mode
    case Any => 1
    case All => required
    case Quorum => 2 * required - 1
  }

  lemma {:induction false} CountsAddUp(ds: seq<Decision>)
    ensures Count(ds, Approve) + Count(ds, Reject) == |ds|
  {
    if ds != [] { CountsAddUp(ds[..|ds| - 1]); }
  }

  lemma {:induction false} CountIsMultiplicity(ds: seq<Decision>, v: Vote)
    ensures Count(ds, v) == multiset(Map((d: Decision) => d.vote, ds))[v]
  {
    if ds != [] {
      var init := ds[..|ds| - 1];
      CountIsMultiplicity(init, v);
      assert Map((d: Decision) => d.vote, ds) == Map((d: Decision) => d.vote, init) + [ds[|ds| - 1].vote];
    }
  }

  /** Voting ends within MaxVotes, and a full ballot box always holds a verdict. */
  lemma VotingEnds(mode: DecisionMode, required: int, ds: seq<Decision>)
    requires History(mode, required, ds)
    ensures |ds| <= MaxVotes(mode, required)
    ensures |ds| == MaxVotes(mode, required) ==> Aggregate(mode, required, ds).value.Some?
  {
    CountsAddUp(ds);
    if ds != [] {
      var init := ds[..|ds| - 1];
      assert Aggregate(mode, required, init) == Ok(None);
      CountsAddUp(init);
    }
  }

  /** Both verdicts are never supported by the same votes. */
  lemma ThresholdsExclude(mode: DecisionMode, required: int, ds: seq<Decision>)
    requires History(mode, required, ds)
    ensures mode.Any? ==> Count(ds, Approve) == 0 || Count(ds, Reject) == 0
    ensures mode.All? ==> Count(ds, Approve) < required || Count(ds, Reject) == 0
    ensures mode.Quorum? ==> Count(ds, Approve) < required || Count(ds, Reject) < required
  {
    if ds != [] {
      assert Aggregate(mode, required, ds[..|ds| - 1]) == Ok(None);
    }
  }

  /** The verdict depends on the multiset of votes, not on who voted or in what order. */
  lemma VerdictIgnoresOrder(mode: DecisionMode, required: int, ds: seq<Decision>, es: seq<Decision>)
    requires multiset(Map((d: Decision) => d.vote, ds)) == multiset(Map((d: Decision) => d.vote, es))
    ensures Aggregate(mode, required, ds) == Aggregate(mode, required, es)
  {
    forall v: Vote ensures Count(ds, v) == Count(es, v) {
      CountIsMultiplicity(ds, v);
      CountIsMultiplicity(es, v);
    }
    assert Count(ds, Approve) == Count(es, Approve);
  }

  // ---- verdicts and voters ---------------------------------------------------------

  /** Those who voted so. */
  function Voters(ds: seq<Decision>, v: Vote): set<UserId> {
    set k | 0 <= k < |ds| && ds[k].vote == v :: ds[k].actor
  }

  lemma {:induction false} VotersCounted(ds: seq<Decision>, v: Vote)
    requires forall i, j | 0 <= i < j < |ds| :: ds[i].actor != ds[j].actor
    ensures |Voters(ds, v)| == Count(ds, v)
  {
    if ds != [] {
      var init, last := ds[..|ds| - 1], ds[|ds| - 1];
      VotersCounted(init, v);
      LastVoter(ds, v);
    }
  }

  lemma LastVoter(ds: seq<Decision>, v: Vote)
    requires ds != [] && forall i, j | 0 <= i < j < |ds| :: ds[i].actor != ds[j].actor
    ensures var init, last := ds[..|ds| - 1], ds[|ds| - 1];
      && Voters(ds, v) == Voters(init, v) + (if last.vote == v then {last.actor} else {})
      && last.actor !in Voters(init, v)
  {
    var init, last := ds[..|ds| - 1], ds[|ds| - 1];
    assert ds == init + [last];
    forall a | a in Voters(ds, v) && a !in Voters(init, v) ensures last.vote == v && a == last.actor {
      var k :| 0 <= k < |ds| && ds[k].vote == v && ds[k].actor == a;
    }
    forall a | a in Voters(init, v) ensures a in Voters(ds, v) && a != last.actor {
      var k :| 0 <= k < |init| && init[k].vote == v && init[k].actor == a;
      assert ds[k] == init[k];
    }
  }

  /** How many different voters a verdict takes: one for ANY, and one to reject under ALL;
      otherwise as many as the policy requires. */
  function Needed(mode: DecisionMode, required: int, v: Vote): int {
    if mode.Quorum? || (mode.All? && v.Approve?) then required else 1
  }

  ghost predicate Reached(mode: DecisionMode, required: int, ds: seq<Decision>, v: Vote) {
    |Voters(ds, v)| >= Needed(mode, required, v)
  }

  /** The verdict by the people behind it: APPROVED when enough different people approved,
      REJECTED when enough rejected, and none while neither side has enough.  It is never both. */
  lemma VerdictByVoters(mode: DecisionMode, required: int, ds: seq<Decision>)
    requires History(mode, required, ds)
    ensures Aggregate(mode, required, ds) == Ok(Some(ApprovalStatus.Approved)) <==> Reached(mode, required, ds, Approve)
    ensures Aggregate(mode, required, ds) == Ok(Some(ApprovalStatus.Rejected)) <==> Reached(mode, required, ds, Reject)
    ensures Aggregate(mode, required, ds) == Ok(None) <==>
      !Reached(mode, required, ds, Approve) && !Reached(mode, required, ds, Reject)
  {
    ThresholdsExclude(mode, required, ds);
    VotersCounted(ds, Approve);
    VotersCounted(ds, Reject);
  }

  function Opposite(ds: seq<Decision>): seq<Decision> {
    Map((d: Decision) => d.(vote := if d.vote.Approve? then Reject else Approve), ds)
  }

  lemma {:induction false} OppositeCounts(ds: seq<Decision>)
    ensures Count(Opposite(ds), Approve) == Count(ds, Reject) && Count(Opposite(ds), Reject) == Count(ds, Approve)
  {
    if ds != [] {
      OppositeCounts(ds[..|ds| - 1]);
      assert Opposite(ds)[..|ds| - 1] == Opposite(ds[..|ds| - 1]);
    }
  }

  /** QUORUM knows no sides: if everyone votes the other way, so does the verdict. */
  lemma QuorumIsSymmetric(required: int, ds: seq<Decision>)
    requires History(DecisionMode.Quorum, required, ds)
    ensures var verdict := Aggregate(DecisionMode.Quorum, required, ds).value;
      Aggregate(DecisionMode.Quorum, required, Opposite(ds)) == Ok(
        if verdict == Some(ApprovalStatus.Approved) then Some(ApprovalStatus.Rejected)
        else if verdict == Some(ApprovalStatus.Rejected) then Some(ApprovalStatus.Approved)
        else None)
  {
    OppositeCounts(ds);
    ThresholdsExclude(DecisionMode.Quorum, required, ds);
  }

  /** APPROVED means that many different people approved: one for ANY. */
  lemma ApprovedByEnough(mode: DecisionMode, required: int, ds: seq<Decision>)
    requires History(mode, required, ds)
    requires Aggregate(mode, required, ds) == Ok(Some(ApprovalStatus.Approved))
    ensures |Voters(ds, Approve)| >= (if mode.Any? then 1 else required)
  {
    VotersCounted(ds, Approve);
  }

  lemma HistoryGrows(mode: DecisionMode, required: int, ds: seq<Decision>, d: Decision)
    requires History(mode, required, ds) && Aggregate(mode, required, ds) == Ok(None)
    requires !HasVoted(ds, d.actor)
    ensures History(mode, required, ds + [d])
  {
    var es := ds + [d];
    forall k | 0 <= k < |es| ensures Aggregate(mode, required, es[..k]) == Ok(None) {
      assert k < |ds| ==> es[..k] == ds[..k];
      assert es[..|ds|] == ds;
    }
  }
}
