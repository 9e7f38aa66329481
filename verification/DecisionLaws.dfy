/**
 Which requests can be decided and what is then recorded, said of the stored request and of the call, and what a request
 reconcile writes.
 */
module DecisionLaws {
  import opened Text
  import opened Requests
  import opened RequestLaws

  // ----- a decision -----

  /** Ninety days, in nanoseconds. */
  const NINETY_DAYS: int := 90 * 24 * 60 * 60 * 1_000_000_000

  /** The request stands to be decided: not withdrawn, and new, pending, waiting, or sent back for changes. */
  predicate Undecided(r: Request) {
    && !r.withdrawn
    && (r.status.phase == Unset || r.status.phase == Pending || r.status.phase == AwaitingDecision
        || r.status.phase == ChangesRequested)
  }

  /** The call names an outcome, and for a grant a time longer than none, or no time. */
  predicate SaysWhat(outcome: Option<Outcome>, duration: Option<Option<int>>) {
    && outcome.Some?
    && (outcome == Some(OutcomeApproved) ==> duration == None || (duration.value.Some? && duration.value.value > 0))
  }

  /**
   A decision is recorded if and only if the request is there and undecided, its evidence has the digest that was
   seen, and the call says what is decided (under a name that is free).
   */
  lemma AcceptedIff(c: Cluster, request: string, seen: string, outcome: Option<Outcome>, reason: string,
                    duration: Option<Option<int>>, actor: string, now: int, name: string)
    ensures DecideOn(c, request, seen, outcome, reason, duration, actor, now, name).Decided? <==>
      && request in c.requests && Undecided(c.requests[request])
      && seen != "" && seen == c.requests[request].status.evidenceDigest
      && SaysWhat(outcome, duration) && name !in c.decisions
  {
  }

  /** Each refusal, and what comes before it. */
  lemma RefusedBecause(c: Cluster, request: string, seen: string, outcome: Option<Outcome>, reason: string,
                       duration: Option<Option<int>>, actor: string, now: int, name: string)
    ensures var result := DecideOn(c, request, seen, outcome, reason, duration, actor, now, name);
      && (result == Refused(NotFound) <==> request !in c.requests)
      && (result == Refused(NotOpen) <==> request in c.requests && !Undecided(c.requests[request]))
      && (request in c.requests && Undecided(c.requests[request]) ==>
            var digest := c.requests[request].status.evidenceDigest;
            && (result == Refused(NoEvidenceYet) <==> digest == "")
            && (result == Refused(EvidenceChanged) <==> digest != "" && digest != seen)
            && (result == Refused(NoOutcome) <==> digest != "" && digest == seen && outcome == None)
            && (result == Refused(BadDuration) <==>
                  digest != "" && digest == seen && outcome.Some? && !SaysWhat(outcome, duration)))
  {
  }

  /**
   What is recorded: who decided what about which request and why, on the evidence that is stored, under its digest. A
   grant ends the asked time after the decision, or ninety days after it; nothing else ends.
   */
  lemma RecordedIs(c: Cluster, request: string, seen: string, outcome: Option<Outcome>, reason: string,
                   duration: Option<Option<int>>, actor: string, now: int, name: string)
    requires DecideOn(c, request, seen, outcome, reason, duration, actor, now, name).Decided?
    ensures var d := DecideOn(c, request, seen, outcome, reason, duration, actor, now, name).decision;
      && d.name == name && d.request == c.requests[request].name && Some(d.outcome) == outcome && d.reason == reason
      && d.decidedBy == actor && d.evidence == c.requests[request].status.evidence && d.digest == seen
      && d.revokedReason == "" && !d.status.applied && !d.status.expired && d.status.appliedAt == None
      && (outcome != Some(OutcomeApproved) ==> d.grantedUntil == None)
      && (outcome == Some(OutcomeApproved) && duration == None ==> d.grantedUntil == Some(now + NINETY_DAYS))
      && (outcome == Some(OutcomeApproved) && duration.Some? && duration.value.Some? ==>
            d.grantedUntil == Some(now + duration.value.value))
  {
  }

  /** A decision is stored under its name, and nothing else changes; a refused one changes nothing. */
  lemma DecidingStoresTheDecision(digest: DigestFunction, w: World, s: Step)
    requires s.Decide?
    ensures var result := DecideOn(w.cluster, s.request, s.seen, s.outcome, s.reason, s.duration, s.actor, w.now,
      s.name);
      var v := Next(digest, w, s);
      v.cluster == w.cluster.(decisions :=
        if result.Decided? then w.cluster.decisions[s.name := result.decision] else w.cluster.decisions)
  {
  }

  /** In whatever world a run has come to: a closed request takes no decision. */
  lemma ClosedRequestsAreNotDecided(digest: DigestFunction, w: World, s: Step)
    requires s.Decide? && s.request in w.cluster.requests
    requires var r := w.cluster.requests[s.request];
      || r.withdrawn || r.status.phase == Approved || r.status.phase == Rejected || r.status.phase == Applied
      || r.status.phase == Expired || r.status.phase == Withdrawn
    ensures Next(digest, w, s).cluster == w.cluster
  {
  }

  // ----- a withdrawal is for good -----

  /** The decisions on a request. */
  ghost predicate NoneNewOn(before: map<string, Decision>, after: map<string, Decision>, request: string) {
    forall n <- after :: after[n].request == request ==> n in before
  }

  predicate StaysWithdrawn(c: Cluster, request: string) {
    request in c.requests && c.requests[request].name == request && c.requests[request].withdrawn
  }

  lemma StatusWriteKeepsWithdrawn(c: Cluster, read: Request, status: RequestStatus, request: string)
    requires StaysWithdrawn(c, request)
    ensures var after := UpdateRequestStatus(c, read, status);
      after.Some? ==> StaysWithdrawn(after.value, request) && after.value.decisions == c.decisions
  {
  }

  lemma AdvanceKeepsWithdrawn(c: Cluster, f: Flight, request: string)
    requires StaysWithdrawn(c, request)
    requires f.decision.name in c.decisions ==> c.decisions[f.decision.name].request == f.decision.request
    ensures var after := Advance(c, f).0;
      StaysWithdrawn(after, request) && NoneNewOn(c.decisions, after.decisions, request)
  {
    StatusWriteKeepsWithdrawn(c, f.request, MarkedStatus(f.request, PlanFor(f.decision, f.now).phase, f.decision.name),
        request);
  }

  lemma DecideKeepsWithdrawn(digest: DigestFunction, w: World, s: Step, request: string)
    requires s.Decide? && StaysWithdrawn(w.cluster, request) && Holds(digest, w)
    ensures var after := Next(digest, w, s).cluster;
      StaysWithdrawn(after, request) && NoneNewOn(w.cluster.decisions, after.decisions, request)
  {
    var result := DecideOn(w.cluster, s.request, s.seen, s.outcome, s.reason, s.duration, s.actor, w.now, s.name);
    if result.Decided? {
      assert RequestHolds(digest, w.cluster.decisions, w.log, w.now, s.request, w.cluster.requests[s.request]);
      assert result.decision.request != request;
    }
  }

  lemma StepKeepsWithdrawn(digest: DigestFunction, w: World, s: Step, request: string)
    requires Holds(digest, w) && StaysWithdrawn(w.cluster, request)
    ensures var after := Next(digest, w, s).cluster;
      StaysWithdrawn(after, request) && NoneNewOn(w.cluster.decisions, after.decisions, request)
  {
    match s {
      case Decide(_, _, _, _, _, _, _) => DecideKeepsWithdrawn(digest, w, s, request);
      case AdvanceDecision =>
        if w.deciding.Some? {
          AdvanceKeepsWithdrawn(w.cluster, w.deciding.value, request);
        }
      case WriteRequest(findings) =>
        if w.reading.Some? {
          var next := NextRequestStatus(digest, w.reading.value, findings);
          if next.Some? {
            StatusWriteKeepsWithdrawn(w.cluster, w.reading.value, next.value, request);
          }
        }
      case _ =>
    }
  }

  /** Over every run: a request that is withdrawn stays so, and no decision on it is recorded any more. */
  lemma {:induction false} AWithdrawnRequestIsNeverDecided(digest: DigestFunction, w: World, steps: seq<Step>,
      request: string)
    requires Holds(digest, w) && StaysWithdrawn(w.cluster, request)
    ensures var end := Run(digest, w, steps).cluster;
      StaysWithdrawn(end, request) && NoneNewOn(w.cluster.decisions, end.decisions, request)
  {
    if |steps| > 0 {
      var last := |steps| - 1;
      var before := Run(digest, w, steps[..last]);
      AWithdrawnRequestIsNeverDecided(digest, w, steps[..last], request);
      EveryRunHolds(digest, w, steps[..last]);
      StepKeepsWithdrawn(digest, before, steps[last], request);
      StepKeepsDecisions(digest, before, steps[last], request);
    }
  }

  /** A decision that is new on the request after a step was none before it. */
  lemma StepKeepsDecisions(digest: DigestFunction, w: World, s: Step, request: string)
    requires Holds(digest, w)
    ensures forall n <- w.cluster.decisions ::
      n in Next(digest, w, s).cluster.decisions
      && Next(digest, w, s).cluster.decisions[n].request == w.cluster.decisions[n].request
  {
    StepGrows(digest, w, s);
  }

  // ----- what a request reconcile writes -----

  /** Nothing changes but the status of this request. */
  predicate OnlyItsStatus(c: Cluster, after: Cluster, name: string) {
    && name in c.requests && name in after.requests
    && after == c.(requests := c.requests[name := after.requests[name]])
    && after.requests[name] == c.requests[name].(status := after.requests[name].status,
                                                  version := after.requests[name].version)
  }

  /** A request that was withdrawn is marked so, and keeps everything else it says. */
  lemma AWithdrawnRequestIsMarked(digest: DigestFunction, c: Cluster, name: string, findings: Findings)
    requires name in c.requests && c.requests[name].name == name && c.requests[name].withdrawn
    ensures var after := FinishRequest(digest, c, c.requests[name], findings);
      && OnlyItsStatus(c, after, name) && after.requests[name].status.phase == Withdrawn
      && after.requests[name].status.evidenceDigest == c.requests[name].status.evidenceDigest
      && after.requests[name].status.decisionRef == c.requests[name].status.decisionRef
  {
  }

  /**
   An undecided request whose documents were gathered awaits a decision, under the digest of these documents and with
   the conditions found. The documents themselves are stored unless all that is compared was there already.
   */
  lemma AnUndecidedRequestAwaitsItsDecision(digest: DigestFunction, c: Cluster, name: string, evidence: Evidence,
      conditions: seq<Condition>)
    requires name in c.requests && c.requests[name].name == name && Undecided(c.requests[name])
    ensures var after := FinishRequest(digest, c, c.requests[name], Gathered(evidence, conditions));
      && OnlyItsStatus(c, after, name)
      && var status := after.requests[name].status;
         && status.phase == AwaitingDecision && status.evidenceDigest == digest(evidence)
         && status.conditions == conditions && status.observedGeneration == c.requests[name].generation
         && status.decisionRef == c.requests[name].status.decisionRef
         && (status.evidence == evidence
             || (after == c && c.requests[name].status.phase == AwaitingDecision
                 && c.requests[name].status.evidenceDigest == digest(evidence)))
  {
  }

  /** When nothing that is compared is new, nothing is written. */
  lemma NothingNewIsNotWritten(digest: DigestFunction, c: Cluster, read: Request, evidence: Evidence,
      conditions: seq<Condition>)
    requires read.status.phase == AwaitingDecision && read.status.evidenceDigest == digest(evidence)
    requires read.status.conditions == conditions && read.status.observedGeneration == read.generation
    requires !read.withdrawn
    ensures FinishRequest(digest, c, read, Gathered(evidence, conditions)) == c
  {
  }

  /** Without its division it is pending, for that reason; when reading failed it is left as it is. */
  lemma WithoutItsDivisionItIsPending(digest: DigestFunction, c: Cluster, name: string)
    requires name in c.requests && c.requests[name].name == name && Undecided(c.requests[name])
    ensures var after := FinishRequest(digest, c, c.requests[name], DivisionMissing);
      && OnlyItsStatus(c, after, name)
      && var status := after.requests[name].status;
         && status.phase == Pending && status.evidenceDigest == c.requests[name].status.evidenceDigest
         && status.observedGeneration == c.requests[name].generation
         && Condition("Recommended", false, "DivisionMissing", c.requests[name].division) in status.conditions
    ensures FinishRequest(digest, c, c.requests[name], ReadFailed) == c
  {
    SetConditionSets(c.requests[name].status.conditions,
        Condition("Recommended", false, "DivisionMissing", c.requests[name].division));
  }

  /** A decided request is left alone. */
  lemma ADecidedRequestIsLeft(digest: DigestFunction, c: Cluster, name: string, findings: Findings)
    requires name in c.requests && !c.requests[name].withdrawn && !Undecided(c.requests[name])
    ensures FinishRequest(digest, c, c.requests[name], findings) == c
  {
  }

  /** And so is one that changed since it was read. */
  lemma AStaleReadWritesNothing(digest: DigestFunction, c: Cluster, read: Request, findings: Findings)
    requires read.name !in c.requests || c.requests[read.name].version != read.version
    ensures FinishRequest(digest, c, read, findings) == c
  {
  }

  /**
   A condition that is set is there, the only one of its kind if it was, and the others stay as and where they are.
   */
  lemma {:induction false} SetConditionSets(conditions: seq<Condition>, condition: Condition)
    ensures condition in SetCondition(conditions, condition)
    ensures forall other: Condition :: other.kind != condition.kind ==>
      (other in SetCondition(conditions, condition) <==> other in conditions)
    ensures |conditions| <= |SetCondition(conditions, condition)| <= |conditions| + 1
    ensures (exists i :: 0 <= i < |conditions| && conditions[i].kind == condition.kind) <==>
      |SetCondition(conditions, condition)| == |conditions|
  {
    if conditions != [] {
      var first, rest := conditions[0], conditions[1..];
      assert conditions == [first] + rest;
      SetConditionSets(rest, condition);
      if i :| 0 <= i < |conditions| && conditions[i].kind == condition.kind {
        assert i > 0 ==> rest[i - 1] == conditions[i];
      }
      if i :| 0 <= i < |rest| && rest[i].kind == condition.kind {
        assert conditions[i + 1] == rest[i];
      }
    }
  }

  // ----- what a decision reconcile writes -----

  /** The decision and its request, as they are stored. */
  predicate Stored(c: Cluster, name: string) {
    && name in c.decisions && c.decisions[name].name == name && c.decisions[name].request in c.requests
    && c.requests[c.decisions[name].request].name == c.decisions[name].request
  }

  /** The request is marked with the decision. */
  predicate Marked(after: Cluster, r: Request, phase: RequestPhase, decision: string) {
    && r.name in after.requests
    && after.requests[r.name].status.phase == phase && after.requests[r.name].status.decisionRef == decision
    && after.requests[r.name].target == r.target && after.requests[r.name].division == r.division
    && after.requests[r.name].withdrawn == r.withdrawn && after.requests[r.name].status.evidence == r.status.evidence
  }

  /** The mark says by name what was decided and by which decision; the other conditions stay. */
  lemma AMarkSaysWhatWasDecided(read: Request, phase: RequestPhase, decision: string)
    requires phase in {Applied, Rejected, ChangesRequested, Expired}
    ensures var marked := MarkedStatus(read, phase, decision);
      var named := match phase case Applied => "Applied" case Rejected => "Rejected" case Expired => "Expired"
                               case _ => "ChangesRequested";
      && marked.phase == phase && marked.decisionRef == decision && marked.evidence == read.status.evidence
      && marked.evidenceDigest == read.status.evidenceDigest
      && Condition("Decided", true, named, decision) in marked.conditions
      && forall other: Condition :: other.kind != "Decided" ==>
           (other in marked.conditions <==> other in read.status.conditions)
  {
    SetConditionSets(read.status.conditions, Condition(DECIDED, true, PhaseName(phase), decision));
  }

  /** A rejection, and a call for changes, mark the request and touch no quota. */
  lemma ARejectionIsMarked(c: Cluster, name: string, now: int)
    requires Stored(c, name) && c.decisions[name].outcome != OutcomeApproved
    ensures var (after, requeueAfter) := ReconcileDecisionStep(c, name, now, Nowhere);
      var d := c.decisions[name];
      && Marked(after, c.requests[d.request],
                if d.outcome == OutcomeRejected then Rejected else ChangesRequested, name)
      && after.divisions == c.divisions && name in after.decisions && requeueAfter == 0
      && after.decisions[name].status.message == (if d.outcome == OutcomeRejected then WasRejected else AskedForChanges)
      && after.decisions[name].status.applied == d.status.applied
      && after.decisions[name].status.observedGeneration == d.generation
  {
  }

  /** A grant past its end is marked as lapsed, and touches no quota. */
  lemma ALapsedGrantIsMarked(c: Cluster, name: string, now: int)
    requires Stored(c, name) && c.decisions[name].outcome == OutcomeApproved
    requires c.decisions[name].grantedUntil.Some? && now > c.decisions[name].grantedUntil.value
    ensures var (after, requeueAfter) := ReconcileDecisionStep(c, name, now, Nowhere);
      && Marked(after, c.requests[c.decisions[name].request], Expired, name)
      && after.divisions == c.divisions && name in after.decisions && requeueAfter == 0
      && after.decisions[name].status.expired && after.decisions[name].status.message == GrantLapsed
      && after.decisions[name].status.applied == c.decisions[name].status.applied
  {
  }

  /**
   A grant that stands sets the division's quota to the target, once, and says so with the time; it is looked at again
   in an hour, or at its end if that comes first.
   */
  lemma AGrantIsApplied(c: Cluster, name: string, now: int)
    requires Stored(c, name) && c.decisions[name].outcome == OutcomeApproved
    requires c.decisions[name].grantedUntil.Some? && now <= c.decisions[name].grantedUntil.value
    requires c.requests[c.decisions[name].request].division in c.divisions
    ensures var (after, requeueAfter) := ReconcileDecisionStep(c, name, now, Nowhere);
      var d, r := c.decisions[name], c.requests[c.decisions[name].request];
      var left := d.grantedUntil.value - now;
      && Marked(after, r, Applied, name) && name in after.decisions && after.decisions[name].status.applied
      && after.divisions == (if d.status.applied then c.divisions else c.divisions[r.division := r.target])
      && (!d.status.applied ==>
            && after.decisions[name].status.appliedAt == Some(now)
            && after.decisions[name].status.message == QuotaMatches
            && after.decisions[name].status.observedGeneration == d.generation)
      && requeueAfter == if left <= 3_600_000_000_000 then left else 3_600_000_000_000
  {
  }

  /** Without its division nothing is written. */
  lemma AGrantWithoutItsDivisionWaits(c: Cluster, name: string, now: int)
    requires Stored(c, name) && c.decisions[name].outcome == OutcomeApproved && !c.decisions[name].status.applied
    requires c.decisions[name].grantedUntil.Some? && now <= c.decisions[name].grantedUntil.value
    requires c.requests[c.decisions[name].request].division !in c.divisions
    ensures ReconcileDecisionStep(c, name, now, Nowhere) == (c, 0)
  {
  }

  // ----- the other calls -----

  /** A request is stored as it was made, new and undecided; a name is taken once, and its division has to be there. */
  lemma ARequestIsStored(c: Cluster, name: string, division: string, target: Quota)
    ensures var after := Submit(c, name, division, target);
      if name in c.requests || division !in c.divisions then after == c
      else
        && name in after.requests && after == c.(requests := c.requests[name := after.requests[name]])
        && var r := after.requests[name];
           && r.name == name && r.division == division && r.target == target && Undecided(r) && r.status.phase == Unset
           && r.status.evidenceDigest == "" && r.status.decisionRef == "" && r.status.conditions == []
  {
  }

  /** A withdrawal says so and nothing else. */
  lemma AWithdrawalIsStored(c: Cluster, name: string)
    ensures var after := Withdraw(c, name);
      if name !in c.requests then after == c
      else
        && name in after.requests && after == c.(requests := c.requests[name := after.requests[name]])
        && after.requests[name].withdrawn && after.requests[name].status == c.requests[name].status
        && after.requests[name].target == c.requests[name].target
        && after.requests[name].division == c.requests[name].division
        && after.requests[name].generation
           == c.requests[name].generation + if c.requests[name].withdrawn then 0 else 1
  {
  }

  /** A revocation needs a reason; it ends the grant at once and keeps what was decided. */
  lemma ARevocationIsStored(c: Cluster, name: string, reason: string, now: int)
    ensures var after := Revoke(c, name, reason, now);
      if name !in c.decisions || reason == "" then after == c
      else
        && name in after.decisions && after == c.(decisions := c.decisions[name := after.decisions[name]])
        && after.decisions[name].grantedUntil == Some(now) && after.decisions[name].revokedReason == reason
        && SameDecision(after.decisions[name], c.decisions[name])
        && after.decisions[name].status == c.decisions[name].status
        && (after != c ==> after.decisions[name].generation == c.decisions[name].generation + 1)
        && (after == c <==> c.decisions[name].revokedReason == reason && c.decisions[name].grantedUntil == Some(now))
  {
  }
}
