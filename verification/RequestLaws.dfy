/**
 What holds over every interleaving of the service calls, the operator's edits and the two reconcilers, each reconcile
 split into its reads and its writes, with a crash possible after any of them.
 */
module RequestLaws {
  import opened Text
  import opened Requests

  /** What changed a division's quota. */
  datatype Change = Granted(patch: Patch) | Edited(division: string, quota: Quota)

  /** `reading` and `deciding` are the reconciles under way: each controller works on one object at a time. */
  datatype World = World(cluster: Cluster, now: int, log: seq<Change>, reading: Option<Request>,
      deciding: Option<Flight>)

  datatype Step =
    | Tick(elapsed: nat)
    | SubmitRequest(name: string, division: string, target: Quota)
    | WithdrawRequest(name: string)
    | EditDivision(name: string, quota: Quota)
    | ReadRequest(name: string)
    | WriteRequest(findings: Findings)
    | DropRequest
    | Decide(request: string, seen: string, outcome: Option<Outcome>, reason: string, duration: Option<Option<int>>,
        actor: string, name: string)
    | RevokeGrant(name: string, reason: string)
    | ReadDecision(name: string)
    | AdvanceDecision
    | DropDecision

  function Next(digest: DigestFunction, w: World, s: Step): World {
    match s
    case Tick(elapsed) => w.(now := w.now + elapsed)
    case SubmitRequest(name, division, target) => w.(cluster := Submit(w.cluster, name, division, target))
    case WithdrawRequest(name) => w.(cluster := Withdraw(w.cluster, name))
    case EditDivision(name, quota) =>
      w.(cluster := w.cluster.(divisions := w.cluster.divisions[name := quota]), log := w.log + [Edited(name, quota)])
    case ReadRequest(name) =>
      if name in w.cluster.requests && w.reading.None? then w.(reading := Some(w.cluster.requests[name])) else w
    case WriteRequest(findings) =>
      if w.reading.None? then w
      else w.(cluster := FinishRequest(digest, w.cluster, w.reading.value, findings), reading := None)
    case DropRequest => w.(reading := None)
    case Decide(request, seen, outcome, reason, duration, actor, name) =>
      w.(cluster := Record(w.cluster,
          DecideOn(w.cluster, request, seen, outcome, reason, duration, actor, w.now, name)))
    case RevokeGrant(name, reason) => w.(cluster := Revoke(w.cluster, name, reason, w.now))
    case ReadDecision(name) => if w.deciding.None? then w.(deciding := BeginDecision(w.cluster, name, w.now)) else w
    case AdvanceDecision =>
      if w.deciding.None? then w
      else
        var (after, flight, patch) := Advance(w.cluster, w.deciding.value);
        w.(cluster := after, deciding := flight, log := w.log + if patch.Some? then [Granted(patch.value)] else [])
    case DropDecision => w.(deciding := None)
  }

  function Run(digest: DigestFunction, w: World, steps: seq<Step>): World {
    if |steps| == 0 then w else Next(digest, Run(digest, w, steps[..|steps| - 1]), steps[|steps| - 1])
  }

  function Start(divisions: map<string, Quota>, now: int): World {
    World(Cluster(map[], map[], divisions), now, [], None, None)
  }

  // ----- what only ever grows -----

  /** The part of a decision nobody rewrites. */
  predicate SameDecision(d: Decision, e: Decision) {
    && d.name == e.name && d.request == e.request && d.outcome == e.outcome && d.reason == e.reason
    && d.decidedBy == e.decidedBy && d.evidence == e.evidence && d.digest == e.digest
  }

  predicate SameAsk(r: Request, q: Request) {
    r.name == q.name && r.division == q.division && r.target == q.target
  }

  /** A grant's end only moves to a moment already reached. */
  predicate EndMoved(before: Option<int>, after: Option<int>, now: int) {
    after == before || (after.Some? && after.value <= now)
  }

  predicate DecisionGrows(d: Decision, e: Decision, now: int) {
    && SameDecision(d, e) && d.version <= e.version && (d.status.applied ==> e.status.applied)
    && EndMoved(d.grantedUntil, e.grantedUntil, now) && (d.version == e.version ==> d == e)
  }

  predicate RequestGrows(r: Request, q: Request) {
    SameAsk(r, q) && r.version <= q.version && (r.version == q.version ==> r == q)
  }

  ghost predicate DecisionsGrow(ds: map<string, Decision>, es: map<string, Decision>, now: int) {
    forall n <- ds :: n in es && DecisionGrows(ds[n], es[n], now)
  }

  ghost predicate RequestsGrow(rs: map<string, Request>, qs: map<string, Request>) {
    forall n <- rs :: n in qs && RequestGrows(rs[n], qs[n])
  }

  ghost predicate Grows(w: World, v: World) {
    && DecisionsGrow(w.cluster.decisions, v.cluster.decisions, v.now)
    && RequestsGrow(w.cluster.requests, v.cluster.requests)
    && w.now <= v.now && w.log <= v.log
  }

  lemma GrowsIsTransitive(a: World, b: World, c: World)
    requires Grows(a, b) && Grows(b, c)
    ensures Grows(a, c)
  {
  }

  lemma RequestStepGrows(c: Cluster, read: Request, status: RequestStatus, now: int)
    ensures UpdateRequestStatus(c, read, status).Some? ==>
      var after := UpdateRequestStatus(c, read, status).value;
      && DecisionsGrow(c.decisions, after.decisions, now) && RequestsGrow(c.requests, after.requests)
      && after.divisions == c.divisions
  {
  }

  lemma AdvanceGrows(c: Cluster, f: Flight, now: int)
    requires f.decision.name in c.decisions ==> c.decisions[f.decision.name].status == f.decision.status
    ensures DecisionsGrow(c.decisions, Advance(c, f).0.decisions, now)
      && RequestsGrow(c.requests, Advance(c, f).0.requests)
  {
    RequestStepGrows(c, f.request, MarkedStatus(f.request, PlanFor(f.decision, f.now).phase, f.decision.name), now);
  }

  /** Two stored states in the same world grow from one to the other. */
  ghost predicate ClusterGrows(c: Cluster, after: Cluster, now: int) {
    DecisionsGrow(c.decisions, after.decisions, now) && RequestsGrow(c.requests, after.requests)
  }

  lemma ServiceGrows(w: World, s: Step, digest: DigestFunction)
    requires s.SubmitRequest? || s.WithdrawRequest? || s.RevokeGrant?
    ensures ClusterGrows(w.cluster, Next(digest, w, s).cluster, w.now)
  {
  }

  lemma DecideGrows(c: Cluster, result: DecideResult, now: int)
    requires result.Decided? ==> result.decision.name !in c.decisions
    ensures ClusterGrows(c, Record(c, result), now)
  {
  }

  lemma FinishGrows(digest: DigestFunction, c: Cluster, read: Request, findings: Findings, now: int)
    ensures ClusterGrows(c, FinishRequest(digest, c, read, findings), now)
  {
    var next := NextRequestStatus(digest, read, findings);
    if next.Some? {
      RequestStepGrows(c, read, next.value, now);
    }
  }

  lemma StepGrows(digest: DigestFunction, w: World, s: Step)
    requires w.deciding.Some? ==> Tracks(w.cluster, w.now, w.deciding.value)
    ensures Grows(w, Next(digest, w, s))
  {
    var v := Next(digest, w, s);
    assert ClusterGrows(w.cluster, v.cluster, v.now) by {
      match s {
        case WriteRequest(findings) =>
          if w.reading.Some? {
            FinishGrows(digest, w.cluster, w.reading.value, findings, w.now);
          }
        case AdvanceDecision =>
          if w.deciding.Some? {
            AdvanceGrows(w.cluster, w.deciding.value, w.now);
          }
        case SubmitRequest(_, _, _) => ServiceGrows(w, s, digest);
        case WithdrawRequest(_) => ServiceGrows(w, s, digest);
        case RevokeGrant(_, _) => ServiceGrows(w, s, digest);
        case Decide(request, seen, outcome, reason, duration, actor, name) =>
          DecideGrows(w.cluster, DecideOn(w.cluster, request, seen, outcome, reason, duration, actor, w.now, name),
              w.now);
        case _ =>
      }
    }
  }

  // ----- the invariant -----

  predicate Truthful(digest: DigestFunction, status: RequestStatus) {
    status.evidenceDigest == "" || status.evidenceDigest == digest(status.evidence)
  }

  /** Some patch of this decision went through. */
  ghost predicate WasPatched(log: seq<Change>, decision: string) {
    exists i :: 0 <= i < |log| && log[i].Granted? && log[i].patch.decision.name == decision
  }

  predicate DecidedBy(ds: map<string, Decision>, request: string, ref: string, outcome: Outcome) {
    ref in ds && ds[ref].request == request && ds[ref].outcome == outcome
  }

  /** What a request's phase says happened did happen. */
  ghost predicate Backed(ds: map<string, Decision>, log: seq<Change>, now: int, request: string,
      status: RequestStatus) {
    match status.phase
    case Rejected => DecidedBy(ds, request, status.decisionRef, OutcomeRejected)
    case ChangesRequested => DecidedBy(ds, request, status.decisionRef, OutcomeChangesRequested)
    case Applied => DecidedBy(ds, request, status.decisionRef, OutcomeApproved) && WasPatched(log, status.decisionRef)
    case Expired =>
      && DecidedBy(ds, request, status.decisionRef, OutcomeApproved)
      && ds[status.decisionRef].grantedUntil.Some? && ds[status.decisionRef].grantedUntil.value <= now
    case Approved => false
    case _ => true
  }

  ghost predicate RequestHolds(digest: DigestFunction, ds: map<string, Decision>, log: seq<Change>, now: int,
      name: string, r: Request) {
    r.name == name && Truthful(digest, r.status) && Backed(ds, log, now, name, r.status)
  }

  ghost predicate RequestsHold(digest: DigestFunction, c: Cluster, log: seq<Change>, now: int) {
    forall n <- c.requests :: RequestHolds(digest, c.decisions, log, now, n, c.requests[n])
  }

  ghost predicate DecisionHolds(digest: DigestFunction, rs: map<string, Request>, log: seq<Change>, name: string,
      d: Decision) {
    && d.name == name && d.digest != "" && d.digest == digest(d.evidence) && d.request in rs
    && (d.outcome == OutcomeApproved ==> d.grantedUntil.Some?)
    && (d.status.applied ==> d.outcome == OutcomeApproved && WasPatched(log, name))
  }

  ghost predicate DecisionsHold(digest: DigestFunction, c: Cluster, log: seq<Change>) {
    forall n <- c.decisions :: DecisionHolds(digest, c.requests, log, n, c.decisions[n])
  }

  /** A patch carries out an approved, unlapsed, unapplied grant: the target of the request it names. */
  predicate Authorised(c: Cluster, now: int, p: Patch) {
    && p.decision.outcome == OutcomeApproved && p.decision.grantedUntil.Some?
    && p.readAt <= p.decision.grantedUntil.value
    && !p.decision.status.applied && p.readAt <= now
    && p.decision.name in c.decisions && SameDecision(p.decision, c.decisions[p.decision.name])
    && p.decision.request in c.requests
    && p.division == c.requests[p.decision.request].division && p.target == c.requests[p.decision.request].target
  }

  ghost predicate LogHolds(c: Cluster, now: int, log: seq<Change>) {
    forall i :: 0 <= i < |log| && log[i].Granted? ==> Authorised(c, now, log[i].patch)
  }

  /** What was read is older than what is stored, or equal to it. */
  predicate ReadOf(rs: map<string, Request>, r: Request) {
    r.name in rs && RequestGrows(r, rs[r.name])
  }

  predicate Tracks(c: Cluster, now: int, f: Flight) {
    && f.decision.name in c.decisions && DecisionGrows(f.decision, c.decisions[f.decision.name], now)
    && c.decisions[f.decision.name].status == f.decision.status
    && ReadOf(c.requests, f.request) && f.request.name == f.decision.request
    && (f.decision.outcome == OutcomeApproved ==> f.decision.grantedUntil.Some?) && f.now <= now
  }

  ghost predicate FlightHolds(c: Cluster, now: int, log: seq<Change>, f: Flight) {
    && Tracks(c, now, f)
    && (f.stage == 1 && PlanFor(f.decision, f.now).applies ==> f.copy.Some?)
    && (f.stage >= 2 && PlanFor(f.decision, f.now).applies ==> WasPatched(log, f.decision.name))
  }

  ghost predicate Holds(digest: DigestFunction, w: World) {
    && RequestsHold(digest, w.cluster, w.log, w.now) && DecisionsHold(digest, w.cluster, w.log)
    && LogHolds(w.cluster, w.now, w.log)
    && (w.reading.Some? ==> ReadOf(w.cluster.requests, w.reading.value))
    && (w.deciding.Some? ==> FlightHolds(w.cluster, w.now, w.log, w.deciding.value))
  }

  // ----- what growth keeps -----

  lemma PatchedGrows(log: seq<Change>, longer: seq<Change>, decision: string)
    requires log <= longer && WasPatched(log, decision)
    ensures WasPatched(longer, decision)
  {
    var i :| 0 <= i < |log| && log[i].Granted? && log[i].patch.decision.name == decision;
    assert longer[i] == log[i];
  }

  lemma BackedGrows(w: World, v: World, request: string, status: RequestStatus)
    requires Grows(w, v) && Backed(w.cluster.decisions, w.log, w.now, request, status)
    ensures Backed(v.cluster.decisions, v.log, v.now, request, status)
  {
    if status.phase == Applied {
      PatchedGrows(w.log, v.log, status.decisionRef);
    }
  }

  lemma UnchangedRequestHolds(digest: DigestFunction, w: World, v: World, n: string)
    requires Grows(w, v) && n in w.cluster.requests && n in v.cluster.requests
    requires RequestHolds(digest, w.cluster.decisions, w.log, w.now, n, w.cluster.requests[n])
    requires v.cluster.requests[n].status == w.cluster.requests[n].status
      && v.cluster.requests[n].name == w.cluster.requests[n].name
    ensures RequestHolds(digest, v.cluster.decisions, v.log, v.now, n, v.cluster.requests[n])
  {
    BackedGrows(w, v, n, w.cluster.requests[n].status);
  }

  lemma UnchangedDecisionHolds(digest: DigestFunction, w: World, v: World, n: string)
    requires Grows(w, v) && n in w.cluster.decisions
    requires DecisionHolds(digest, w.cluster.requests, w.log, n, w.cluster.decisions[n])
    requires v.cluster.decisions[n].status == w.cluster.decisions[n].status
    ensures DecisionHolds(digest, v.cluster.requests, v.log, n, v.cluster.decisions[n])
  {
    var d := w.cluster.decisions[n];
    assert DecisionGrows(d, v.cluster.decisions[n], v.now);
    assert RequestGrows(w.cluster.requests[d.request], v.cluster.requests[d.request]);
    if d.status.applied {
      PatchedGrows(w.log, v.log, n);
    }
  }

  lemma AuthorisedGrows(w: World, v: World, p: Patch)
    requires Grows(w, v) && Authorised(w.cluster, w.now, p)
    ensures Authorised(v.cluster, v.now, p)
  {
    assert RequestGrows(w.cluster.requests[p.decision.request], v.cluster.requests[p.decision.request]);
    assert DecisionGrows(w.cluster.decisions[p.decision.name], v.cluster.decisions[p.decision.name], v.now);
  }

  lemma OldLogHolds(w: World, v: World)
    requires Grows(w, v) && LogHolds(w.cluster, w.now, w.log)
    ensures LogHolds(v.cluster, v.now, w.log)
  {
    forall i | 0 <= i < |w.log| && w.log[i].Granted? ensures Authorised(v.cluster, v.now, w.log[i].patch) {
      AuthorisedGrows(w, v, w.log[i].patch);
    }
  }

  // ----- every step keeps the invariant -----

  /** A write to one request, or to none, with decisions and log as they were. */
  lemma WriteKeepsHold(digest: DigestFunction, w: World, read: Request, status: RequestStatus)
    requires Holds(digest, w) && ReadOf(w.cluster.requests, read)
    requires w.cluster.requests[read.name] == read ==>
      Truthful(digest, status) && Backed(w.cluster.decisions, w.log, w.now, read.name, status)
    ensures var after := UpdateRequestStatus(w.cluster, read, status);
      after.Some? ==>
        && RequestsHold(digest, after.value, w.log, w.now) && DecisionsHold(digest, after.value, w.log)
        && LogHolds(after.value, w.now, w.log)
  {
    var after := UpdateRequestStatus(w.cluster, read, status);
    if after.Some? {
      var v := w.(cluster := after.value);
      RequestStepGrows(w.cluster, read, status, w.now);
      OldLogHolds(w, v);
      forall n <- v.cluster.requests ensures RequestHolds(digest, v.cluster.decisions, v.log, v.now, n,
          v.cluster.requests[n]) {
        if n != read.name {
          UnchangedRequestHolds(digest, w, v, n);
        }
      }
      forall n <- v.cluster.decisions ensures DecisionHolds(digest, v.cluster.requests, v.log, n,
          v.cluster.decisions[n]) {
        UnchangedDecisionHolds(digest, w, v, n);
      }
    }
  }

  /** What is left to show of a step that grows: whatever is new in it. */
  lemma GrowthKeepsHold(digest: DigestFunction, w: World, v: World)
    requires Holds(digest, w) && Grows(w, v)
    requires forall n <- v.cluster.requests ::
      || (n in w.cluster.requests && v.cluster.requests[n].status == w.cluster.requests[n].status)
      || RequestHolds(digest, v.cluster.decisions, v.log, v.now, n, v.cluster.requests[n])
    requires forall n <- v.cluster.decisions ::
      || (n in w.cluster.decisions && v.cluster.decisions[n].status == w.cluster.decisions[n].status)
      || DecisionHolds(digest, v.cluster.requests, v.log, n, v.cluster.decisions[n])
    ensures RequestsHold(digest, v.cluster, v.log, v.now) && DecisionsHold(digest, v.cluster, v.log)
    ensures LogHolds(v.cluster, v.now, w.log)
  {
    OldLogHolds(w, v);
    forall n <- v.cluster.requests ensures RequestHolds(digest, v.cluster.decisions, v.log, v.now, n,
        v.cluster.requests[n]) {
      if n in w.cluster.requests && v.cluster.requests[n].status == w.cluster.requests[n].status {
        UnchangedRequestHolds(digest, w, v, n);
      }
    }
    forall n <- v.cluster.decisions ensures DecisionHolds(digest, v.cluster.requests, v.log, n,
        v.cluster.decisions[n]) {
      if n in w.cluster.decisions && v.cluster.decisions[n].status == w.cluster.decisions[n].status {
        UnchangedDecisionHolds(digest, w, v, n);
      }
    }
  }

  lemma ReadGrows(w: World, v: World, r: Request)
    requires Grows(w, v) && ReadOf(w.cluster.requests, r)
    ensures ReadOf(v.cluster.requests, r)
  {
    assert RequestGrows(w.cluster.requests[r.name], v.cluster.requests[r.name]);
  }

  lemma FlightGrows(w: World, v: World, f: Flight)
    requires Grows(w, v) && FlightHolds(w.cluster, w.now, w.log, f)
    requires v.cluster.decisions[f.decision.name].status == f.decision.status
    ensures FlightHolds(v.cluster, v.now, v.log, f)
  {
    ReadGrows(w, v, f.request);
    assert DecisionGrows(w.cluster.decisions[f.decision.name], v.cluster.decisions[f.decision.name], v.now);
    if WasPatched(w.log, f.decision.name) {
      PatchedGrows(w.log, v.log, f.decision.name);
    }
  }

  /** Steps that start, write or end no reconcile: the clock, the operator and the service calls. */
  predicate Outside(s: Step) {
    s.Tick? || s.SubmitRequest? || s.WithdrawRequest? || s.EditDivision? || s.Decide? || s.RevokeGrant?
  }

  lemma OutsideKeepsStatuses(digest: DigestFunction, w: World, s: Step)
    requires Outside(s)
    ensures var v := Next(digest, w, s);
      && (forall n <- w.cluster.decisions ::
            n in v.cluster.decisions && v.cluster.decisions[n].status == w.cluster.decisions[n].status)
      && (forall n <- v.cluster.requests ::
            || (n in w.cluster.requests && v.cluster.requests[n].status == w.cluster.requests[n].status)
            || RequestHolds(digest, v.cluster.decisions, v.log, v.now, n, v.cluster.requests[n]))
  {
  }

  lemma NewDecisionHolds(digest: DigestFunction, w: World, s: Step)
    requires Outside(s) && Holds(digest, w)
    ensures var v := Next(digest, w, s);
      forall n <- v.cluster.decisions ::
        || (n in w.cluster.decisions && v.cluster.decisions[n].status == w.cluster.decisions[n].status)
        || DecisionHolds(digest, v.cluster.requests, v.log, n, v.cluster.decisions[n])
  {
  }

  lemma OutsideKeepsHold(digest: DigestFunction, w: World, s: Step)
    requires Outside(s) && Holds(digest, w)
    ensures Holds(digest, Next(digest, w, s))
  {
    var v := Next(digest, w, s);
    StepGrows(digest, w, s);
    OutsideKeepsStatuses(digest, w, s);
    NewDecisionHolds(digest, w, s);
    GrowthKeepsHold(digest, w, v);
    if w.reading.Some? {
      ReadGrows(w, v, w.reading.value);
    }
    if w.deciding.Some? {
      FlightGrows(w, v, w.deciding.value);
    }
    if s.EditDivision? {
      assert forall i :: 0 <= i < |v.log| && v.log[i].Granted? ==> i < |w.log| && v.log[i] == w.log[i];
    } else {
      assert v.log == w.log;
    }
  }

  lemma FinishedRequestHolds(digest: DigestFunction, w: World, read: Request, findings: Findings)
    requires Holds(digest, w) && ReadOf(w.cluster.requests, read)
    ensures var after := FinishRequest(digest, w.cluster, read, findings);
      && RequestsHold(digest, after, w.log, w.now) && DecisionsHold(digest, after, w.log)
      && LogHolds(after, w.now, w.log)
  {
    var next := NextRequestStatus(digest, read, findings);
    if next.Some? {
      WriteKeepsHold(digest, w, read, next.value);
    }
  }

  lemma WriteRequestKeepsHold(digest: DigestFunction, w: World, findings: Findings)
    requires Holds(digest, w)
    ensures Holds(digest, Next(digest, w, WriteRequest(findings)))
  {
    var v := Next(digest, w, WriteRequest(findings));
    if w.reading.Some? {
      StepGrows(digest, w, WriteRequest(findings));
      FinishedRequestHolds(digest, w, w.reading.value, findings);
      if w.deciding.Some? {
        FlightGrows(w, v, w.deciding.value);
      }
    }
  }

  lemma PlanIsSound(d: Decision, now: int)
    ensures var plan := PlanFor(d, now);
      && (plan.applies ==> d.outcome == OutcomeApproved && !d.Lapsed(now) && !d.status.applied && plan.phase == Applied)
      && (plan.phase == Applied ==> d.outcome == OutcomeApproved && (plan.applies || d.status.applied))
      && (plan.phase == Expired ==> d.outcome == OutcomeApproved && d.Lapsed(now))
      && (plan.phase == Rejected <==> d.outcome == OutcomeRejected)
      && (plan.phase == ChangesRequested <==> d.outcome == OutcomeChangesRequested)
      && (plan.phase == Applied || plan.phase == Expired || plan.phase == Rejected || plan.phase == ChangesRequested)
      && (plan.status.applied <==> plan.applies || d.status.applied)
  {
  }

  lemma CopyKeepsHold(digest: DigestFunction, w: World)
    requires Holds(digest, w) && w.deciding.Some? && w.deciding.value.stage == 0
    ensures Holds(digest, Next(digest, w, AdvanceDecision))
  {
    assert Next(digest, w, AdvanceDecision).log == w.log;
  }

  lemma PatchIsAuthorised(c: Cluster, now: int, f: Flight, copy: Quota)
    requires Tracks(c, now, f) && PlanFor(f.decision, f.now).applies
    ensures Authorised(c, now, Patch(f.request.division, copy, f.request.target, f.decision, f.now))
  {
    PlanIsSound(f.decision, f.now);
    assert SameAsk(f.request, c.requests[f.request.name]);
  }

  /** A change of the divisions alone, with the log as it was or one patch longer. */
  lemma DivisionsKeepHold(digest: DigestFunction, w: World, v: World)
    requires Holds(digest, w) && v == w.(cluster := v.cluster, log := v.log, deciding := v.deciding)
    requires v.cluster == w.cluster.(divisions := v.cluster.divisions) && w.log <= v.log
    ensures RequestsHold(digest, v.cluster, v.log, v.now) && DecisionsHold(digest, v.cluster, v.log)
    ensures LogHolds(v.cluster, v.now, w.log)
  {
    GrowthKeepsHold(digest, w, v);
  }

  lemma PatchKeepsHold(digest: DigestFunction, w: World)
    requires Holds(digest, w) && w.deciding.Some? && w.deciding.value.stage == 1
    ensures Holds(digest, Next(digest, w, AdvanceDecision))
  {
    var v := Next(digest, w, AdvanceDecision);
    var f := w.deciding.value;
    DivisionsKeepHold(digest, w, v);
    if |v.log| > |w.log| {
      PatchIsAuthorised(w.cluster, w.now, f, f.copy.value);
      assert v.log[|w.log|] == Granted(Patch(f.request.division, f.copy.value, f.request.target, f.decision, f.now));
      assert WasPatched(v.log, f.decision.name);
    } else {
      assert v.log == w.log;
    }
  }

  lemma MarkIsBacked(w: World, status: RequestStatus)
    requires w.deciding.Some? && w.deciding.value.stage == 2 && FlightHolds(w.cluster, w.now, w.log, w.deciding.value)
    requires DecisionHoldsInLog(w.cluster, w.log, w.deciding.value.decision.name)
    requires status.decisionRef == w.deciding.value.decision.name
    requires status.phase == PlanFor(w.deciding.value.decision, w.deciding.value.now).phase
    ensures Backed(w.cluster.decisions, w.log, w.now, w.deciding.value.request.name, status)
  {
    PlanIsSound(w.deciding.value.decision, w.deciding.value.now);
  }

  /** An applied decision has a patch behind it. */
  ghost predicate DecisionHoldsInLog(c: Cluster, log: seq<Change>, name: string) {
    name in c.decisions && (c.decisions[name].status.applied ==> WasPatched(log, name))
  }

  lemma MarkedHolds(digest: DigestFunction, w: World)
    requires Holds(digest, w) && w.deciding.Some? && w.deciding.value.stage == 2
    ensures var f := w.deciding.value;
      var after := MarkRequest(w.cluster, f.request, PlanFor(f.decision, f.now).phase, f.decision.name);
      after.Some? ==>
        && RequestsHold(digest, after.value, w.log, w.now) && DecisionsHold(digest, after.value, w.log)
        && LogHolds(after.value, w.now, w.log)
  {
    var f := w.deciding.value;
    var status := MarkedStatus(f.request, PlanFor(f.decision, f.now).phase, f.decision.name);
    assert DecisionHolds(digest, w.cluster.requests, w.log, f.decision.name, w.cluster.decisions[f.decision.name]);
    MarkIsBacked(w, status);
    WriteKeepsHold(digest, w, f.request, status);
  }

  lemma MarkKeepsHold(digest: DigestFunction, w: World)
    requires Holds(digest, w) && w.deciding.Some? && w.deciding.value.stage == 2
    ensures Holds(digest, Next(digest, w, AdvanceDecision))
  {
    var v := Next(digest, w, AdvanceDecision);
    StepGrows(digest, w, AdvanceDecision);
    MarkedHolds(digest, w);
    assert v.log == w.log;
    if w.reading.Some? {
      ReadGrows(w, v, w.reading.value);
    }
    if v.deciding.Some? {
      assert FlightHolds(w.cluster, w.now, w.log, v.deciding.value);
      FlightGrows(w, v, v.deciding.value);
    }
  }

  lemma FinishedDecisionHolds(digest: DigestFunction, c: Cluster, now: int, log: seq<Change>, f: Flight)
    requires DecisionsHold(digest, c, log) && f.decision.name in c.decisions
    requires DecisionGrows(f.decision, c.decisions[f.decision.name], now)
      && c.decisions[f.decision.name].status == f.decision.status
    requires PlanFor(f.decision, f.now).applies ==> WasPatched(log, f.decision.name)
    ensures var after := FinishDecision(c, f.decision, PlanFor(f.decision, f.now).status);
      after.Some? ==>
        && after.value.requests == c.requests
        && forall n <- after.value.decisions ::
             || (n in c.decisions && after.value.decisions[n].status == c.decisions[n].status)
             || DecisionHolds(digest, after.value.requests, log, n, after.value.decisions[n])
  {
    PlanIsSound(f.decision, f.now);
    assert DecisionHolds(digest, c.requests, log, f.decision.name, c.decisions[f.decision.name]);
  }

  lemma FinishKeepsHold(digest: DigestFunction, w: World)
    requires Holds(digest, w) && w.deciding.Some? && w.deciding.value.stage > 2
    ensures Holds(digest, Next(digest, w, AdvanceDecision))
  {
    var v := Next(digest, w, AdvanceDecision);
    StepGrows(digest, w, AdvanceDecision);
    FinishedDecisionHolds(digest, w.cluster, w.now, w.log, w.deciding.value);
    assert v.log == w.log;
    GrowthKeepsHold(digest, w, v);
    if w.reading.Some? {
      ReadGrows(w, v, w.reading.value);
    }
  }

  lemma StepKeepsHold(digest: DigestFunction, w: World, s: Step)
    requires Holds(digest, w)
    ensures Holds(digest, Next(digest, w, s))
  {
    match s {
      case WriteRequest(findings) => WriteRequestKeepsHold(digest, w, findings);
      case AdvanceDecision =>
        if w.deciding.Some? {
          if w.deciding.value.stage == 0 {
            CopyKeepsHold(digest, w);
          } else if w.deciding.value.stage == 1 {
            PatchKeepsHold(digest, w);
          } else if w.deciding.value.stage == 2 {
            MarkKeepsHold(digest, w);
          } else {
            FinishKeepsHold(digest, w);
          }
        }
      case ReadRequest(_) =>
      case DropRequest =>
      case ReadDecision(_) =>
      case DropDecision =>
      case _ => OutsideKeepsHold(digest, w, s);
    }
  }

  /** Every interleaving, with crashes anywhere, keeps the invariant, and nothing recorded is lost on the way. */
  lemma {:induction false} EveryRunHolds(digest: DigestFunction, w: World, steps: seq<Step>)
    requires Holds(digest, w)
    ensures Holds(digest, Run(digest, w, steps)) && Grows(w, Run(digest, w, steps))
  {
    if |steps| > 0 {
      var before := Run(digest, w, steps[..|steps| - 1]);
      EveryRunHolds(digest, w, steps[..|steps| - 1]);
      StepKeepsHold(digest, before, steps[|steps| - 1]);
      StepGrows(digest, before, steps[|steps| - 1]);
      GrowsIsTransitive(w, before, Run(digest, w, steps));
    }
  }

  lemma StartHolds(digest: DigestFunction, divisions: map<string, Quota>, now: int)
    ensures Holds(digest, Start(divisions, now))
  {
  }

  // ----- what the invariant means -----

  /** However the calls and reconciles interleave, a stored digest is the digest of the documents stored beside it. */
  lemma DigestsAreTrue(digest: DigestFunction, divisions: map<string, Quota>, now: int, steps: seq<Step>)
    ensures var c := Run(digest, Start(divisions, now), steps).cluster;
      && (forall n <- c.requests :: c.requests[n].status.evidenceDigest != "" ==>
            c.requests[n].status.evidenceDigest == digest(c.requests[n].status.evidence))
      && (forall n <- c.decisions ::
            c.decisions[n].digest != "" && c.decisions[n].digest == digest(c.decisions[n].evidence))
  {
    StartHolds(digest, divisions, now);
    EveryRunHolds(digest, Start(divisions, now), steps);
    var w := Run(digest, Start(divisions, now), steps);
    forall n <- w.cluster.requests
      ensures w.cluster.requests[n].status.evidenceDigest != "" ==>
        w.cluster.requests[n].status.evidenceDigest == digest(w.cluster.requests[n].status.evidence)
    {
      assert RequestHolds(digest, w.cluster.decisions, w.log, w.now, n, w.cluster.requests[n]);
    }
  }

  /** What an approver decided on is what the digest they presented stands for, and stays so whatever happens next. */
  lemma DecidedOnWhatWasSeen(digest: DigestFunction, w: World, s: Step, later: seq<Step>)
    requires Holds(digest, w) && s.Decide?
    ensures var result := DecideOn(w.cluster, s.request, s.seen, s.outcome, s.reason, s.duration, s.actor, w.now,
      s.name);
      result.Decided? ==>
        && s.seen != "" && digest(result.decision.evidence) == s.seen && Some(result.decision.outcome) == s.outcome
        && var end := Run(digest, Next(digest, w, s), later).cluster;
           s.name in end.decisions && SameDecision(result.decision, end.decisions[s.name])
  {
    var v := Next(digest, w, s);
    StepKeepsHold(digest, w, s);
    EveryRunHolds(digest, v, later);
    if s.request in w.cluster.requests {
      assert RequestHolds(digest, w.cluster.decisions, w.log, w.now, s.request, w.cluster.requests[s.request]);
    }
    if s.name in v.cluster.decisions {
      assert DecisionGrows(v.cluster.decisions[s.name], Run(digest, v, later).cluster.decisions[s.name],
          Run(digest, v, later).now);
    }
  }

  /** Every quota a decision changed was the target of the request it approved, while the grant had not lapsed. */
  lemma EveryPatchWasGranted(digest: DigestFunction, divisions: map<string, Quota>, now: int, steps: seq<Step>, i: nat)
    requires i < |Run(digest, Start(divisions, now), steps).log|
      && Run(digest, Start(divisions, now), steps).log[i].Granted?
    ensures var w := Run(digest, Start(divisions, now), steps); Authorised(w.cluster, w.now, w.log[i].patch)
  {
    StartHolds(digest, divisions, now);
    EveryRunHolds(digest, Start(divisions, now), steps);
  }

  lemma PatchesOfOneDecisionAgree(digest: DigestFunction, w: World, i: nat, j: nat)
    requires Holds(digest, w) && i < |w.log| && j < |w.log| && w.log[i].Granted? && w.log[j].Granted?
    requires w.log[i].patch.decision.name == w.log[j].patch.decision.name
    ensures w.log[i].patch.division == w.log[j].patch.division && w.log[i].patch.target == w.log[j].patch.target
  {
    assert Authorised(w.cluster, w.now, w.log[i].patch) && Authorised(w.cluster, w.now, w.log[j].patch);
  }

  ghost predicate NoPatchFrom(log: seq<Change>, start: nat, decision: string) {
    forall i :: start <= i < |log| && log[i].Granted? ==> log[i].patch.decision.name != decision
  }

  /** The patch of a step, if it makes one, is the one of the flight under way. */
  lemma PatchIsTheFlights(digest: DigestFunction, w: World, s: Step)
    ensures var v := Next(digest, w, s);
      w.log <= v.log && forall i | |w.log| <= i < |v.log| && v.log[i].Granted? ::
        && s.AdvanceDecision? && w.deciding.Some? && w.deciding.value.stage == 1
        && i == |w.log| && |v.log| == |w.log| + 1
        && PlanFor(w.deciding.value.decision, w.deciding.value.now).applies
        && v.log[i].patch.decision == w.deciding.value.decision && v.log[i].patch.readAt == w.deciding.value.now
        && v.deciding == Some(w.deciding.value.(stage := 2))
  {
  }

  lemma AppliedStepPatchesNothing(digest: DigestFunction, w: World, s: Step, name: string)
    requires w.deciding.Some? ==> Tracks(w.cluster, w.now, w.deciding.value)
    requires name in w.cluster.decisions && w.cluster.decisions[name].status.applied
    ensures NoPatchFrom(Next(digest, w, s).log, |w.log|, name)
  {
    PatchIsTheFlights(digest, w, s);
    if w.deciding.Some? {
      PlanIsSound(w.deciding.value.decision, w.deciding.value.now);
    }
  }

  /** Once a decision says it was applied it says so for good, and never touches a quota again. */
  lemma {:induction false} AppliedIsForGood(digest: DigestFunction, w: World, steps: seq<Step>, name: string)
    requires Holds(digest, w) && name in w.cluster.decisions && w.cluster.decisions[name].status.applied
    ensures var v := Run(digest, w, steps);
      name in v.cluster.decisions && v.cluster.decisions[name].status.applied && NoPatchFrom(v.log, |w.log|, name)
  {
    if |steps| > 0 {
      var before := Run(digest, w, steps[..|steps| - 1]);
      AppliedIsForGood(digest, w, steps[..|steps| - 1], name);
      EveryRunHolds(digest, w, steps[..|steps| - 1]);
      AppliedStepPatchesNothing(digest, before, steps[|steps| - 1], name);
      StepGrows(digest, before, steps[|steps| - 1]);
      assert DecisionGrows(before.cluster.decisions[name], Run(digest, w, steps).cluster.decisions[name],
          Run(digest, w, steps).now);
    }
  }

  /** A request marked applied has had its quota patched, by an approval of it; the other verdicts are real too. */
  lemma PhasesTellTheTruth(digest: DigestFunction, divisions: map<string, Quota>, now: int, steps: seq<Step>,
      name: string)
    requires name in Run(digest, Start(divisions, now), steps).cluster.requests
    ensures var w := Run(digest, Start(divisions, now), steps);
      Backed(w.cluster.decisions, w.log, w.now, name, w.cluster.requests[name].status)
  {
    StartHolds(digest, divisions, now);
    EveryRunHolds(digest, Start(divisions, now), steps);
    var w := Run(digest, Start(divisions, now), steps);
    assert RequestHolds(digest, w.cluster.decisions, w.log, w.now, name, w.cluster.requests[name]);
  }

  // ----- quotas change only through the log -----

  function Replay(divisions: map<string, Quota>, log: seq<Change>): map<string, Quota> {
    if |log| == 0 then divisions
    else
      match log[|log| - 1]
      case Granted(p) => Patched(Replay(divisions, log[..|log| - 1]), p)
      case Edited(name, quota) => Replay(divisions, log[..|log| - 1])[name := quota]
  }

  lemma StepReplays(digest: DigestFunction, divisions: map<string, Quota>, w: World, s: Step)
    requires w.cluster.divisions == Replay(divisions, w.log)
    ensures var v := Next(digest, w, s); v.cluster.divisions == Replay(divisions, v.log)
  {
    var v := Next(digest, w, s);
    if |v.log| > |w.log| {
      assert v.log[..|v.log| - 1] == w.log;
    } else {
      assert v.log == w.log;
    }
  }

  /** No quota moves but by an operator's edit or a patch in the log, and the last of them is what is stored. */
  lemma {:induction false} QuotasAreTheLogReplayed(digest: DigestFunction, divisions: map<string, Quota>, now: int,
      steps: seq<Step>)
    ensures var w := Run(digest, Start(divisions, now), steps); w.cluster.divisions == Replay(divisions, w.log)
  {
    if |steps| > 0 {
      QuotasAreTheLogReplayed(digest, divisions, now, steps[..|steps| - 1]);
      StepReplays(digest, divisions, Run(digest, Start(divisions, now), steps[..|steps| - 1]), steps[|steps| - 1]);
    }
  }

  // ----- stale writes, closed requests, second decisions -----

  predicate Closed(r: Request) {
    !r.withdrawn && !r.Open()
  }

  /** Only a decision reconcile moves a closed request: a request reconcile that read it earlier is refused. */
  lemma ClosedRequestsAreLeftAlone(digest: DigestFunction, w: World, s: Step, name: string)
    requires Holds(digest, w) && name in w.cluster.requests && Closed(w.cluster.requests[name]) && !s.AdvanceDecision?
    ensures var v := Next(digest, w, s);
      name in v.cluster.requests && v.cluster.requests[name].status == w.cluster.requests[name].status
  {
  }

  /** Recording a decision does not close the request: another one on the same evidence is accepted as well. */
  lemma ASecondDecisionIsAccepted(c: Cluster, request: string, seen: string, outcome: Outcome, reason: string,
                                  duration: Option<Option<int>>, actor: string, now: int, first: string, second: string)
    requires second !in c.decisions && second != first
    requires outcome == OutcomeApproved ==> GrantUntil(duration, now).Some?
    ensures forall o: Option<Outcome>, reason', duration', actor' ::
      var result := DecideOn(c, request, seen, o, reason', duration', actor', now, first);
      result.Decided? ==>
        DecideOn(Record(c, result), request, seen, Some(outcome), reason, duration, actor, now, second).Decided?
  {
  }

  /** The stored quota already has the target's value wherever the copy had it. */
  predicate StillAgrees(current: Quota, copy: Quota, target: Quota) {
    && (copy.cpuMillicores == target.cpuMillicores ==> current.cpuMillicores == target.cpuMillicores)
    && (copy.memoryBytes == target.memoryBytes ==> current.memoryBytes == target.memoryBytes)
    && (copy.storageBytes == target.storageBytes ==> current.storageBytes == target.storageBytes)
    && (copy.pods == target.pods ==> current.pods == target.pods)
  }

  /**
   A patch sets the division's quota to the target if and only if nobody, since the division was read, edited a field in
   which it had the target's value: such a field is not sent, and the edit survives.
   */
  lemma PatchSetsTheTargetIff(divisions: map<string, Quota>, p: Patch)
    requires p.division in divisions
    ensures Patched(divisions, p)[p.division] == p.target <==> StillAgrees(divisions[p.division], p.copy, p.target)
    ensures forall name <- divisions :: name != p.division ==> Patched(divisions, p)[name] == divisions[name]
  {
  }

  function FieldAfter(edited: int, copy: int, target: int): int {
    if copy == target then edited else target
  }

  /** The fields in which the copy had the target's value are those of `edited`, the others the target's. */
  predicate EditSurvives(end: Quota, edited: Quota, copy: Quota, target: Quota) {
    && end.cpuMillicores == FieldAfter(edited.cpuMillicores, copy.cpuMillicores, target.cpuMillicores)
    && end.memoryBytes == FieldAfter(edited.memoryBytes, copy.memoryBytes, target.memoryBytes)
    && end.storageBytes == FieldAfter(edited.storageBytes, copy.storageBytes, target.storageBytes)
    && end.pods == FieldAfter(edited.pods, copy.pods, target.pods)
  }

  /**
   An operator's edit between the read and the patch survives in every field in which the division had the target's
   value when it was read, and the decision counts as patched all the same.
   */
  lemma AnEditInBetweenSurvives(digest: DigestFunction, w: World, edited: Quota)
    requires Holds(digest, w) && w.deciding.Some? && w.deciding.value.stage == 1
    requires PlanFor(w.deciding.value.decision, w.deciding.value.now).applies && w.deciding.value.copy.Some?
    requires w.deciding.value.request.division in w.cluster.divisions
    ensures var f := w.deciding.value;
            var between := Next(digest, w, EditDivision(f.request.division, edited));
            var v := Next(digest, between, AdvanceDecision);
            && EditSurvives(v.cluster.divisions[f.request.division], edited, f.copy.value, f.request.target)
            && (v.cluster.divisions[f.request.division] == f.request.target <==>
                  StillAgrees(edited, f.copy.value, f.request.target))
            && v.deciding.Some? && v.deciding.value.stage == 2
            && WasPatched(v.log, f.decision.name)
  {
    var f := w.deciding.value;
    var between := Next(digest, w, EditDivision(f.request.division, edited));
    var v := Next(digest, between, AdvanceDecision);
    assert v.log[|between.log|].Granted? && v.log[|between.log|].patch.decision == f.decision;
  }
}
