/**
 Quota requests and the decisions on them: the service calls and the two reconcilers, over objects with
 optimistic locking (internal/requests/controller.go, internal/requests/decisions.go, internal/requests/service.go).
 */
module Requests {
  import TTL
  import opened Text

  datatype Quota = Quota(cpuMillicores: int, memoryBytes: int, storageBytes: int, pods: int)

  datatype RequestPhase =
    | Unset | Pending | AwaitingDecision | Approved | Rejected | ChangesRequested | Applied | Expired | Withdrawn

  /** The three documents an approver sees, as JSON; any of them may be missing. */
  datatype Evidence = Evidence(recommendation: Option<string>, preflight: Option<string>, simulation: Option<string>)

  datatype Condition = Condition(kind: string, status: bool, reason: string, message: string)

  datatype RequestStatus = RequestStatus(
    phase: RequestPhase, evidence: Evidence, decisionRef: string, evidenceDigest: string, observedGeneration: int,
    conditions: seq<Condition>)

  /** `version` stands for the resource version: every stored change raises it. */
  datatype Request = Request(
    name: string, division: string, target: Quota, withdrawn: bool, generation: int, version: nat,
        status: RequestStatus)
  {
    predicate Open() {
      match status.phase
      case Unset | Pending | AwaitingDecision | ChangesRequested => !withdrawn
      case _ => false
    }
  }

  datatype Outcome = OutcomeApproved | OutcomeRejected | OutcomeChangesRequested

  datatype Message = NoMessage | WasRejected | AskedForChanges | GrantLapsed | QuotaMatches

  datatype DecisionStatus = DecisionStatus(applied: bool, appliedAt: Option<int>, expired: bool, message: Message,
      observedGeneration: int)

  datatype Decision = Decision(
    name: string, request: string, outcome: Outcome, reason: string, decidedBy: string, evidence: Evidence,
        digest: string,
    grantedUntil: Option<int>, revokedReason: string, generation: int, version: nat, status: DecisionStatus)
  {
    predicate Lapsed(now: int) {
      outcome == OutcomeApproved && grantedUntil.Some? && now > grantedUntil.value
    }
  }

  datatype Cluster = Cluster(requests: map<string, Request>, decisions: map<string, Decision>, divisions: map<string,
      Quota>)

  /** EvidenceDigest: hex SHA-256 of the JSON of the three documents. */
  type DigestFunction = Evidence -> string

  const NO_EVIDENCE := Evidence(None, None, None)
  const DECIDED := "Decided"
  const RECOMMENDED := "Recommended"
  const DEFAULT_GRANT: int := 90 * 24 * TTL.HOUR

  // ----- conditions -----

  function SetCondition(conditions: seq<Condition>, condition: Condition): seq<Condition> {
    if conditions == [] then [condition]
    else if conditions[0].kind == condition.kind then [condition] + conditions[1..]
    else [conditions[0]] + SetCondition(conditions[1..], condition)
  }

  // ----- the request reconciler -----

  /** What the reads of one reconcile came back with. */
  datatype Findings = DivisionMissing | ReadFailed | Gathered(evidence: Evidence, conditions: seq<Condition>)

  /** The status a reconcile of this snapshot wants to write; None when it writes nothing. */
  function NextRequestStatus(digest: DigestFunction, request: Request, findings: Findings): Option<RequestStatus> {
    var status := request.status.(observedGeneration := request.generation);
    if request.withdrawn then Some(status.(phase := Withdrawn))
    else if !request.Open() then None
    else
      match findings
      case DivisionMissing =>
        Some(status.(phase := Pending,
                     conditions := SetCondition(status.conditions,
                         Condition(RECOMMENDED, false, "DivisionMissing", request.division))))
      case ReadFailed => None
      case Gathered(evidence, conditions) =>
        Some(status.(phase := AwaitingDecision, evidence := evidence, evidenceDigest := digest(evidence),
            conditions := conditions))
  }

  /** equalRequestStatus: the documents themselves are not compared. */
  predicate SameRequestStatus(a: RequestStatus, b: RequestStatus) {
    && a.phase == b.phase && a.evidenceDigest == b.evidenceDigest && a.decisionRef == b.decisionRef
    && a.observedGeneration == b.observedGeneration && a.conditions == b.conditions
  }

  /** Status().Update: refused when the object has changed since it was read. */
  function UpdateRequestStatus(c: Cluster, read: Request, status: RequestStatus): Option<Cluster> {
    if read.name !in c.requests || c.requests[read.name].version != read.version then None
    else Some(c.(requests := c.requests[read.name := c.requests[read.name].(status := status,
        version := read.version + 1)]))
  }

  function FinishRequest(digest: DigestFunction, c: Cluster, read: Request, findings: Findings): Cluster {
    match NextRequestStatus(digest, read, findings)
    case None => c
    case Some(status) =>
      if SameRequestStatus(read.status, status) then c
      else
        match UpdateRequestStatus(c, read, status)
        case None => c
        case Some(after) => after
  }

  // ----- the decision reconciler -----

  /** What the switch over the outcome comes to. */
  datatype Plan = Plan(phase: RequestPhase, applies: bool, status: DecisionStatus)

  function PlanFor(d: Decision, now: int): Plan {
    var status := d.status.(observedGeneration := d.generation);
    match d.outcome
    case OutcomeRejected => Plan(Rejected, false, status.(message := WasRejected))
    case OutcomeChangesRequested => Plan(ChangesRequested, false, status.(message := AskedForChanges))
    case OutcomeApproved =>
      if d.Lapsed(now) then Plan(Expired, false, status.(expired := true, message := GrantLapsed))
      else if !status.applied then
        Plan(Applied, true, status.(applied := true, appliedAt := Some(now), message := QuotaMatches))
      else Plan(Applied, false, status)
  }

  /**
   A reconcile on its way: what it read, when, the copy of the division's quota its patch is made from, and how many
   of its four parts are behind it: reading the division, patching it, marking the request, writing the decision's
   status.
   */
  datatype Flight = Flight(decision: Decision, request: Request, now: int, copy: Option<Quota>, stage: nat)

  function BeginDecision(c: Cluster, name: string, now: int): Option<Flight> {
    if name !in c.decisions || c.decisions[name].request !in c.requests then None
    else Some(Flight(c.decisions[name], c.requests[c.decisions[name].request], now, None, 0))
  }

  /** One quota patch: from the copy that was read to the target, with the decision it was made for as it was read. */
  datatype Patch = Patch(division: string, copy: Quota, target: Quota, decision: Decision, readAt: int)

  /** A merge patch sends the fields in which the target differs from the copy; the others stay as they are by then. */
  function Merge(current: Quota, copy: Quota, target: Quota): Quota {
    Quota(if target.cpuMillicores != copy.cpuMillicores then target.cpuMillicores else current.cpuMillicores,
          if target.memoryBytes != copy.memoryBytes then target.memoryBytes else current.memoryBytes,
          if target.storageBytes != copy.storageBytes then target.storageBytes else current.storageBytes,
          if target.pods != copy.pods then target.pods else current.pods)
  }

  /** The next part of a flight; no flight comes back when it is over, whether done or refused. */
  function Advance(c: Cluster, f: Flight): (Cluster, Option<Flight>, Option<Patch>) {
    var plan := PlanFor(f.decision, f.now);
    if f.stage == 0 then
      if !plan.applies then (c, Some(f.(stage := 1)), None)
      else if f.request.division !in c.divisions then (c, None, None)
      else (c, Some(f.(stage := 1, copy := Some(c.divisions[f.request.division]))), None)
    else if f.stage == 1 then
      if !plan.applies then (c, Some(f.(stage := 2)), None)
      else if f.copy.None? || f.request.division !in c.divisions then (c, None, None)
      else
        var patch := Patch(f.request.division, f.copy.value, f.request.target, f.decision, f.now);
        (c.(divisions := Patched(c.divisions, patch)), Some(f.(stage := 2)), Some(patch))
    else if f.stage == 2 then
      match MarkRequest(c, f.request, plan.phase, f.decision.name)
      case None => (c, None, None)
      case Some(after) => (after, Some(f.(stage := 3)), None)
    else
      match FinishDecision(c, f.decision, plan.status)
      case None => (c, None, None)
      case Some(after) => (after, None, None)
  }

  function Patched(divisions: map<string, Quota>, p: Patch): map<string, Quota> {
    if p.division !in divisions then divisions
    else divisions[p.division := Merge(divisions[p.division], p.copy, p.target)]
  }

  /** applyQuota with nothing between its read and its patch; None when the division is gone. */
  function PatchQuota(c: Cluster, request: Request): Option<Cluster> {
    if request.division !in c.divisions then None
    else Some(c.(divisions := c.divisions[request.division := request.target]))
  }

  /** The status of a request marked with a decision. */
  function MarkedStatus(read: Request, phase: RequestPhase, decision: string): RequestStatus {
    read.status.(
      phase := phase, decisionRef := decision,
      conditions := SetCondition(read.status.conditions, Condition(DECIDED, true, PhaseName(phase), decision)))
  }

  /** setRequestPhase; None when the update is refused. */
  function MarkRequest(c: Cluster, read: Request, phase: RequestPhase, decision: string): Option<Cluster> {
    if read.status.phase == phase && read.status.decisionRef == decision then Some(c)
    else UpdateRequestStatus(c, read, MarkedStatus(read, phase, decision))
  }

  function PhaseName(phase: RequestPhase): string {
    match phase
    case Unset => ""
    case Pending => "Pending"
    case AwaitingDecision => "AwaitingDecision"
    case Approved => "Approved"
    case Rejected => "Rejected"
    case ChangesRequested => "ChangesRequested"
    case Applied => "Applied"
    case Expired => "Expired"
    case Withdrawn => "Withdrawn"
  }

  predicate SameDecisionStatus(a: DecisionStatus, b: DecisionStatus) {
    a.applied == b.applied && a.expired == b.expired && a.message == b.message
        && a.observedGeneration == b.observedGeneration
  }

  /** writeStatus of a decision; None when the update is refused. */
  function FinishDecision(c: Cluster, read: Decision, status: DecisionStatus): Option<Cluster> {
    if SameDecisionStatus(read.status, status) then Some(c)
    else if read.name !in c.decisions || c.decisions[read.name].version != read.version then None
    else
      Some(c.(decisions := c.decisions[read.name := c.decisions[read.name].(status := status,
          version := read.version + 1)]))
  }

  /** nextCheck: zero means no further callback. */
  function NextCheck(d: Decision, now: int): int {
    if d.outcome != OutcomeApproved || d.grantedUntil.None? then 0
    else
      var remaining := d.grantedUntil.value - now;
      if remaining <= 0 then 0 else if remaining > TTL.HOUR then TTL.HOUR else remaining
  }

  // ----- the service calls -----

  datatype DecideError = NotFound | NotOpen | NoEvidenceYet | EvidenceChanged | NoOutcome | BadDuration | NameTaken

  datatype DecideResult = Decided(decision: Decision) | Refused(error: DecideError)

  /** `duration`: None when no text was given, Some(None) when it is no duration. */
  function GrantUntil(duration: Option<Option<int>>, now: int): Option<int> {
    match duration
    case None => Some(now + DEFAULT_GRANT)
    case Some(None) => None
    case Some(Some(window)) => if window <= 0 then None else Some(now + window)
  }

  function DecideOn(c: Cluster, request: string, seen: string, outcome: Option<Outcome>, reason: string,
                    duration: Option<Option<int>>, actor: string, now: int, name: string): DecideResult
  {
    if request !in c.requests then Refused(NotFound)
    else
      var r := c.requests[request];
      if !r.Open() then Refused(NotOpen)
      else if r.status.evidenceDigest == "" then Refused(NoEvidenceYet)
      else if seen != r.status.evidenceDigest then Refused(EvidenceChanged)
      else if outcome.None? then Refused(NoOutcome)
      else if outcome.value == OutcomeApproved && GrantUntil(duration, now).None? then Refused(BadDuration)
      else if name in c.decisions then Refused(NameTaken)
      else Decided(Decision(name, r.name, outcome.value, reason, actor, r.status.evidence, r.status.evidenceDigest,
                            if outcome.value == OutcomeApproved then GrantUntil(duration, now) else None, "", 1, 1,
                            DecisionStatus(false, None, false, NoMessage, 0)))
  }

  function Record(c: Cluster, result: DecideResult): Cluster {
    match result
    case Refused(_) => c
    case Decided(d) => c.(decisions := c.decisions[d.name := d])
  }

  function Submit(c: Cluster, name: string, division: string, target: Quota): Cluster {
    if name in c.requests || division !in c.divisions then c
    else c.(requests := c.requests[name := Request(name, division, target, false, 1, 1,
                                                   RequestStatus(Unset, NO_EVIDENCE, "", "", 0, []))])
  }

  function Revoke(c: Cluster, name: string, reason: string, now: int): Cluster {
    if reason == "" || name !in c.decisions then c
    else
      var d := c.decisions[name];
      if d.revokedReason == reason && d.grantedUntil == Some(now) then c
      else c.(decisions := c.decisions[name := d.(revokedReason := reason, grantedUntil := Some(now),
                                             generation := d.generation + 1, version := d.version + 1)])
  }

  function Withdraw(c: Cluster, name: string): Cluster {
    if name !in c.requests || c.requests[name].withdrawn then c
    else
      var r := c.requests[name];
      c.(requests := c.requests[name := r.(withdrawn := true, generation := r.generation + 1,
          version := r.version + 1)])
  }

  // ----- the same, as code that changes the stored objects -----

  /** Where a decision reconcile stops: one of its writes fails, after or without taking effect. */
  datatype Stop = Nowhere | AtPatch(done: bool) | AtMark(done: bool) | AtFinish(done: bool) {
    predicate Done() {
      !Nowhere? && done
    }
  }

  class Platform {
    const digest: DigestFunction
    var requests: map<string, Request>
    var decisions: map<string, Decision>
    var divisions: map<string, Quota>

    constructor (digest: DigestFunction, divisions: map<string, Quota>)
      ensures this.digest == digest && State() == Cluster(map[], map[], divisions)
    {
      this.digest := digest;
      requests, decisions, this.divisions := map[], map[], divisions;
    }

    ghost function State(): Cluster
      reads this
    {
      Cluster(requests, decisions, divisions)
    }

    method Decide(request: string, seen: string, outcome: Option<Outcome>, reason: string,
        duration: Option<Option<int>>, actor: string, now: int, name: string)
      returns (result: DecideResult)
      modifies this`decisions
      ensures result == DecideOn(old(State()), request, seen, outcome, reason, duration, actor, now, name)
      ensures State() == Record(old(State()), result)
    {
      if request !in requests {
        return Refused(NotFound);
      }
      var r := requests[request];
      if !r.Open() {
        return Refused(NotOpen);
      }
      if r.status.evidenceDigest == "" {
        return Refused(NoEvidenceYet);
      }
      if seen != r.status.evidenceDigest {
        return Refused(EvidenceChanged);
      }
      if outcome.None? {
        return Refused(NoOutcome);
      }
      var decision := Decision(name, r.name, outcome.value, reason, actor, r.status.evidence, r.status.evidenceDigest,
                               None, "", 1, 1, DecisionStatus(false, None, false, NoMessage, 0));
      if outcome.value == OutcomeApproved {
        var until := GrantUntil(duration, now);
        if until.None? {
          return Refused(BadDuration);
        }
        decision := decision.(grantedUntil := until);
      }
      if name in decisions {
        return Refused(NameTaken);
      }
      decisions := decisions[name := decision];
      result := Decided(decision);
    }

    method ReconcileRequest(name: string, findings: Findings)
      modifies this`requests
      ensures State() == if name in old(requests) then FinishRequest(digest, old(State()), old(requests)[name],
        findings) else old(State())
    {
      if name !in requests {
        return;
      }
      var request := requests[name];
      var status := request.status.(observedGeneration := request.generation);
      if request.withdrawn {
        status := status.(phase := Withdrawn);
        WriteRequestStatus(request, status);
        return;
      }
      if !request.Open() {
        return;
      }
      match findings {
        case DivisionMissing =>
          status := status.(phase := Pending);
          status := status.(conditions :=
            SetCondition(status.conditions, Condition(RECOMMENDED, false, "DivisionMissing", request.division)));
        case ReadFailed =>
          return;
        case Gathered(evidence, conditions) =>
          status := status.(evidence := evidence, conditions := conditions);
          status := status.(phase := AwaitingDecision);
          status := status.(evidenceDigest := digest(evidence));
      }
      WriteRequestStatus(request, status);
    }

    method WriteRequestStatus(request: Request, status: RequestStatus)
      modifies this`requests
      ensures State() == if SameRequestStatus(request.status, status) then old(State())
                         else match UpdateRequestStatus(old(State()), request, status)
                              case None => old(State())
                              case Some(after) => after
    {
      if SameRequestStatus(request.status, status) {
        return;
      }
      if request.name !in requests || requests[request.name].version != request.version {
        return;
      }
      requests := requests[request.name := requests[request.name].(status := status, version := request.version + 1)];
    }

    method ApplyQuota(request: Request, stop: Stop) returns (ok: bool)
      modifies this`divisions
      ensures (State(), ok) == Attempt(old(State()), PatchQuota(old(State()), request), stop.AtPatch?, stop)
    {
      if request.division !in divisions {
        return false;
      }
      var copy := divisions[request.division];
      if stop != AtPatch(false) {
        divisions := divisions[request.division := Merge(divisions[request.division], copy, request.target)];
      }
      ok := !stop.AtPatch?;
    }

    method SetRequestPhase(request: Request, phase: RequestPhase, decision: string, stop: Stop) returns (ok: bool)
      modifies this`requests
      ensures (State(), ok) == Attempt(old(State()), MarkRequest(old(State()), request, phase, decision),
        stop.AtMark?, stop)
    {
      if request.status.phase == phase && request.status.decisionRef == decision {
        return !stop.AtMark?;
      }
      var status := request.status.(phase := phase, decisionRef := decision);
      status := status.(conditions := SetCondition(status.conditions,
          Condition(DECIDED, true, PhaseName(phase), decision)));
      if request.name !in requests || requests[request.name].version != request.version {
        return false;
      }
      if stop != AtMark(false) {
        requests := requests[request.name := requests[request.name].(status := status, version := request.version + 1)];
      }
      ok := !stop.AtMark?;
    }

    method WriteDecisionStatus(decision: Decision, status: DecisionStatus, stop: Stop) returns (ok: bool)
      modifies this`decisions
      ensures (State(), ok) == Attempt(old(State()), FinishDecision(old(State()), decision, status), stop.AtFinish?,
        stop)
    {
      if SameDecisionStatus(decision.status, status) {
        return !stop.AtFinish?;
      }
      if decision.name !in decisions || decisions[decision.name].version != decision.version {
        return false;
      }
      if stop != AtFinish(false) {
        decisions := decisions[decision.name := decisions[decision.name].(status := status,
            version := decision.version + 1)];
      }
      ok := !stop.AtFinish?;
    }

    /** One whole reconcile with nothing in between. */
    method ReconcileDecision(name: string, now: int, stop: Stop) returns (requeueAfter: int)
      modifies this
      ensures (State(), requeueAfter) == ReconcileDecisionStep(old(State()), name, now, stop)
    {
      if name !in decisions || decisions[name].request !in requests {
        return 0;
      }
      var decision := decisions[name];
      var request := requests[decision.request];
      var status := decision.status.(observedGeneration := decision.generation);
      var phase := Expired;
      var ok;
      match decision.outcome {
        case OutcomeRejected =>
          phase := Rejected;
          status := status.(message := WasRejected);
        case OutcomeChangesRequested =>
          phase := ChangesRequested;
          status := status.(message := AskedForChanges);
        case OutcomeApproved =>
          if decision.Lapsed(now) {
            status := status.(expired := true, message := GrantLapsed);
          } else {
            phase := Applied;
            if !status.applied {
              ok := ApplyQuota(request, stop);
              if !ok {
                return 0;
              }
              status := status.(applied := true, appliedAt := Some(now), message := QuotaMatches);
            }
          }
      }
      ok := SetRequestPhase(request, phase, decision.name, stop);
      if !ok {
        return 0;
      }
      ok := WriteDecisionStatus(decision, status, stop);
      requeueAfter := if ok then NextCheck(decision, now) else 0;
    }
  }

  /** A write that is refused, or stops the reconcile with or without taking effect, or goes through. */
  function Attempt(c: Cluster, after: Option<Cluster>, stopsHere: bool, stop: Stop): (Cluster, bool) {
    match after
    case None => (c, false)
    case Some(written) => if !stopsHere then (written, true) else if stop.Done() then (written, false) else (c, false)
  }

  function ReconcileDecisionStep(c: Cluster, name: string, now: int, stop: Stop): (Cluster, int) {
    match BeginDecision(c, name, now)
    case None => (c, 0)
    case Some(f) =>
      var plan := PlanFor(f.decision, now);
      var (c1, ok1) := if plan.applies then Attempt(c, PatchQuota(c, f.request), stop.AtPatch?, stop) else (c, true);
      if !ok1 then (c1, 0)
      else
        var (c2, ok2) := Attempt(c1, MarkRequest(c1, f.request, plan.phase, f.decision.name), stop.AtMark?, stop);
        if !ok2 then (c2, 0)
        else
          var (c3, ok3) := Attempt(c2, FinishDecision(c2, f.decision, plan.status), stop.AtFinish?, stop);
          (c3, if ok3 then NextCheck(f.decision, now) else 0)
  }
}
