/**
 One decision reconcile with nothing in between, wherever it crashes, and the whole one that retries it. It is a run of
 the parts that RequestLaws interleaves, so all that holds of runs holds of it.
 */
module RequestRetries {
  import TTL
  import opened Text
  import opened Requests
  import opened RequestLaws

  // ----- a reconcile, as a run of its parts -----

  function Advances(k: nat): seq<Step> {
    if k == 0 then [] else Advances(k - 1) + [AdvanceDecision]
  }

  lemma RunOneMore(digest: DigestFunction, w: World, steps: seq<Step>, s: Step)
    ensures Run(digest, w, steps + [s]) == Next(digest, Run(digest, w, steps), s)
  {
    assert (steps + [s])[..|steps + [s]| - 1] == steps;
  }

  /** The world after a reconcile's reads and its first k writes. */
  function Midway(digest: DigestFunction, w: World, name: string, k: nat): World {
    if k == 0 then Next(digest, w, ReadDecision(name))
        else Next(digest, Midway(digest, w, name, k - 1), AdvanceDecision)
  }

  lemma MidwayIsARun(digest: DigestFunction, w: World, name: string, k: nat)
    ensures Run(digest, w, [ReadDecision(name)] + Advances(k)) == Midway(digest, w, name, k)
  {
    if k == 0 {
      RunOneMore(digest, w, [], ReadDecision(name));
      assert [] + [ReadDecision(name)] == [ReadDecision(name)] + Advances(0);
    } else {
      MidwayIsARun(digest, w, name, k - 1);
      RunOneMore(digest, w, [ReadDecision(name)] + Advances(k - 1), AdvanceDecision);
      assert [ReadDecision(name)] + Advances(k - 1) + [AdvanceDecision] == [ReadDecision(name)] + Advances(k);
    }
  }

  /** How many parts of an uninterrupted reconcile are behind it where it stops. */
  function PartsDone(c: Cluster, name: string, now: int, stop: Stop): (k: nat)
    ensures k <= 4
  {
    match BeginDecision(c, name, now)
    case None => 0
    case Some(f) =>
      if PlanFor(f.decision, now).applies && f.request.division !in c.divisions then 1
      else if PlanFor(f.decision, now).applies && stop.AtPatch? then if stop.done then 2 else 1
      else
        match stop
        case AtMark(done) => if done then 3 else 2
        case AtFinish(done) => if done then 4 else 3
        case _ => 4
  }

  /** What it has put into the log by then. */
  function LogOf(c: Cluster, name: string, now: int, stop: Stop): seq<Change> {
    match BeginDecision(c, name, now)
    case None => []
    case Some(f) =>
      var division := f.request.division;
      if !PlanFor(f.decision, now).applies || division !in c.divisions || stop == AtPatch(false) then []
      else [Granted(Patch(division, c.divisions[division], f.request.target, f.decision, now))]
  }

  /** A patch made from the very quota that is stored sets the target. */
  lemma PatchFromTheCurrentQuota(c: Cluster, r: Request, d: Decision, now: int)
    requires r.division in c.divisions
    ensures Patched(c.divisions, Patch(r.division, c.divisions[r.division], r.target, d, now))
         == PatchQuota(c, r).value.divisions
  {
  }

  /** The first two parts, uninterrupted: nothing, a refusal, or the patch. */
  lemma AfterTheFirstTwo(digest: DigestFunction, w: World, name: string)
    requires w.deciding.None? && BeginDecision(w.cluster, name, w.now).Some?
    ensures var f := BeginDecision(w.cluster, name, w.now).value;
            var m1, m2 := Midway(digest, w, name, 1), Midway(digest, w, name, 2);
            && m1.cluster == w.cluster && m1.log == w.log
            && match AfterPatch(w.cluster, f.decision, f.request, w.now)
               case None => m2 == w
               case Some(c1) =>
                 && m2.cluster == c1 && m2.deciding.Some?
                 && m2.deciding.value == f.(copy := m2.deciding.value.copy, stage := 2)
                 && m2.log == w.log + (if PlanFor(f.decision, w.now).applies then LogOf(w.cluster, name, w.now,
                     Nowhere) else [])
  {
    var f := BeginDecision(w.cluster, name, w.now).value;
    var m0 := Midway(digest, w, name, 0);
    assert m0 == w.(deciding := Some(f));
    var m1 := Midway(digest, w, name, 1);
    assert m1 == Next(digest, m0, AdvanceDecision);
    var m2 := Midway(digest, w, name, 2);
    assert m2 == Next(digest, m1, AdvanceDecision);
    assert w.log + [] == w.log;
    if f.request.division in w.cluster.divisions {
      PatchFromTheCurrentQuota(w.cluster, f.request, f.decision, w.now);
    }
  }

  /** The last two, from where the first two led. */
  lemma AfterTheLastTwo(digest: DigestFunction, w: World, name: string)
    requires w.deciding.None? && BeginDecision(w.cluster, name, w.now).Some?
    requires var f := BeginDecision(w.cluster, name, w.now).value;
      AfterPatch(w.cluster, f.decision, f.request, w.now).Some?
    ensures var f := BeginDecision(w.cluster, name, w.now).value;
            var plan := PlanFor(f.decision, w.now);
            var c1 := AfterPatch(w.cluster, f.decision, f.request, w.now).value;
            var m2, m3, m4 := Midway(digest, w, name, 2), Midway(digest, w, name, 3), Midway(digest, w, name, 4);
            && m3.log == m2.log && m4.log == m2.log
            && match MarkRequest(c1, f.request, plan.phase, f.decision.name)
               case None => m3.cluster == c1 && m4.cluster == c1
               case Some(c2) =>
                 m3.cluster == c2 && m4.cluster == OrElse(FinishDecision(c2, f.decision, plan.status), c2)
  {
    AfterTheFirstTwo(digest, w, name);
    var m2 := Midway(digest, w, name, 2);
    var m3 := Midway(digest, w, name, 3);
    assert m3 == Next(digest, m2, AdvanceDecision);
    assert Midway(digest, w, name, 4) == Next(digest, m3, AdvanceDecision);
    assert m2.log + [] == m2.log;
  }

  /** Where a reconcile stops, in terms of its writes. */
  lemma WhereItStops(c: Cluster, name: string, now: int, stop: Stop)
    requires BeginDecision(c, name, now).Some?
    ensures var f := BeginDecision(c, name, now).value;
            var plan := PlanFor(f.decision, now);
            var end := ReconcileDecisionStep(c, name, now, stop).0;
            match AfterPatch(c, f.decision, f.request, now)
            case None => end == c
            case Some(c1) =>
              if plan.applies && stop.AtPatch? then end == if stop.done then c1 else c
              else
                match MarkRequest(c1, f.request, plan.phase, f.decision.name)
                case None => end == c1
                case Some(c2) =>
                  if stop.AtMark? then end == if stop.done then c2 else c1
                  else if stop == AtFinish(false) then end == c2
                  else end == OrElse(FinishDecision(c2, f.decision, plan.status), c2)
  {
  }

  /**
   The reconciler's method, wherever it stops, is the run of its read and its parts one after the other, cluster and log
   alike: so all of the above holds of it.
   */
  lemma AReconcileIsARun(digest: DigestFunction, w: World, name: string, stop: Stop)
    requires w.deciding.None?
    ensures var end := Run(digest, w, [ReadDecision(name)] + Advances(PartsDone(w.cluster, name, w.now, stop)));
            && end.cluster == ReconcileDecisionStep(w.cluster, name, w.now, stop).0
            && end.log == w.log + LogOf(w.cluster, name, w.now, stop)
  {
    var k := PartsDone(w.cluster, name, w.now, stop);
    MidwayIsARun(digest, w, name, k);
    assert w.log + [] == w.log;
    if BeginDecision(w.cluster, name, w.now).Some? {
      var f := BeginDecision(w.cluster, name, w.now).value;
      WhereItStops(w.cluster, name, w.now, stop);
      AfterTheFirstTwo(digest, w, name);
      if AfterPatch(w.cluster, f.decision, f.request, w.now).Some? {
        AfterTheLastTwo(digest, w, name);
      }
    } else {
      assert Midway(digest, w, name, 0) == w;
    }
  }

  predicate Readable(c: Cluster, name: string) {
    && name in c.decisions && c.decisions[name].name == name && c.decisions[name].request in c.requests
    && c.requests[c.decisions[name].request].name == c.decisions[name].request
  }

  lemma RetryAfterPatch(c: Cluster, name: string, now: int, later: int, done: bool)
    requires Readable(c, name) && c.decisions[name].Lapsed(now) == c.decisions[name].Lapsed(later)
    requires PlanFor(c.decisions[name], later).applies
    ensures var crashed := ReconcileDecisionStep(c, name, now, AtPatch(done)).0;
      ReconcileDecisionStep(crashed, name, later, Nowhere).0 == ReconcileDecisionStep(c, name, later, Nowhere).0
  {
    var r := c.requests[c.decisions[name].request];
    if r.division in c.divisions {
      var divisions := c.divisions[r.division := r.target];
      assert divisions[r.division := r.target] == divisions;
    }
  }

  /** The cluster after the patch, if the plan has one, or None when it is refused. */
  function AfterPatch(c: Cluster, d: Decision, r: Request, now: int): Option<Cluster> {
    if PlanFor(d, now).applies then PatchQuota(c, r) else Some(c)
  }

  function OrElse(after: Option<Cluster>, c: Cluster): Cluster {
    match after
    case None => c
    case Some(written) => written
  }

  lemma WholeReconcile(c: Cluster, name: string, now: int)
    requires Readable(c, name)
    ensures var d := c.decisions[name]; var r := c.requests[d.request]; var plan := PlanFor(d, now);
      var whole := ReconcileDecisionStep(c, name, now, Nowhere).0;
      match AfterPatch(c, d, r, now)
      case None => whole == c
      case Some(c1) =>
        match MarkRequest(c1, r, plan.phase, name)
        case None => whole == c1
        case Some(c2) => whole == OrElse(FinishDecision(c2, d, plan.status), c2)
  {
  }

  /** Patching and marking again, with what is now stored, changes nothing. */
  lemma SecondMarkIsNothing(c: Cluster, r: Request, phase: RequestPhase, name: string)
    requires r.name in c.requests && c.requests[r.name] == r
    ensures MarkRequest(c, r, phase, name).Some?
    ensures var c2 := MarkRequest(c, r, phase, name).value;
      && c2.decisions == c.decisions && c2.divisions == c.divisions && r.name in c2.requests
      && SameAsk(r, c2.requests[r.name])
      && MarkRequest(c2, c2.requests[r.name], phase, name) == Some(c2)
  {
  }

  lemma SecondPatchIsNothing(c: Cluster, r: Request, q: Request)
    requires SameAsk(r, q) && r.division in c.divisions && c.divisions[r.division] == r.target
    ensures PatchQuota(c, q) == Some(c)
  {
    assert c.divisions[r.division := r.target] == c.divisions;
  }

  lemma RetryAfterMark(c: Cluster, name: string, now: int, later: int, done: bool)
    requires Readable(c, name) && c.decisions[name].Lapsed(now) == c.decisions[name].Lapsed(later)
    ensures var crashed := ReconcileDecisionStep(c, name, now, AtMark(done)).0;
      ReconcileDecisionStep(crashed, name, later, Nowhere).0 == ReconcileDecisionStep(c, name, later, Nowhere).0
  {
    var d := c.decisions[name];
    var r := c.requests[d.request];
    var plan := PlanFor(d, later);
    var patched := AfterPatch(c, d, r, later);
    if patched.Some? {
      var c1 := patched.value;
      SecondMarkIsNothing(c1, r, plan.phase, name);
      var c2 := MarkRequest(c1, r, plan.phase, name).value;
      var crashed := if done then c2 else c1;
      assert ReconcileDecisionStep(c, name, now, AtMark(done)).0 == crashed;
      var q := crashed.requests[r.name];
      if plan.applies {
        SecondPatchIsNothing(crashed, r, q);
      }
      assert AfterPatch(crashed, d, q, later) == Some(crashed);
      WholeReconcile(crashed, name, later);
      WholeReconcile(c, name, later);
    }
  }

  lemma RetryWhenDone(c: Cluster, name: string, now: int, later: int)
    requires Readable(c, name) && c.decisions[name].Lapsed(now) == c.decisions[name].Lapsed(later)
    requires !PlanFor(c.decisions[name], later).applies
    ensures var done := ReconcileDecisionStep(c, name, now, Nowhere).0;
      ReconcileDecisionStep(done, name, later, Nowhere).0 == ReconcileDecisionStep(c, name, later, Nowhere).0
  {
    var d := c.decisions[name];
    var r := c.requests[d.request];
    WholeReconcile(c, name, now);
    WholeReconcile(c, name, later);
    SecondMarkIsNothing(c, r, PlanFor(d, later).phase, name);
  }

  /**
   A reconcile that stopped before its last write, followed by a whole one, leaves exactly what one whole reconcile
   would have: every patch, phase and version. It takes that the grant did not lapse in between.
   */
  lemma RetryAfterACrashIsTheWholeReconcile(c: Cluster, name: string, now: int, later: int, stop: Stop)
    requires Readable(c, name) && c.decisions[name].Lapsed(now) == c.decisions[name].Lapsed(later)
    requires stop.AtPatch? || stop.AtMark? || stop == AtFinish(false)
    ensures var crashed := ReconcileDecisionStep(c, name, now, stop).0;
      ReconcileDecisionStep(crashed, name, later, Nowhere).0 == ReconcileDecisionStep(c, name, later, Nowhere).0
  {
    PlanIsSound(c.decisions[name], now);
    PlanIsSound(c.decisions[name], later);
    if stop.AtMark? {
      RetryAfterMark(c, name, now, later, stop.done);
    } else if stop.AtFinish? {
      StoppingBeforeTheLastWrite(c, name, now);
      RetryAfterMark(c, name, now, later, true);
    } else if PlanFor(c.decisions[name], later).applies {
      RetryAfterPatch(c, name, now, later, stop.done);
    } else {
      NothingToStopAt(c, name, now, stop);
      RetryWhenDone(c, name, now, later);
    }
  }

  lemma StoppingBeforeTheLastWrite(c: Cluster, name: string, now: int)
    requires Readable(c, name)
    ensures ReconcileDecisionStep(c, name, now, AtFinish(false)).0
      == ReconcileDecisionStep(c, name, now, AtMark(true)).0
  {
  }

  lemma NothingToStopAt(c: Cluster, name: string, now: int, stop: Stop)
    requires Readable(c, name) && stop.AtPatch? && !PlanFor(c.decisions[name], now).applies
    ensures ReconcileDecisionStep(c, name, now, stop).0 == ReconcileDecisionStep(c, name, now, Nowhere).0
  {
  }

  /** When the patch went through and the rest did not, the retry records it if and only if the grant still stands. */
  lemma LapseAfterTheCrashHidesThePatch(c: Cluster, name: string, now: int, later: int)
    requires Readable(c, name) && PlanFor(c.decisions[name], now).applies
    requires c.requests[c.decisions[name].request].division in c.divisions
    ensures var r := c.requests[c.decisions[name].request];
      var end := ReconcileDecisionStep(ReconcileDecisionStep(c, name, now, AtPatch(true)).0, name, later, Nowhere).0;
      && end.divisions[r.division] == r.target && name in end.decisions && r.name in end.requests
      && (end.decisions[name].status.applied <==> !c.decisions[name].Lapsed(later))
      && (end.requests[r.name].status.phase == Applied <==> !c.decisions[name].Lapsed(later))
  {
  }

  // ----- withdrawn requests -----

  /**
   A grant is applied whatever has become of its request: the patch is made if and only if the grant stands and the
   division is there, also when the request was withdrawn, or rejected by another decision; the request is then
   marked Applied.
   */
  lemma AGrantOutlivesItsRequest(c: Cluster, name: string, now: int)
    requires Readable(c, name)
    ensures var r := c.requests[c.decisions[name].request];
            var d := c.decisions[name];
            var end := ReconcileDecisionStep(c, name, now, Nowhere).0;
            && (LogOf(c, name, now, Nowhere) != [] <==>
                  d.outcome == OutcomeApproved && !d.Lapsed(now) && !d.status.applied && r.division in c.divisions)
            && (LogOf(c, name, now, Nowhere) != [] ==>
                  && r.division in end.divisions && end.divisions[r.division] == r.target
                  && r.name in end.requests && end.requests[r.name].withdrawn == r.withdrawn
                  && end.requests[r.name].status.phase == Applied)
  {
    PlanIsSound(c.decisions[name], now);
    WhereItStops(c, name, now, Nowhere);
  }

  /** And so it comes about: an approval, a withdrawal, and then the reconcile. */
  lemma AWithdrawnRequestIsApplied(digest: DigestFunction, w: World, s: Step)
    requires Holds(digest, w) && s.Decide? && s.outcome == Some(OutcomeApproved) && s.request in w.cluster.requests
    requires DecideOn(w.cluster, s.request, s.seen, s.outcome, s.reason, s.duration, s.actor, w.now, s.name).Decided?
    requires w.cluster.requests[s.request].division in w.cluster.divisions
    ensures var v := Next(digest, Next(digest, w, s), WithdrawRequest(s.request));
            var end := ReconcileDecisionStep(v.cluster, s.name, v.now, Nowhere).0;
            && s.request in v.cluster.requests && v.cluster.requests[s.request].withdrawn
            && s.request in end.requests && end.requests[s.request].withdrawn
            && end.requests[s.request].status.phase == Applied
            && var r := end.requests[s.request];
               r.division in end.divisions && end.divisions[r.division] == r.target
  {
    var v := Next(digest, Next(digest, w, s), WithdrawRequest(s.request));
    assert RequestHolds(digest, w.cluster.decisions, w.log, w.now, s.request, w.cluster.requests[s.request]);
    ApprovedAndWithdrawn(w.cluster, s, w.now);
    AGrantOutlivesItsRequest(v.cluster, s.name, v.now);
    MarkKeepsTheAsk(v.cluster, s.name, v.now);
  }

  lemma ApprovedAndWithdrawn(c: Cluster, s: Step, now: int)
    requires s.Decide? && s.outcome == Some(OutcomeApproved)
    requires s.request in c.requests && c.requests[s.request].name == s.request
    requires DecideOn(c, s.request, s.seen, s.outcome, s.reason, s.duration, s.actor, now, s.name).Decided?
    ensures var result := DecideOn(c, s.request, s.seen, s.outcome, s.reason, s.duration, s.actor, now, s.name);
            var after := Withdraw(Record(c, result), s.request);
            && Readable(after, s.name) && after.decisions[s.name].request == s.request
            && after.requests[s.request].withdrawn
            && after.requests[s.request].division == c.requests[s.request].division
            && after.divisions == c.divisions && PlanFor(after.decisions[s.name], now).applies
  {
  }

  lemma MarkKeepsTheAsk(c: Cluster, name: string, now: int)
    requires Readable(c, name)
    ensures var r := c.requests[c.decisions[name].request];
            var end := ReconcileDecisionStep(c, name, now, Nowhere).0;
            r.name in end.requests && SameAsk(r, end.requests[r.name])
  {
    WhereItStops(c, name, now, Nowhere);
  }

  // ----- the callback -----

  /** When the reconciler is called for the nth time, if each callback comes on time. */
  function Visit(d: Decision, first: int, n: nat): int {
    if n == 0 then first else Visit(d, first, n - 1) + NextCheck(d, Visit(d, first, n - 1))
  }

  /**
   The callbacks of a grant come every hour and last at its very end, where it has not lapsed yet: none sees the
   lapse.
   */
  lemma {:induction false} CallbacksStopAtTheEndOfTheGrant(d: Decision, first: int, n: nat)
    requires d.outcome == OutcomeApproved && d.grantedUntil.Some? && first <= d.grantedUntil.value
    ensures var end := d.grantedUntil.value;
      && Visit(d, first, n) == (if first + n * TTL.HOUR <= end then first + n * TTL.HOUR else end)
      && !d.Lapsed(Visit(d, first, n)) && (NextCheck(d, Visit(d, first, n)) == 0 <==> Visit(d, first, n) == end)
  {
    if n > 0 {
      CallbacksStopAtTheEndOfTheGrant(d, first, n - 1);
    }
  }
}
