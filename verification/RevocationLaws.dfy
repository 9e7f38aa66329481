/** What a revocation stops and what it does not: every patch that can follow it, over every run. */
module RevocationLaws {
  import opened Text
  import opened Requests
  import opened RequestLaws
  import opened RequestRetries

  /** A reconcile that starts after a revocation patches nothing, unless it reads the clock at the very same moment. */
  lemma RevokingStopsThePatch(c: Cluster, name: string, reason: string, revoked: int, now: int)
    requires Readable(c, name) && reason != "" && revoked <= now
    ensures var d := c.decisions[name];
      var f := BeginDecision(Revoke(c, name, reason, revoked), name, now);
      f.Some? &&
      (PlanFor(f.value.decision, now).applies <==> now == revoked && d.outcome == OutcomeApproved && !d.status.applied)
  {
  }

  // ----- what follows a revocation -----

  /** The decision's grant is at its end, or past it: so it is once it has been revoked. */
  predicate AtItsEnd(w: World, name: string) {
    && name in w.cluster.decisions && w.cluster.decisions[name].grantedUntil.Some?
    && w.cluster.decisions[name].grantedUntil.value <= w.now
  }

  /** A reconcile of the decision is under way that is to patch, and has not yet. */
  predicate UnderWay(w: World, name: string) {
    && w.deciding.Some? && w.deciding.value.decision.name == name && w.deciding.value.stage <= 1
    && PlanFor(w.deciding.value.decision, w.deciding.value.now).applies
  }

  /**
   The grant can still come to a patch: by the reconcile under way, or by one that begins at the very moment of its
   end.
   */
  predicate CanStillPatch(w: World, name: string)
    requires AtItsEnd(w, name)
  {
    var d := w.cluster.decisions[name];
    d.outcome == OutcomeApproved && !d.status.applied && (d.grantedUntil.value == w.now || UnderWay(w, name))
  }

  predicate Revokes(s: Step, name: string) {
    s.RevokeGrant? && s.name == name
  }

  ghost predicate NoneRevokes(steps: seq<Step>, name: string) {
    forall k | 0 <= k < |steps| :: !Revokes(steps[k], name)
  }

  /** A decision's grant and outcome are as they were. */
  predicate SameGrant(before: map<string, Decision>, after: map<string, Decision>, name: string) {
    name in before ==>
      && name in after && after[name].grantedUntil == before[name].grantedUntil
      && after[name].outcome == before[name].outcome
      && (before[name].status.applied ==> after[name].status.applied)
  }

  /** What the steps of a flight rest on. */
  ghost predicate Settled(w: World) {
    && (forall n <- w.cluster.decisions :: w.cluster.decisions[n].name == n)
    && (w.deciding.Some? ==> Tracks(w.cluster, w.now, w.deciding.value))
  }

  lemma HoldsIsSettled(digest: DigestFunction, w: World)
    requires Holds(digest, w)
    ensures Settled(w)
  {
    forall n <- w.cluster.decisions ensures w.cluster.decisions[n].name == n {
      assert DecisionHolds(digest, w.cluster.requests, w.log, n, w.cluster.decisions[n]);
    }
  }

  /** The flight of the later world is that of the earlier one, or read what was stored there. */
  predicate FlightGoesOn(w: World, v: World) {
    v.deciding.Some? ==>
      var g := v.deciding.value;
      if w.deciding.Some? then
        g.decision == w.deciding.value.decision && g.now == w.deciding.value.now && w.deciding.value.stage <= g.stage
      else
        && g.decision.name in w.cluster.decisions && g.decision == w.cluster.decisions[g.decision.name]
        && g.now == w.now
  }

  lemma StepGoesOn(digest: DigestFunction, w: World, s: Step)
    requires Settled(w)
    ensures FlightGoesOn(w, Next(digest, w, s)) && w.now <= Next(digest, w, s).now
  {
  }

  lemma AdvanceKeepsTheGrant(c: Cluster, f: Flight, name: string)
    requires f.decision.name in c.decisions ==> c.decisions[f.decision.name].status == f.decision.status
    ensures SameGrant(c.decisions, Advance(c, f).0.decisions, name)
  {
    PlanIsSound(f.decision, f.now);
    assert f.stage <= 2 ==> Advance(c, f).0.decisions == c.decisions;
  }

  lemma OthersKeepTheGrant(digest: DigestFunction, w: World, s: Step, name: string)
    requires !Revokes(s, name) && !s.AdvanceDecision? && name in w.cluster.decisions
    ensures var after := Next(digest, w, s).cluster.decisions;
      name in after && after[name] == w.cluster.decisions[name]
  {
  }

  lemma GrantStaysAsItIs(digest: DigestFunction, w: World, s: Step, name: string)
    requires Settled(w) && name in w.cluster.decisions && !Revokes(s, name)
    ensures SameGrant(w.cluster.decisions, Next(digest, w, s).cluster.decisions, name)
  {
    if s.AdvanceDecision? {
      if w.deciding.Some? {
        AdvanceKeepsTheGrant(w.cluster, w.deciding.value, name);
      }
    } else {
      OthersKeepTheGrant(digest, w, s, name);
    }
  }

  /** An end that is reached only moves on, to a moment that is reached too. */
  lemma EndMovesOn(digest: DigestFunction, w: World, s: Step, name: string)
    requires Settled(w) && AtItsEnd(w, name)
    ensures AtItsEnd(Next(digest, w, s), name)
    ensures var after := Next(digest, w, s).cluster.decisions;
      w.cluster.decisions[name].grantedUntil.value <= after[name].grantedUntil.value
  {
    StepGoesOn(digest, w, s);
    if !Revokes(s, name) {
      GrantStaysAsItIs(digest, w, s, name);
    }
  }

  lemma StaysQuiet(w: World, v: World, name: string)
    requires AtItsEnd(w, name) && AtItsEnd(v, name) && !CanStillPatch(w, name)
    requires FlightGoesOn(w, v) && w.now <= v.now && SameGrant(w.cluster.decisions, v.cluster.decisions, name)
    ensures !CanStillPatch(v, name)
  {
    if UnderWay(v, name) {
      PlanIsSound(v.deciding.value.decision, v.deciding.value.now);
    }
  }

  lemma QuietStep(digest: DigestFunction, w: World, s: Step, name: string)
    requires Settled(w) && AtItsEnd(w, name) && !CanStillPatch(w, name) && !Revokes(s, name)
    ensures AtItsEnd(Next(digest, w, s), name) && !CanStillPatch(Next(digest, w, s), name)
    ensures NoPatchFrom(Next(digest, w, s).log, |w.log|, name)
  {
    GrantStaysAsItIs(digest, w, s, name);
    EndMovesOn(digest, w, s, name);
    StepGoesOn(digest, w, s);
    StaysQuiet(w, Next(digest, w, s), name);
    PatchIsTheFlights(digest, w, s);
    if w.deciding.Some? {
      PlanIsSound(w.deciding.value.decision, w.deciding.value.now);
    }
  }

  lemma {:induction false} QuietRun(digest: DigestFunction, w: World, steps: seq<Step>, name: string)
    requires Holds(digest, w) && AtItsEnd(w, name) && !CanStillPatch(w, name) && NoneRevokes(steps, name)
    ensures AtItsEnd(Run(digest, w, steps), name) && !CanStillPatch(Run(digest, w, steps), name)
    ensures |w.log| <= |Run(digest, w, steps).log| && NoPatchFrom(Run(digest, w, steps).log, |w.log|, name)
  {
    if |steps| > 0 {
      var last := |steps| - 1;
      var before := Run(digest, w, steps[..last]);
      assert forall k | 0 <= k < last :: steps[..last][k] == steps[k];
      QuietRun(digest, w, steps[..last], name);
      EveryRunHolds(digest, w, steps[..last]);
      HoldsIsSettled(digest, before);
      QuietStep(digest, before, steps[last], name);
      PatchIsTheFlights(digest, before, steps[last]);
    }
  }

  /** The parts up to the patch that a reconcile under way has before it. */
  function FlightSteps(w: World): seq<Step>
    requires w.deciding.Some?
  {
    if w.deciding.value.stage == 1 then [AdvanceDecision] else [AdvanceDecision, AdvanceDecision]
  }

  lemma RunOf(digest: DigestFunction, w: World, a: Step, rest: seq<Step>)
    ensures Run(digest, w, [a] + rest) == Run(digest, Next(digest, w, a), rest)
  {
    if |rest| == 0 {
      assert [a] + rest == [a] && [a][..0] == [];
    } else {
      assert ([a] + rest)[..|rest|] == [a] + rest[..|rest| - 1];
      RunOf(digest, w, a, rest[..|rest| - 1]);
    }
  }

  /** Two parts of a reconcile that is to patch, the division being there, end in its patch. */
  lemma FlightPatches(digest: DigestFunction, w: World, name: string)
    requires Settled(w) && UnderWay(w, name) && (w.deciding.value.stage == 1 ==> w.deciding.value.copy.Some?)
    requires w.deciding.value.request.division in w.cluster.divisions
    ensures !NoPatchFrom(Run(digest, w, FlightSteps(w)).log, |w.log|, name)
  {
    var w1 := Next(digest, w, AdvanceDecision);
    RunOf(digest, w, AdvanceDecision, []);
    assert [AdvanceDecision] + [] == [AdvanceDecision];
    if w.deciding.value.stage == 1 {
      assert w1.log[|w.log|].Granted?;
    } else {
      var w2 := Next(digest, w1, AdvanceDecision);
      assert w1.log == w.log && w2.log[|w.log|].Granted?;
      RunOf(digest, w, AdvanceDecision, [AdvanceDecision]);
      RunOf(digest, w1, AdvanceDecision, []);
      assert [AdvanceDecision] + [AdvanceDecision] == [AdvanceDecision, AdvanceDecision];
    }
  }

  /** What an edit of a division leaves as it was. */
  lemma EditOnly(digest: DigestFunction, w: World, division: string, quota: Quota)
    ensures var v := Next(digest, w, EditDivision(division, quota));
      && division in v.cluster.divisions && v.cluster.decisions == w.cluster.decisions
      && v.cluster.requests == w.cluster.requests && v.deciding == w.deciding && v.now == w.now
      && |w.log| <= |v.log|
  {
  }

  /** By the reconcile under way, once the division is there. */
  lemma TheFlightCanPatch(digest: DigestFunction, w: World, name: string, quota: Quota) returns (steps: seq<Step>)
    requires Holds(digest, w) && UnderWay(w, name)
    ensures NoneRevokes(steps, name) && !NoPatchFrom(Run(digest, w, steps).log, |w.log|, name)
  {
    var edit := EditDivision(w.deciding.value.request.division, quota);
    steps := [edit] + FlightSteps(w);
    HoldsIsSettled(digest, w);
    EditOnly(digest, w, w.deciding.value.request.division, quota);
    RunOf(digest, w, edit, FlightSteps(w));
    FlightPatches(digest, Next(digest, w, edit), name);
  }

  /** By a reconcile that begins at the very end of the grant, once the division is there. */
  lemma AFlightCanBegin(digest: DigestFunction, w: World, name: string, quota: Quota) returns (steps: seq<Step>)
    requires Holds(digest, w) && AtItsEnd(w, name) && CanStillPatch(w, name)
    requires w.cluster.decisions[name].grantedUntil.value == w.now
    ensures NoneRevokes(steps, name) && !NoPatchFrom(Run(digest, w, steps).log, |w.log|, name)
  {
    var d := w.cluster.decisions[name];
    assert DecisionHolds(digest, w.cluster.requests, w.log, name, d);
    var division := w.cluster.requests[d.request].division;
    var edit := EditDivision(division, quota);
    steps := [edit] + ([DropDecision] + BeginAndPatch(name));
    EditOnly(digest, w, division, quota);
    var edited := Next(digest, w, edit);
    RunOf(digest, w, edit, [DropDecision] + BeginAndPatch(name));
    RunOf(digest, edited, DropDecision, BeginAndPatch(name));
    StepKeepsHold(digest, w, edit);
    StepKeepsHold(digest, edited, DropDecision);
    BeginningPatches(digest, Next(digest, edited, DropDecision), name);
  }

  function BeginAndPatch(name: string): seq<Step> {
    [ReadDecision(name)] + [AdvanceDecision, AdvanceDecision]
  }

  /** At the moment of its end an unapplied grant is still patched by a reconcile that begins then. */
  lemma BeginningPatches(digest: DigestFunction, w: World, name: string)
    requires Holds(digest, w) && AtItsEnd(w, name) && w.deciding.None? && CanStillPatch(w, name)
    requires w.cluster.decisions[name].request in w.cluster.requests
    requires w.cluster.requests[w.cluster.decisions[name].request].division in w.cluster.divisions
    ensures !NoPatchFrom(Run(digest, w, BeginAndPatch(name)).log, |w.log|, name)
  {
    var read := Next(digest, w, ReadDecision(name));
    StepKeepsHold(digest, w, ReadDecision(name));
    PlanIsSound(w.cluster.decisions[name], w.now);
    assert DecisionHolds(digest, w.cluster.requests, w.log, name, w.cluster.decisions[name]);
    RunOf(digest, w, ReadDecision(name), [AdvanceDecision, AdvanceDecision]);
    FlightPatches(digest, read, name);
  }

  /**
   A revoked grant, or one whose end is reached, can still come to a patch if and only if it is approved and unapplied
   and either its end is this very moment or a reconcile is under way that read it before and has not patched yet.
   */
  lemma APatchCanFollowIff(digest: DigestFunction, w: World, name: string)
    requires Holds(digest, w) && AtItsEnd(w, name)
    ensures CanStillPatch(w, name) <==>
      exists steps :: NoneRevokes(steps, name) && !NoPatchFrom(Run(digest, w, steps).log, |w.log|, name)
  {
    if CanStillPatch(w, name) {
      var steps;
      if UnderWay(w, name) {
        steps := TheFlightCanPatch(digest, w, name, Quota(0, 0, 0, 0));
      } else {
        steps := AFlightCanBegin(digest, w, name, Quota(0, 0, 0, 0));
      }
    } else {
      forall steps | NoneRevokes(steps, name) ensures NoPatchFrom(Run(digest, w, steps).log, |w.log|, name) {
        QuietRun(digest, w, steps, name);
      }
    }
  }

  /** Read at the very moment of the end it carries. */
  predicate AtTheMoment(d: Decision, readAt: int, since: int) {
    d.grantedUntil == Some(readAt) && since <= readAt
  }

  /**
   What the flight under way for the decision may be, some time after the moment `since` its grant was ended in world
   `v`.
   */
  predicate AfterTheEnd(v: World, x: World, name: string, since: int) {
    && AtItsEnd(x, name) && since <= x.cluster.decisions[name].grantedUntil.value
    && (x.deciding.Some? && x.deciding.value.decision.name == name ==>
          var f := x.deciding.value;
          || (v.deciding.Some? && f.decision == v.deciding.value.decision && f.now == v.deciding.value.now
              && (f.stage <= 1 ==> v.deciding.value.stage <= 1))
          || (f.decision.grantedUntil.Some? && since <= f.decision.grantedUntil.value <= f.now))
  }

  lemma AfterTheEndStays(v: World, x: World, y: World, name: string, since: int)
    requires AfterTheEnd(v, x, name, since) && AtItsEnd(y, name) && FlightGoesOn(x, y)
    requires x.cluster.decisions[name].grantedUntil.value <= y.cluster.decisions[name].grantedUntil.value
    ensures AfterTheEnd(v, y, name, since)
  {
  }

  /** A patch for the decision is by the reconcile that was under way, or was read at the very moment of an end. */
  predicate OldOrAtTheMoment(v: World, p: Patch, since: int) {
    || (UnderWay(v, p.decision.name) && p.decision == v.deciding.value.decision && p.readAt == v.deciding.value.now)
    || AtTheMoment(p.decision, p.readAt, since)
  }

  ghost predicate OnlyOldOrAtTheMoment(v: World, log: seq<Change>, start: nat, name: string, since: int) {
    forall i | start <= i < |log| && log[i].Granted? && log[i].patch.decision.name == name ::
      OldOrAtTheMoment(v, log[i].patch, since)
  }

  lemma PatchesOfAStep(digest: DigestFunction, v: World, x: World, s: Step, name: string, since: int)
    requires AfterTheEnd(v, x, name, since)
    ensures var y := Next(digest, x, s);
      x.log <= y.log && OnlyOldOrAtTheMoment(v, y.log, |x.log|, name, since)
  {
    PatchIsTheFlights(digest, x, s);
    if x.deciding.Some? {
      PlanIsSound(x.deciding.value.decision, x.deciding.value.now);
    }
  }

  lemma StepAfterTheEnd(digest: DigestFunction, v: World, x: World, s: Step, name: string, since: int)
    requires Holds(digest, x) && AfterTheEnd(v, x, name, since)
    ensures AfterTheEnd(v, Next(digest, x, s), name, since)
  {
    HoldsIsSettled(digest, x);
    EndMovesOn(digest, x, s, name);
    StepGoesOn(digest, x, s);
    AfterTheEndStays(v, x, Next(digest, x, s), name, since);
  }

  lemma LaterPatches(v: World, log: seq<Change>, longer: seq<Change>, start: nat, name: string, since: int)
    requires start <= |log| && log <= longer
    requires OnlyOldOrAtTheMoment(v, log, start, name, since) && OnlyOldOrAtTheMoment(v, longer, |log|, name, since)
    ensures OnlyOldOrAtTheMoment(v, longer, start, name, since)
  {
    forall i | start <= i < |longer| && longer[i].Granted? && longer[i].patch.decision.name == name
      ensures OldOrAtTheMoment(v, longer[i].patch, since)
    {
      assert i < |log| ==> longer[i] == log[i];
    }
  }

  lemma {:induction false} PatchesAfterTheEnd(digest: DigestFunction, v: World, steps: seq<Step>, name: string,
      since: int)
    requires Holds(digest, v) && AtItsEnd(v, name) && v.cluster.decisions[name].grantedUntil == Some(since)
    requires v.deciding.Some? && v.deciding.value.decision.name == name ==> v.deciding.value.now <= since
    ensures var end := Run(digest, v, steps);
      AfterTheEnd(v, end, name, since) && v.log <= end.log && OnlyOldOrAtTheMoment(v, end.log, |v.log|, name, since)
  {
    if |steps| > 0 {
      var last := |steps| - 1;
      var before := Run(digest, v, steps[..last]);
      PatchesAfterTheEnd(digest, v, steps[..last], name, since);
      EveryRunHolds(digest, v, steps[..last]);
      StepAfterTheEnd(digest, v, before, steps[last], name, since);
      PatchesOfAStep(digest, v, before, steps[last], name, since);
      LaterPatches(v, before.log, Next(digest, before, steps[last]).log, |v.log|, name, since);
    }
  }

  /** The reconcile that was under way when the grant was ended is still to patch. */
  predicate StillEarly(x: World, name: string, since: int) {
    && x.deciding.Some? && x.deciding.value.decision.name == name && x.deciding.value.stage <= 1
    && !(x.deciding.value.decision.grantedUntil.Some?
         && since <= x.deciding.value.decision.grantedUntil.value <= x.deciding.value.now)
  }

  predicate EarlyPatch(change: Change, name: string, since: int) {
    && change.Granted? && change.patch.decision.name == name
    && !AtTheMoment(change.patch.decision, change.patch.readAt, since)
  }

  lemma EarlyGoesOn(x: World, y: World, name: string, since: int)
    requires AtItsEnd(x, name) && since <= x.cluster.decisions[name].grantedUntil.value && FlightGoesOn(x, y)
    ensures StillEarly(y, name, since) ==> StillEarly(x, name, since)
  {
  }

  /** There is at most one early patch from `start` on, and once there is one no other is to come. */
  ghost predicate OneEarly(x: World, start: nat, name: string, since: int) {
    && (forall i | start <= i < |x.log| && EarlyPatch(x.log[i], name, since) :: !StillEarly(x, name, since))
    && NoTwoEarly(x.log, start, name, since)
  }

  ghost predicate NoTwoEarly(log: seq<Change>, start: nat, name: string, since: int) {
    forall i, j | start <= i < j < |log| :: !(EarlyPatch(log[i], name, since) && EarlyPatch(log[j], name, since))
  }

  lemma EarlyStep(digest: DigestFunction, x: World, s: Step, name: string, since: int)
    requires Settled(x) && AtItsEnd(x, name) && since <= x.cluster.decisions[name].grantedUntil.value
    ensures var y := Next(digest, x, s);
      && (StillEarly(y, name, since) ==> StillEarly(x, name, since))
      && x.log <= y.log
      && forall i | |x.log| <= i < |y.log| && EarlyPatch(y.log[i], name, since) ::
           StillEarly(x, name, since) && !StillEarly(y, name, since) && i == |x.log| && |y.log| == |x.log| + 1
  {
    StepGoesOn(digest, x, s);
    EarlyGoesOn(x, Next(digest, x, s), name, since);
    PatchIsTheFlights(digest, x, s);
    if x.deciding.Some? {
      PlanIsSound(x.deciding.value.decision, x.deciding.value.now);
    }
  }

  lemma OneEarlyGoesOn(x: World, y: World, start: nat, name: string, since: int)
    requires OneEarly(x, start, name, since) && start <= |x.log| && x.log <= y.log
    requires StillEarly(y, name, since) ==> StillEarly(x, name, since)
    requires forall i | |x.log| <= i < |y.log| && EarlyPatch(y.log[i], name, since) ::
      StillEarly(x, name, since) && !StillEarly(y, name, since) && i == |x.log| && |y.log| == |x.log| + 1
    ensures OneEarly(y, start, name, since)
  {
    assert forall i | start <= i < |x.log| :: y.log[i] == x.log[i];
  }

  /** No more than one patch is by the reconcile that was under way. */
  lemma {:induction false} OneEarlyPatchAtMost(digest: DigestFunction, v: World, steps: seq<Step>, name: string,
      since: int)
    requires Holds(digest, v) && AtItsEnd(v, name) && v.cluster.decisions[name].grantedUntil == Some(since)
    requires v.deciding.Some? && v.deciding.value.decision.name == name ==> v.deciding.value.now <= since
    ensures OneEarly(Run(digest, v, steps), |v.log|, name, since)
  {
    if |steps| > 0 {
      var last := |steps| - 1;
      var before := Run(digest, v, steps[..last]);
      OneEarlyPatchAtMost(digest, v, steps[..last], name, since);
      PatchesAfterTheEnd(digest, v, steps[..last], name, since);
      EveryRunHolds(digest, v, steps[..last]);
      HoldsIsSettled(digest, before);
      EarlyStep(digest, before, steps[last], name, since);
      OneEarlyGoesOn(before, Next(digest, before, steps[last]), |v.log|, name, since);
    }
  }

  lemma RevocationEndsIt(digest: DigestFunction, w: World, name: string, reason: string)
    requires name in w.cluster.decisions && reason != ""
    ensures var v := Next(digest, w, RevokeGrant(name, reason));
      && AtItsEnd(v, name) && v.cluster.decisions[name].grantedUntil == Some(w.now)
      && v.deciding == w.deciding && v.log == w.log && v.now == w.now
  {
  }

  /**
   After a revocation at the moment t, over every run: a patch of the decision is by the one reconcile that was under
   way then and was to patch, and there is at most one such patch; or it was read at the very moment of a revocation,
   t or a later one.
   */
  lemma AfterARevocation(digest: DigestFunction, w: World, name: string, reason: string, steps: seq<Step>)
    requires Holds(digest, w) && name in w.cluster.decisions && reason != ""
    ensures var log := Run(digest, Next(digest, w, RevokeGrant(name, reason)), steps).log;
      && (forall i | |w.log| <= i < |log| && log[i].Granted? && log[i].patch.decision.name == name ::
            OldOrAtTheMoment(w, log[i].patch, w.now))
      && (forall i, j | |w.log| <= i < j < |log| ::
            !(EarlyPatch(log[i], name, w.now) && EarlyPatch(log[j], name, w.now)))
  {
    var v := Next(digest, w, RevokeGrant(name, reason));
    StepKeepsHold(digest, w, RevokeGrant(name, reason));
    RevocationEndsIt(digest, w, name, reason);
    HoldsIsSettled(digest, w);
    PatchesAfterTheEnd(digest, v, steps, name, w.now);
    OneEarlyPatchAtMost(digest, v, steps, name, w.now);
  }

  /**
   A reconcile that has read a grant and the division patches the quota however long after the grant was revoked: the
   revocation is stored, with its reason, and the division is at the target all the same.
   */
  lemma ARevocationInsideAReconcileComesTooLate(digest: DigestFunction, w: World, name: string, reason: string,
      elapsed: nat)
    requires Holds(digest, w) && w.deciding.None? && Readable(w.cluster, name) && reason != ""
    requires PlanFor(w.cluster.decisions[name], w.now).applies
    requires w.cluster.requests[w.cluster.decisions[name].request].division in w.cluster.divisions
    ensures var begun := Next(digest, Next(digest, w, ReadDecision(name)), AdvanceDecision);
            var revoked := Next(digest, begun, RevokeGrant(name, reason));
            var end := Next(digest, Next(digest, revoked, Tick(elapsed)), AdvanceDecision);
            var r := w.cluster.requests[w.cluster.decisions[name].request];
            && end.now == w.now + elapsed && name in end.cluster.decisions
            && end.cluster.decisions[name].grantedUntil == Some(w.now)
            && end.cluster.decisions[name].revokedReason == reason
            && !NoPatchFrom(end.log, |revoked.log|, name)
            && r.division in end.cluster.divisions && end.cluster.divisions[r.division] == r.target
  {
    var begun := Next(digest, Next(digest, w, ReadDecision(name)), AdvanceDecision);
    var revoked := Next(digest, begun, RevokeGrant(name, reason));
    var end := Next(digest, Next(digest, revoked, Tick(elapsed)), AdvanceDecision);
    assert end.log[|revoked.log|].Granted? && end.log[|revoked.log|].patch.decision.name == name;
  }
}
