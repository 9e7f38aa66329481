/**
 Runs on which a preview does not keep to its end: a renewal that lands late brings it back or does not save its
 namespace, a namespace that takes the place of the preview's is deleted, and a renewal that overflows ends the preview
 at once.
 */
module EnvironmentExamples {
  import opened Text
  import opened TTL
  import opened Lease
  import opened Environments
  import opened EnvironmentLaws

  /** The world after a whole reconcile with nothing in between. */
  function Reconciled(parse: DurationParser, w: World, at: int): World {
    Do(parse, Run(parse, w, ReconcileSteps(at, PartsDone(parse, w.c, at, NoFault))), DropReconcile(at))
  }

  lemma ReconciledIsTheStep(parse: DurationParser, w: World, at: int)
    requires w.pass.None?
    ensures Reconciled(parse, w, at) == w.(c := ReconcileStep(parse, w.c, at, NoFault).0, clock := at)
  {
    var k := PartsDone(parse, w.c, at, NoFault);
    AReconcileIsARun(parse, w, at, NoFault);
    MidwayIsARun(parse, w, at, k);
    if BeginPass(parse, w.c, at).Some? {
      MidwayIsParts(parse, w, at, k);
    }
  }

  /** A preview at the end of its lease, whose namespace somebody has removed. */
  ghost predicate AtItsEnd(parse: DurationParser, w: World, at: int) {
    && w.c.env.Some? && w.c.env.value.Live() && !w.c.env.value.deleting && SoundEnv(parse, w.c.env.value)
    && w.c.ns.None? && w.c.divisionExists && at >= Expiry(parse, w.c.env.value) && w.pass.None?
  }

  /** Its lease, renewed, would run on. */
  ghost predicate WouldRunOn(parse: DurationParser, w: World, at: int, extend: string, reason: string, actor: string) {
    var read := ReadForRenewal(parse, w.c, extend, reason, actor, at);
    && w.c.env.Some? && read.Some? && |read.value| <= MAX_RENEWALS
    && var renewed := LeaseOfEnv(parse, w.c.env.value.(renewals := read.value));
       renewed.Some? && !renewed.value.Expired(at)
  }

  /**
   The run Expired -> Ready: a renewal is read while the preview is Ready, a reconcile marks it Expired and sets
   ReclaimedAt, the renewal is patched in, and the next reconcile gives the preview a namespace again.
   */
  lemma ALateRenewalBringsThePreviewBack(parse: DurationParser, w: World, at: int, call: string, extend: string,
      reason: string, actor: string)
    requires AtItsEnd(parse, w, at) && WouldRunOn(parse, w, at, extend, reason, actor)
    ensures var read := Do(parse, w, ReadRenewal(at, call, extend, reason, actor));
            var expired := Reconciled(parse, read, at);
            var patched := Do(parse, expired, PatchRenewal(at, call, false));
            var back := Reconciled(parse, patched, at);
            && expired.c.env.Some? && expired.c.env.value.status.phase == Expired
            && expired.c.env.value.status.reclaimedAt.Some?
            && Late(parse, expired, PatchRenewal(at, call, false))
            && back.c.env.Some? && back.c.env.value.status.phase == Ready && back.c.ns.Some?
            && back.c.env.value.status.reclaimedAt == expired.c.env.value.status.reclaimedAt
  {
    var renewals := ReadForRenewal(parse, w.c, extend, reason, actor, at).value;
    var read := Do(parse, w, ReadRenewal(at, call, extend, reason, actor));
    var expired := w.(c := ReconcileStep(parse, w.c, at, NoFault).0, clock := at, renewing := read.renewing);
    var patch := PatchRenewal(at, call, false);
    LateOnTheCluster(parse, w.c, at, renewals);
    ReconciledIsTheStep(parse, read, at);
    assert Reconciled(parse, read, at) == expired;
    var patched := Do(parse, expired, patch);
    assert patched.c == PatchRenewals(expired.c, renewals).0 && patched.pass.None?;
    ReconciledIsTheStep(parse, patched, at);
  }

  lemma LateOnTheCluster(parse: DurationParser, c: Cluster, at: int, renewals: seq<Renewal>)
    requires c.env.Some? && c.env.value.Live() && !c.env.value.deleting && SoundEnv(parse, c.env.value)
    requires c.ns.None? && c.divisionExists && at >= Expiry(parse, c.env.value)
    requires 0 < |renewals| <= MAX_RENEWALS && c.env.value.renewals == renewals[..|renewals| - 1]
    requires var renewed := c.env.value.(renewals := renewals); Readable(parse, renewed) && at < Expiry(parse, renewed)
    ensures var expired := ReconcileStep(parse, c, at, NoFault).0;
            var patched := PatchRenewals(expired, renewals).0;
            var back := ReconcileStep(parse, patched, at, NoFault).0;
            && expired.env.Some? && expired.env.value.status.phase == Expired
            && expired.env.value.status.reclaimedAt.Some? && patched != expired
            && back.env.Some? && back.env.value.status.phase == Ready && back.ns.Some?
            && back.env.value.status.reclaimedAt == expired.env.value.status.reclaimedAt
  {
    ReconcileAtTheEnd(parse, c, at);
    var expired := ReconcileStep(parse, c, at, NoFault).0;
    var ended := expired.env.value;
    PatchedIn(expired, renewals);
    var patched := PatchRenewals(expired, renewals).0;
    assert LeaseOfEnv(parse, ended.(renewals := renewals)) == LeaseOfEnv(parse, c.env.value.(renewals := renewals));
    ReconcileBeforeTheEnd(parse, patched, at);
  }

  /** A live preview at the end of its lease, in its own namespace. */
  ghost predicate AtItsEndInPlace(parse: DurationParser, w: World, at: int) {
    && w.c.env.Some? && w.c.env.value.Live() && !w.c.env.value.deleting && SoundEnv(parse, w.c.env.value)
    && w.c.ns.Some? && OwnedByUs(w.c.ns.value, w.c.env.value) && !w.c.ns.value.terminating
    && at >= Expiry(parse, w.c.env.value) && w.pass.None?
  }

  /**
   A renewal that was read before and lands inside a reconcile does not save the namespace: the reconcile goes by the
   lease it read, deletes the namespace and only then finds its status refused. The stored preview is Ready, or
   whatever it was, and its lease runs on.
   */
  lemma ARenewalInsideAReconcileComesTooLate(parse: DurationParser, w: World, at: int, call: string, extend: string,
      reason: string, actor: string)
    requires AtItsEndInPlace(parse, w, at) && WouldRunOn(parse, w, at, extend, reason, actor)
    ensures var begun := Do(parse, Do(parse, w, ReadRenewal(at, call, extend, reason, actor)), BeginReconcile(at));
            var patch := PatchRenewal(at, call, false);
            var looked := Do(parse, Do(parse, begun, patch), AdvanceReconcile(at));
            var end := Do(parse, Do(parse, looked, AdvanceReconcile(at)), AdvanceReconcile(at));
            && Late(parse, begun, patch) && !Ending(begun.c.env.value.status.phase)
            && Deletes(looked, AdvanceReconcile(at))
            && end.c.ns.Some? && end.c.ns.value.terminating
            && end.c.env.Some? && end.c.env.value.status == w.c.env.value.status
            && Readable(parse, end.c.env.value) && at < Expiry(parse, end.c.env.value)
  {
    var env := w.c.env.value;
    var renewals := ReadForRenewal(parse, w.c, extend, reason, actor, at).value;
    var read := Do(parse, w, ReadRenewal(at, call, extend, reason, actor));
    var begun := Do(parse, read, BeginReconcile(at));
    assert begun.c == w.c && begun.pass.Some? && begun.pass.value.stage.Looking?;
    PatchedIn(begun.c, renewals);
    var patched := Do(parse, begun, PatchRenewal(at, call, false));
    assert patched.c == w.c.(env := Some(env.(renewals := renewals))) && !patched.pass.value.untouched;
    var looked := Do(parse, patched, AdvanceReconcile(at));
    assert looked.c == patched.c && looked.pass.value.stage.Deleting?;
  }

  /** Whatever namespace takes the place of the one that was looked at, it is the one that is deleted. */
  lemma ASwappedNamespaceIsDeleted(parse: DurationParser, w: World, at: int, other: Namespace, divisionExists: bool)
    requires w.pass.Some? && w.pass.value.stage.Deleting?
    requires !other.terminating && !OwnedByUs(other, w.pass.value.env)
    ensures var swap := Outside(at, Some(other), divisionExists);
            var swapped := Do(parse, w, swap);
            && Swapped(w, swap) && Deletes(swapped, AdvanceReconcile(at))
            && Do(parse, swapped, AdvanceReconcile(at)).c.ns == Some(other.(terminating := true))
  {
  }

  lemma PatchedIn(c: Cluster, renewals: seq<Renewal>)
    requires c.env.Some? && |renewals| <= MAX_RENEWALS && |renewals| > 0
      && c.env.value.renewals == renewals[..|renewals| - 1]
    ensures PatchRenewals(c, renewals).0 == c.(env := Some(c.env.value.(renewals := renewals)))
    ensures PatchRenewals(c, renewals).0 != c
  {
    assert |c.env.value.renewals| != |renewals|;
  }

  lemma ReconcileAtTheEnd(parse: DurationParser, c: Cluster, at: int)
    requires c.env.Some? && c.env.value.Live() && !c.env.value.deleting && SoundEnv(parse, c.env.value) && c.ns.None?
    requires at >= Expiry(parse, c.env.value)
    ensures var after := ReconcileStep(parse, c, at, NoFault).0;
            && after.env.Some? && after == c.(env := after.env)
            && after.env.value == c.env.value.(status := after.env.value.status)
            && after.env.value.status.phase == Expired && after.env.value.status.reclaimedAt.Some?
            && after.env.value.status.leaseStartedAt == Some(c.env.value.createdAt)
  {
  }

  lemma ReconcileBeforeTheEnd(parse: DurationParser, c: Cluster, at: int)
    requires c.env.Some? && c.env.value.status.phase == Expired && !c.env.value.deleting && c.ns.None?
      && c.divisionExists
    requires Readable(parse, c.env.value) && at < Expiry(parse, c.env.value)
    ensures var after := ReconcileStep(parse, c, at, NoFault).0;
            && after.env.Some? && after.env.value.status.phase == Ready && after.ns.Some?
            && after.env.value.status.reclaimedAt == c.env.value.status.reclaimedAt
  {
  }

  /** The run is there: a preview requested with the default TTL reaches its end, and a day more would keep it. */
  lemma AnEndWithALateRenewalIsReached(parse: DurationParser, reason: string, actor: string)
    requires ReadsDurations(parse) && |reason| >= 10
    ensures var requested := Do(parse, Start(true, 0),
      Request(0, "uid", "team", Asked("shop", 7, "main", 100, 1, ""), actor, false));
            var w := Do(parse, Reconciled(parse, requested, 0), Outside(DEFAULT_TTL, None, true));
            && Sound(parse, Start(true, 0)) && OnTime(parse, Start(true, 0))
            && AtItsEnd(parse, w, DEFAULT_TTL) && WouldRunOn(parse, w, DEFAULT_TTL, FormatTTL(24 * HOUR), reason, actor)
  {
    var request := Request(0, "uid", "team", Asked("shop", 7, "main", 100, 1, ""), actor, false);
    var w1 := Do(parse, Start(true, 0), request);
    var env := NewEnvironment("uid", "team", 7, FormatTTL(DEFAULT_TTL), actor, 0);
    assert w1.c == Cluster(Some(env), None, true) && w1.pass.None?;
    DefaultLease(parse, env);
    FirstReconcile(parse, w1.c, 0);
    ReconciledIsTheStep(parse, w1, 0);
    var w2 := Reconciled(parse, w1, 0);
    DefaultLease(parse, w2.c.env.value);
    ADayMore(parse, w2.c.(ns := None), reason, actor);
  }

  lemma DefaultLease(parse: DurationParser, env: Environment)
    requires ReadsDurations(parse) && env.ttl == FormatTTL(DEFAULT_TTL) && env.renewals == []
    requires env.status.leaseStartedAt.None? || env.status.leaseStartedAt == Some(env.createdAt)
    ensures LeaseOfEnv(parse, env) == Some(LeaseData(env.createdAt, env.createdAt + DEFAULT_TTL, DEFAULT_TTL, false))
  {
    TTLRoundTrip(parse, DEFAULT_TTL, DEFAULT_TTL);
    assert TTLMinutes(DEFAULT_TTL) * MINUTE == DEFAULT_TTL;
  }

  lemma FirstReconcile(parse: DurationParser, c: Cluster, at: int)
    requires c.env.Some? && c.env.value.status.phase == Unset && !c.env.value.deleting && c.ns.None? && c.divisionExists
    requires c.env.value.status.leaseStartedAt.None? && Readable(parse, c.env.value) && at < Expiry(parse, c.env.value)
    ensures var after := ReconcileStep(parse, c, at, NoFault).0;
            && after.env.Some? && after.divisionExists
            && after.env.value == c.env.value.(status := after.env.value.status)
            && after.env.value.status.phase == Ready
            && after.env.value.status.leaseStartedAt == Some(c.env.value.createdAt)
  {
  }

  lemma ADayMore(parse: DurationParser, c: Cluster, reason: string, actor: string)
    requires ReadsDurations(parse) && |reason| >= 10 && c.env.Some? && c.env.value.status.phase == Ready
    requires c.env.value.ttl == FormatTTL(DEFAULT_TTL) && c.env.value.renewals == [] && c.env.value.createdAt == 0
    requires c.env.value.status.leaseStartedAt == Some(0)
    ensures WouldRunOn(parse, World(c, DEFAULT_TTL, map[], None), DEFAULT_TTL, FormatTTL(24 * HOUR), reason, actor)
  {
    var renewal := Renewal(FormatTTL(24 * HOUR), reason, actor, DEFAULT_TTL);
    DayOfMinutes();
    FirstRenewalIsRead(parse, c, 24 * HOUR, reason, actor, DEFAULT_TTL);
    LeaseOfADayMore(parse, c.env.value.(renewals := [renewal]), renewal);
  }

  lemma DayOfMinutes()
    ensures TTLMinutes(24 * HOUR) * MINUTE == 24 * HOUR && TTLMinutes(DEFAULT_TTL) * MINUTE == DEFAULT_TTL
  {
  }

  lemma LeaseOfADayMore(parse: DurationParser, env: Environment, renewal: Renewal)
    requires ReadsDurations(parse) && env.ttl == FormatTTL(DEFAULT_TTL) && env.status.leaseStartedAt == Some(0)
    requires env.renewals == [renewal] && renewal.extend == FormatTTL(24 * HOUR)
    ensures LeaseOfEnv(parse, env) == Some(LeaseData(0, DEFAULT_TTL + 24 * HOUR, DEFAULT_TTL + 24 * HOUR, false))
  {
    DayOfMinutes();
    RenewedSum(parse, DEFAULT_TTL, 24 * HOUR, renewal);
  }

  lemma FirstRenewalIsRead(parse: DurationParser, c: Cluster, extension: int, reason: string, actor: string, now: int)
    requires ReadsDurations(parse) && |reason| >= 10 && c.env.Some? && c.env.value.Live() && c.env.value.renewals == []
    requires 0 < extension <= MAX_INT64 && TTLMinutes(extension) * MINUTE == extension
    ensures ReadForRenewal(parse, c, FormatTTL(extension), reason, actor, now)
         == Some([Renewal(FormatTTL(extension), reason, actor, now)])
  {
    TTLRoundTrip(parse, extension, 0);
    assert [] + [Renewal(FormatTTL(extension), reason, actor, now)]
        == [Renewal(FormatTTL(extension), reason, actor, now)];
  }

  /** A preview granted the longest TTL and renewed by as much has come to its end at once. */
  lemma RenewingTheLongestLeaseEndsIt(parse: DurationParser, c: Cluster, reason: string, actor: string, now: int)
    requires ReadsDurations(parse) && |reason| >= 10 && c.env.Some? && c.env.value.Live() && !c.env.value.deleting
    requires c.env.value.ttl == FormatTTL(LONGEST) && c.env.value.renewals == []
      && c.env.value.status.leaseStartedAt.None?
    requires c.env.value.createdAt <= now < c.env.value.createdAt + MAX_TTL
    ensures Readable(parse, c.env.value) && now < Expiry(parse, c.env.value)
    ensures var env := c.env.value.(renewals := [Renewal(FormatTTL(LONGEST), reason, actor, now)]);
            && RenewStep(parse, c, FormatTTL(LONGEST), reason, actor, now, false) == (c.(env := Some(env)), true)
            && Readable(parse, env) && Expiry(parse, env) < now
  {
    RenewingTheLongestExpiresAtOnce(parse, reason, actor, now, c.env.value.createdAt);
    assert TTLMinutes(LONGEST) * MINUTE == LONGEST;
    FirstRenewalIsRead(parse, c, LONGEST, reason, actor, now);
    PatchedIn(c, [Renewal(FormatTTL(LONGEST), reason, actor, now)]);
  }
}
