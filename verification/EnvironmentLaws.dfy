/**
 What holds over every run of the preview service, the reconciler and the outside world, a renewal split into its read
 and its patch and a reconcile into its reads and its writes: a namespace is only taken away from its own preview, and
 a preview that has begun to end never comes back, unless something lands between such a read and the write that rests
 on it.
 */
module EnvironmentLaws {
  import opened Text
  import opened TTL
  import opened Lease
  import opened Environments

  predicate Ending(phase: Phase) {
    phase == Reclaiming || phase == Orphaned || phase == Expired
  }

  // ----- a reconcile in parts -----

  /** What a reconcile is about to do, with the status it has worked out. */
  datatype Stage =
    | Looking(status: Status)
    | Deleting(status: Status)
    | Providing(status: Status)
    | Writing(status: Status)

  /**
   A reconcile under way: the object as it was read, and when. `same`: the object read is still there; `untouched`:
   nobody has written it since, so that its resource version is still the one read.
   */
  datatype Pass = Pass(env: Environment, now: int, stage: Stage, same: bool, untouched: bool)
  {
    /** It is taking the preview down. */
    predicate Ends() {
      stage.Looking? || stage.Deleting? || (stage.Writing? && Ending(stage.status.phase))
    }
  }

  function FirstStage(parse: DurationParser, env: Environment, now: int): Stage {
    var named := env.status.(namespace := NamespaceFor(env));
    match LeaseOfEnv(parse, env)
    case None => Writing(named.(phase := Pending))
    case Some(lease) =>
      if env.status.phase == Reclaiming || env.status.phase == Orphaned then Looking(named)
      else if lease.Expired(now) then Looking(WithLease(env, lease).(phase := Reclaiming))
      else Providing(WithLease(env, lease))
  }

  function BeginPass(parse: DurationParser, c: Cluster, now: int): Option<Pass> {
    if c.env.None? || c.env.value.deleting then None
    else Some(Pass(c.env.value, now, FirstStage(parse, c.env.value, now), true, true))
  }

  /** The next part of a reconcile; no pass comes back when it is over. */
  function AdvancePass(c: Cluster, p: Pass, at: int): (Cluster, Option<Pass>) {
    match p.stage
    case Looking(status) =>
      (match c.ns
       case None =>
         var reclaimedAt := if status.reclaimedAt.None? then Some(at) else status.reclaimedAt;
         (c, Some(p.(stage := Writing(status.(phase := Expired, reclaimedAt := reclaimedAt)))))
       case Some(ns) =>
         if !OwnedByUs(ns, p.env) then (c, Some(p.(stage := Writing(status.(phase := Orphaned)))))
         else if ns.terminating then (c, Some(p.(stage := Writing(status.(phase := Reclaiming)))))
         else (c, Some(p.(stage := Deleting(status.(phase := Reclaiming))))))
    case Deleting(status) =>
      (if c.ns.Some? then c.(ns := Some(c.ns.value.(terminating := true))) else c, Some(p.(stage := Writing(status))))
    case Providing(status) =>
      if !c.divisionExists then (c, Some(p.(stage := Writing(status.(phase := Pending)))))
      else if Provision(c.ns, p.env).None? then (c, None)
      else (c.(ns := Provision(c.ns, p.env)), Some(p.(stage := Writing(status.(phase := Ready)))))
    case Writing(status) =>
      (if p.same && p.untouched then c.(env := Some(p.env.(status := status))) else c, None)
  }

  // ----- the world -----

  /**
   The cluster, the clock, the renewals that have been read and not patched in yet, by their call, and the reconcile
   under way.
   */
  datatype World = World(c: Cluster, clock: int, renewing: map<string, seq<Renewal>>, pass: Option<Pass>)

  datatype Step =
    | Request(at: int, uid: string, division: string, asked: Asked, actor: string, createFails: bool)
    | ReadRenewal(at: int, call: string, extend: string, reason: string, actor: string)
    | PatchRenewal(at: int, call: string, fails: bool)
    | BeginReconcile(at: int)
    | AdvanceReconcile(at: int)
    | DropReconcile(at: int)
    | Outside(at: int, ns: Option<Namespace>, divisionExists: bool)
    | Release(at: int)
    | Collected(at: int)

  /** Somebody other than the reconcile under way wrote to the cluster. */
  function Written(w: World, c: Cluster, at: int): World {
    w.(c := c, clock := at,
       pass := match w.pass
               case None => None
               case Some(p) =>
                 Some(p.(same := p.same && c.env.Some?, untouched := p.untouched && c.env == w.c.env)))
  }

  /** Releasing marks the object for deletion; later it is gone and may be requested again. */
  function Do(parse: DurationParser, w: World, step: Step): World {
    match step
    case Request(at, uid, division, asked, actor, createFails) =>
      Written(w, RequestStep(parse, w.c, uid, division, asked, actor, at, createFails).0, at)
    case ReadRenewal(at, call, extend, reason, actor) =>
      (match ReadForRenewal(parse, w.c, extend, reason, actor, at)
       case None => w.(clock := at)
       case Some(renewals) => w.(clock := at, renewing := w.renewing[call := renewals]))
    case PatchRenewal(at, call, fails) =>
      if call !in w.renewing then w.(clock := at)
      else
        Written(w, if fails then w.c else PatchRenewals(w.c, w.renewing[call]).0, at).(renewing := w.renewing - {call})
    case BeginReconcile(at) =>
      if w.pass.Some? then w.(clock := at) else w.(clock := at, pass := BeginPass(parse, w.c, at))
    case AdvanceReconcile(at) =>
      if w.pass.None? then w.(clock := at)
      else w.(c := AdvancePass(w.c, w.pass.value, at).0, clock := at, pass := AdvancePass(w.c, w.pass.value, at).1)
    case DropReconcile(at) => w.(clock := at, pass := None)
    case Outside(at, ns, divisionExists) => Written(w, w.c.(ns := ns, divisionExists := divisionExists), at)
    case Release(at) =>
      Written(w, if w.c.env.None? then w.c else w.c.(env := Some(w.c.env.value.(deleting := true))), at)
    case Collected(at) =>
      Written(w, if w.c.env.Some? && w.c.env.value.deleting then w.c.(env := None) else w.c, at)
  }

  function Run(parse: DurationParser, w: World, steps: seq<Step>): World {
    if steps == [] then w else Do(parse, Run(parse, w, steps[..|steps| - 1]), steps[|steps| - 1])
  }

  /** The world before anybody asked for the preview. */
  function Start(divisionExists: bool, clock: int): World {
    World(Cluster(None, None, divisionExists), clock, map[], None)
  }

  ghost predicate Readable(parse: DurationParser, env: Environment) {
    LeaseOfEnv(parse, env).Some?
  }

  ghost function Expiry(parse: DurationParser, env: Environment): int
    requires Readable(parse, env)
  {
    LeaseOfEnv(parse, env).value.expiresAt
  }

  ghost predicate SoundEnv(parse: DurationParser, env: Environment) {
    Readable(parse, env) && (env.status.leaseStartedAt.Some? ==> env.status.leaseStartedAt.value == env.createdAt)
  }

  /** A status that a reconcile of this object may write. */
  predicate StatusFor(env: Environment, status: Status) {
    && (status.leaseStartedAt == env.status.leaseStartedAt || status.leaseStartedAt == Some(env.createdAt))
    && (env.status.reclaimedAt.Some? ==> status.reclaimedAt == env.status.reclaimedAt)
  }

  /** The object goes on from how it was read: only its renewals and its deletion are written by others. */
  predicate Follows(read: Environment, env: Environment) {
    read.renewals <= env.renewals && env == read.(renewals := env.renewals, deleting := env.deleting)
  }

  ghost predicate PassHolds(parse: DurationParser, w: World, p: Pass) {
    && SoundEnv(parse, p.env) && StatusFor(p.env, p.stage.status) && p.now <= w.clock
    && (p.stage.Deleting? ==> Ending(p.stage.status.phase))
    && (p.same ==> w.c.env.Some? && Follows(p.env, w.c.env.value))
    && (p.same && p.untouched ==> w.c.env == Some(p.env))
  }

  ghost predicate Sound(parse: DurationParser, w: World) {
    && (w.c.env.Some? ==> SoundEnv(parse, w.c.env.value))
    && (forall call <- w.renewing :: ReadableExtensions(parse, w.renewing[call]))
    && (w.pass.Some? ==> PassHolds(parse, w, w.pass.value))
  }

  // ----- what every step keeps -----

  /** The step has a namespace deleted. */
  predicate Deletes(w: World, step: Step) {
    && step.AdvanceReconcile? && w.pass.Some? && w.pass.value.stage.Deleting?
    && w.c.ns.Some? && !w.c.ns.value.terminating
  }

  /** A namespace that was there is on its way out. */
  predicate BeginsToGo(before: Option<Namespace>, after: Option<Namespace>) {
    before.Some? && !before.value.terminating && after.Some? && after.value.terminating
  }

  ghost predicate KeepsItsPromises(parse: DurationParser, before: Environment, after: Environment) {
    && after.uid == before.uid && after.createdAt == before.createdAt
    && (before.status.reclaimedAt.Some? ==> after.status.reclaimedAt == before.status.reclaimedAt)
    && before.renewals <= after.renewals
    && Readable(parse, after) && Expiry(parse, after) <= after.createdAt + MAX_TTL
  }

  /** What one step may do to a preview and its namespace, whatever came before. */
  ghost predicate Safe(parse: DurationParser, w: World, step: Step) {
    var after := Do(parse, w, step);
    && (w.c.env.Some? && after.c.env.Some? ==> KeepsItsPromises(parse, w.c.env.value, after.c.env.value))
    && (!step.Outside? && BeginsToGo(w.c.ns, after.c.ns) ==> Deletes(w, step))
    && (after.pass.Some? && after.pass.value.stage.Deleting? && !(w.pass.Some? && w.pass.value.stage.Deleting?) ==>
          after.c.ns.Some? && OwnedByUs(after.c.ns.value, after.pass.value.env))
  }

  lemma WrittenTTLIsReadable(parse: DurationParser, value: int, fallback: int)
    requires ReadsDurations(parse) && 0 < value <= MAX_INT64
    ensures ParseTTL(parse, GrantedText(value), fallback).Some?
  {
    TTLRoundTrip(parse, value, fallback);
  }

  lemma ReadIsSafe(parse: DurationParser, w: World, step: Step)
    requires ReadsDurations(parse) && Sound(parse, w) && step.ReadRenewal? && step.at >= w.clock
    ensures Sound(parse, Do(parse, w, step))
  {
    var extension := ParseTTL(parse, step.extend, 0);
    var read := ReadForRenewal(parse, w.c, step.extend, step.reason, step.actor, step.at);
    if read.Some? {
      var env := w.c.env.value;
      assert step.extend != "" && parse(step.extend).Some?;
      WrittenTTLIsReadable(parse, extension.value, 0);
      ReadableIffEveryPartIs(parse, env.ttl, env.renewals);
      assert read.value[..|env.renewals|] == env.renewals;
    }
  }

  /** Whatever status a reconcile writes, the lease it is judged by stays the same. */
  lemma SameLease(parse: DurationParser, env: Environment, status: Status)
    requires Readable(parse, env)
    requires env.status.leaseStartedAt.Some? ==> env.status.leaseStartedAt.value == env.createdAt
    requires status.leaseStartedAt == env.status.leaseStartedAt
          || status.leaseStartedAt == Some(LeaseOfEnv(parse, env).value.startedAt)
    ensures LeaseOfEnv(parse, env.(status := status)) == LeaseOfEnv(parse, env)
    ensures status.leaseStartedAt.Some? ==> status.leaseStartedAt.value == env.createdAt
  {
  }

  lemma ExpiryIsBounded(parse: DurationParser, env: Environment)
    requires SoundEnv(parse, env)
    ensures Expiry(parse, env) <= env.createdAt + MAX_TTL
    ensures LeaseOfEnv(parse, env).value.startedAt == env.createdAt
  {
    CeilingHolds(parse, env.ttl, env.renewals, env.createdAt, env.status.leaseStartedAt);
  }

  lemma WrittenStatusIsSound(parse: DurationParser, env: Environment, status: Status)
    requires SoundEnv(parse, env) && StatusFor(env, status)
    ensures SoundEnv(parse, env.(status := status)) && KeepsItsPromises(parse, env, env.(status := status))
    ensures Expiry(parse, env.(status := status)) == Expiry(parse, env)
  {
    ExpiryIsBounded(parse, env);
    SameLease(parse, env, status);
    ExpiryIsBounded(parse, env.(status := status));
  }

  lemma FirstStageIsSound(parse: DurationParser, env: Environment, now: int)
    requires SoundEnv(parse, env)
    ensures StatusFor(env, FirstStage(parse, env, now).status) && !FirstStage(parse, env, now).Deleting?
  {
    ExpiryIsBounded(parse, env);
  }

  lemma WriteIsSafe(parse: DurationParser, w: World, step: Step)
    requires Sound(parse, w) && step.AdvanceReconcile? && step.at >= w.clock
    requires w.pass.Some? && w.pass.value.stage.Writing?
    ensures Sound(parse, Do(parse, w, step)) && Safe(parse, w, step)
  {
    if w.c.env.Some? {
      ExpiryIsBounded(parse, w.c.env.value);
    }
    WrittenStatusIsSound(parse, w.pass.value.env, w.pass.value.stage.status);
  }

  /** What the parts before the status write do. */
  lemma LookingOn(c: Cluster, p: Pass, at: int)
    requires !p.stage.Writing? && StatusFor(p.env, p.stage.status)
      && (p.stage.Deleting? ==> Ending(p.stage.status.phase))
    ensures var (after, q) := AdvancePass(c, p, at);
            && after.env == c.env
            && (BeginsToGo(c.ns, after.ns) ==> p.stage.Deleting? && c.ns.Some? && !c.ns.value.terminating)
            && (q.Some? ==>
                  && q.value == p.(stage := q.value.stage) && StatusFor(p.env, q.value.stage.status)
                  && (q.value.Ends() <==> p.Ends()) && !(p.stage.Deleting? && q.value.stage.Deleting?)
                  && (q.value.stage.Deleting? ==>
                        Ending(q.value.stage.status.phase) && after.ns.Some? && OwnedByUs(after.ns.value, p.env)))
  {
  }

  lemma LookIsSafe(parse: DurationParser, w: World, step: Step)
    requires Sound(parse, w) && step.AdvanceReconcile? && step.at >= w.clock
    requires w.pass.Some? && !w.pass.value.stage.Writing?
    ensures Sound(parse, Do(parse, w, step)) && Safe(parse, w, step)
  {
    if w.c.env.Some? {
      ExpiryIsBounded(parse, w.c.env.value);
    }
    LookingOn(w.c, w.pass.value, step.at);
  }

  lemma AdvanceIsSafe(parse: DurationParser, w: World, step: Step)
    requires Sound(parse, w) && step.AdvanceReconcile? && step.at >= w.clock
    ensures Sound(parse, Do(parse, w, step)) && Safe(parse, w, step)
  {
    if w.pass.None? {
      if w.c.env.Some? {
        ExpiryIsBounded(parse, w.c.env.value);
      }
    } else if w.pass.value.stage.Writing? {
      WriteIsSafe(parse, w, step);
    } else {
      LookIsSafe(parse, w, step);
    }
  }

  lemma BeginIsSafe(parse: DurationParser, w: World, step: Step)
    requires Sound(parse, w) && step.BeginReconcile? && step.at >= w.clock
    ensures Sound(parse, Do(parse, w, step)) && Safe(parse, w, step)
  {
    if w.c.env.Some? {
      ExpiryIsBounded(parse, w.c.env.value);
      FirstStageIsSound(parse, w.c.env.value, step.at);
    }
  }

  lemma PatchIsSafe(parse: DurationParser, w: World, step: Step)
    requires Sound(parse, w) && step.PatchRenewal? && step.at >= w.clock
    ensures Sound(parse, Do(parse, w, step)) && Safe(parse, w, step)
  {
    if w.c.env.Some? {
      var env := w.c.env.value;
      ExpiryIsBounded(parse, env);
      if step.call in w.renewing {
        var renewals := w.renewing[step.call];
        ReadableIffEveryPartIs(parse, env.ttl, env.renewals);
        ReadableIffEveryPartIs(parse, env.ttl, renewals);
        ExpiryIsBounded(parse, env.(renewals := renewals));
      }
    }
  }

  lemma RequestIsSafe(parse: DurationParser, w: World, step: Step)
    requires ReadsDurations(parse) && Sound(parse, w) && step.Request? && step.at >= w.clock
    ensures Sound(parse, Do(parse, w, step)) && Safe(parse, w, step)
  {
    var asked := if step.asked.ttl == "" then Some(DEFAULT_TTL) else ParseTTL(parse, step.asked.ttl, DEFAULT_TTL);
    if Do(parse, w, step).c != w.c {
      assert step.asked.ttl != "" ==> parse(step.asked.ttl).Some?;
      WrittenTTLIsReadable(parse, asked.value, DEFAULT_TTL);
    } else if w.c.env.Some? {
      ExpiryIsBounded(parse, w.c.env.value);
    }
  }

  /** What every step keeps, in any order of reads and writes. */
  lemma StepIsSafe(parse: DurationParser, w: World, step: Step)
    requires ReadsDurations(parse) && Sound(parse, w) && step.at >= w.clock
    ensures Sound(parse, Do(parse, w, step)) && Safe(parse, w, step)
  {
    if w.c.env.Some? {
      ExpiryIsBounded(parse, w.c.env.value);
    }
    match step
    case Request(_, _, _, _, _, _) => RequestIsSafe(parse, w, step);
    case ReadRenewal(_, _, _, _, _) => ReadIsSafe(parse, w, step);
    case PatchRenewal(_, _, _) => PatchIsSafe(parse, w, step);
    case BeginReconcile(_) => BeginIsSafe(parse, w, step);
    case AdvanceReconcile(_) => AdvanceIsSafe(parse, w, step);
    case _ =>
  }

  // ----- what a step keeps when nothing lands in between -----

  /**
   A renewal that was read while the preview lived is patched in when it has begun to end: the end is on record, or a
   reconcile is under way that has judged it by the lease as it was.
   */
  predicate Late(parse: DurationParser, w: World, step: Step) {
    && step.PatchRenewal? && w.c.env.Some? && Do(parse, w, step).c != w.c
    && (Ending(w.c.env.value.status.phase) || (w.pass.Some? && w.pass.value.same && w.pass.value.Ends()))
  }

  /** Somebody puts a namespace that is not this preview's in the place of the one that is about to be deleted. */
  predicate Swapped(w: World, step: Step) {
    && step.Outside? && w.pass.Some? && w.pass.value.stage.Deleting?
    && step.ns.Some? && !step.ns.value.terminating && !OwnedByUs(step.ns.value, w.pass.value.env)
  }

  /** What ends has come to the end of its lease. */
  ghost predicate OnTime(parse: DurationParser, w: World)
    requires Sound(parse, w)
  {
    && (w.c.env.Some? && Ending(w.c.env.value.status.phase) ==> w.clock >= Expiry(parse, w.c.env.value))
    && (w.pass.Some? ==> PassOnTime(parse, w, w.pass.value))
  }

  ghost predicate PassOnTime(parse: DurationParser, w: World, p: Pass)
    requires PassHolds(parse, w, p)
  {
    && (p.Ends() ==> p.now >= Expiry(parse, p.env)) && (Ending(p.env.status.phase) ==> p.Ends())
    && (p.Ends() && p.same ==> w.c.env.value.renewals == p.env.renewals)
    && (p.stage.Deleting? && w.c.ns.Some? && !w.c.ns.value.terminating ==> OwnedByUs(w.c.ns.value, p.env))
  }

  /**
   What one step may do when it is not late and swaps nothing: what has begun to end goes on ending, with the renewals
   it has; a namespace that is deleted is the preview's own, and its lease has passed.
   */
  ghost predicate Final(parse: DurationParser, w: World, step: Step)
    requires Sound(parse, w)
  {
    var after := Do(parse, w, step);
    && (w.c.env.Some? && after.c.env.Some? && Ending(w.c.env.value.status.phase) ==>
          Ending(after.c.env.value.status.phase) && after.c.env.value.renewals == w.c.env.value.renewals)
    && (Deletes(w, step) ==>
          && OwnedByUs(w.c.ns.value, w.pass.value.env)
          && (w.pass.value.same ==>
                w.c.env.value.uid == w.pass.value.env.uid && step.at >= Expiry(parse, w.c.env.value)))
  }

  lemma LeaseFollows(parse: DurationParser, read: Environment, env: Environment)
    requires Follows(read, env) && env.renewals == read.renewals
    ensures LeaseOfEnv(parse, env) == LeaseOfEnv(parse, read)
  {
  }

  lemma WriteIsFinal(parse: DurationParser, w: World, step: Step)
    requires Sound(parse, w) && OnTime(parse, w) && step.AdvanceReconcile? && step.at >= w.clock
    requires w.pass.Some? && w.pass.value.stage.Writing? && Sound(parse, Do(parse, w, step))
    ensures OnTime(parse, Do(parse, w, step)) && Final(parse, w, step)
  {
    var p := w.pass.value;
    WrittenStatusIsSound(parse, p.env, p.stage.status);
  }

  lemma LookIsFinal(parse: DurationParser, w: World, step: Step)
    requires Sound(parse, w) && OnTime(parse, w) && step.AdvanceReconcile? && step.at >= w.clock
    requires w.pass.Some? && !w.pass.value.stage.Writing? && Sound(parse, Do(parse, w, step))
    ensures OnTime(parse, Do(parse, w, step)) && Final(parse, w, step)
  {
    var p := w.pass.value;
    if p.same && p.Ends() {
      LeaseFollows(parse, p.env, w.c.env.value);
    }
    LookingOn(w.c, p, step.at);
  }

  lemma AdvanceIsFinal(parse: DurationParser, w: World, step: Step)
    requires Sound(parse, w) && OnTime(parse, w) && step.AdvanceReconcile? && step.at >= w.clock
    requires Sound(parse, Do(parse, w, step))
    ensures OnTime(parse, Do(parse, w, step)) && Final(parse, w, step)
  {
    if w.pass.Some? {
      if w.pass.value.stage.Writing? {
        WriteIsFinal(parse, w, step);
      } else {
        LookIsFinal(parse, w, step);
      }
    }
  }

  lemma BeginIsFinal(parse: DurationParser, w: World, step: Step)
    requires Sound(parse, w) && OnTime(parse, w) && step.BeginReconcile? && step.at >= w.clock
    requires Sound(parse, Do(parse, w, step))
    ensures OnTime(parse, Do(parse, w, step)) && Final(parse, w, step)
  {
  }

  lemma OtherIsFinal(parse: DurationParser, w: World, step: Step)
    requires Sound(parse, w) && OnTime(parse, w) && step.at >= w.clock && !Late(parse, w, step) && !Swapped(w, step)
    requires !step.BeginReconcile? && !step.AdvanceReconcile? && Sound(parse, Do(parse, w, step))
    ensures OnTime(parse, Do(parse, w, step)) && Final(parse, w, step)
  {
  }

  lemma StepIsFinal(parse: DurationParser, w: World, step: Step)
    requires ReadsDurations(parse) && Sound(parse, w) && OnTime(parse, w) && step.at >= w.clock
    requires !Late(parse, w, step) && !Swapped(w, step) && Sound(parse, Do(parse, w, step))
    ensures OnTime(parse, Do(parse, w, step)) && Final(parse, w, step)
  {
    match step
    case BeginReconcile(_) => BeginIsFinal(parse, w, step);
    case AdvanceReconcile(_) => AdvanceIsFinal(parse, w, step);
    case _ => OtherIsFinal(parse, w, step);
  }

  /** A patch that takes effect lengthens the list of renewals. */
  lemma PatchLengthens(c: Cluster, renewals: seq<Renewal>)
    requires c.env.Some? && PatchRenewals(c, renewals).0 != c
    ensures PatchRenewals(c, renewals).0.env.Some?
    ensures PatchRenewals(c, renewals).0.env.value.renewals != c.env.value.renewals
  {
  }

  /**
   The condition is exact, step by step: what goes on ending does so on time, with the renewals it was judged by, and
   the namespace about to be deleted stays the preview's own, if and only if no renewal is late and no namespace is
   swapped.
   */
  lemma StepStaysFinalIff(parse: DurationParser, w: World, step: Step)
    requires ReadsDurations(parse) && Sound(parse, w) && OnTime(parse, w) && step.at >= w.clock
    requires Sound(parse, Do(parse, w, step))
    ensures OnTime(parse, Do(parse, w, step)) && Final(parse, w, step) <==> !Late(parse, w, step) && !Swapped(w, step)
  {
    if Late(parse, w, step) {
      PatchLengthens(w.c, w.renewing[step.call]);
    } else if !Swapped(w, step) {
      StepIsFinal(parse, w, step);
    }
  }

  // ----- every run -----

  ghost predicate ClockNeverGoesBack(w: World, steps: seq<Step>) {
    && (forall k | 0 <= k < |steps| :: steps[k].at >= w.clock)
    && (forall i, j | 0 <= i < j < |steps| :: steps[i].at <= steps[j].at)
  }

  lemma {:induction false} EveryRunStaysSound(parse: DurationParser, start: World, steps: seq<Step>)
    requires ReadsDurations(parse) && Sound(parse, start) && ClockNeverGoesBack(start, steps)
    ensures Sound(parse, Run(parse, start, steps))
    ensures Run(parse, start, steps).clock == if steps == [] then start.clock else steps[|steps| - 1].at
  {
    if steps != [] {
      var last := |steps| - 1;
      assert forall k | 0 <= k < last :: steps[..last][k] == steps[k];
      EveryRunStaysSound(parse, start, steps[..last]);
      StepIsSafe(parse, Run(parse, start, steps[..last]), steps[last]);
    }
  }

  /** A run up to a step of it has the clock at or before that step. */
  lemma UpTo(parse: DurationParser, start: World, steps: seq<Step>, k: nat)
    requires ReadsDurations(parse) && Sound(parse, start) && ClockNeverGoesBack(start, steps) && k < |steps|
    ensures Sound(parse, Run(parse, start, steps[..k])) && Run(parse, start, steps[..k]).clock <= steps[k].at
  {
    assert forall i | 0 <= i < k :: steps[..k][i] == steps[i];
    EveryRunStaysSound(parse, start, steps[..k]);
  }

  /**
   From any sound start, such as one without the preview, over every run: a preview keeps its identity and its
   creation time, ReclaimedAt is set once, renewals only grow, no expiry lies beyond creation plus seven days, every
   lease stays readable, and the reconciler sets out to delete a namespace only when it has just seen the owner
   reference of the preview it reconciles on it.
   */
  lemma EveryRunIsSafe(parse: DurationParser, start: World, steps: seq<Step>, k: nat)
    requires ReadsDurations(parse) && Sound(parse, start) && ClockNeverGoesBack(start, steps) && k < |steps|
    ensures Safe(parse, Run(parse, start, steps[..k]), steps[k])
  {
    UpTo(parse, start, steps, k);
    StepIsSafe(parse, Run(parse, start, steps[..k]), steps[k]);
  }

  /** No renewal of the run is late, and no namespace is swapped under a delete. */
  ghost predicate NothingInBetween(parse: DurationParser, start: World, steps: seq<Step>) {
    forall k | 0 <= k < |steps| :: QuietAt(parse, start, steps, k)
  }

  ghost predicate QuietAt(parse: DurationParser, start: World, steps: seq<Step>, k: nat)
    requires k < |steps|
  {
    !Late(parse, Run(parse, start, steps[..k]), steps[k]) && !Swapped(Run(parse, start, steps[..k]), steps[k])
  }

  lemma QuietInPrefix(parse: DurationParser, start: World, steps: seq<Step>, n: nat)
    requires n <= |steps| && NothingInBetween(parse, start, steps)
    ensures NothingInBetween(parse, start, steps[..n])
  {
    forall k | 0 <= k < n ensures QuietAt(parse, start, steps[..n], k) {
      assert steps[..n][..k] == steps[..k] && steps[..n][k] == steps[k];
      assert QuietAt(parse, start, steps, k);
    }
  }

  lemma {:induction false} EveryRunStaysOnTime(parse: DurationParser, start: World, steps: seq<Step>)
    requires ReadsDurations(parse) && Sound(parse, start) && OnTime(parse, start) && ClockNeverGoesBack(start, steps)
    requires NothingInBetween(parse, start, steps)
    ensures Sound(parse, Run(parse, start, steps)) && OnTime(parse, Run(parse, start, steps))
  {
    EveryRunStaysSound(parse, start, steps);
    if steps != [] {
      var last := |steps| - 1;
      assert forall k | 0 <= k < last :: steps[..last][k] == steps[k];
      QuietInPrefix(parse, start, steps, last);
      EveryRunStaysOnTime(parse, start, steps[..last]);
      UpTo(parse, start, steps, last);
      assert QuietAt(parse, start, steps, last);
      StepIsFinal(parse, Run(parse, start, steps[..last]), steps[last]);
    }
  }

  /**
   Over every run with a clock that does not go back in which no renewal is late and no namespace swapped: Reclaiming,
   Orphaned and Expired are never left while the object lives, nothing is renewed any more, and a namespace is deleted
   only if it is the preview's own and its expiry is reached.
   */
  lemma EveryRunIsFinal(parse: DurationParser, start: World, steps: seq<Step>, k: nat)
    requires ReadsDurations(parse) && Sound(parse, start) && OnTime(parse, start) && ClockNeverGoesBack(start, steps)
    requires NothingInBetween(parse, start, steps) && k < |steps|
    ensures Sound(parse, Run(parse, start, steps[..k])) && Final(parse, Run(parse, start, steps[..k]), steps[k])
  {
    UpTo(parse, start, steps, k);
    assert forall i | 0 <= i < k :: steps[..k][i] == steps[i];
    QuietInPrefix(parse, start, steps, k);
    EveryRunStaysOnTime(parse, start, steps[..k]);
    assert QuietAt(parse, start, steps, k);
    StepIsSafe(parse, Run(parse, start, steps[..k]), steps[k]);
    StepIsFinal(parse, Run(parse, start, steps[..k]), steps[k]);
  }

  // ----- the methods as runs -----

  lemma RunOneMore(parse: DurationParser, w: World, steps: seq<Step>, step: Step)
    ensures Run(parse, w, steps + [step]) == Do(parse, Run(parse, w, steps), step)
  {
    assert (steps + [step])[..|steps|] == steps;
  }

  /** A renewal with nothing in between is a read and a patch. */
  lemma RenewIsARun(parse: DurationParser, w: World, at: int, call: string, extend: string, reason: string,
      actor: string, fails: bool)
    requires call !in w.renewing
    ensures var v := Run(parse, w, [ReadRenewal(at, call, extend, reason, actor), PatchRenewal(at, call, fails)]);
            v.c == RenewStep(parse, w.c, extend, reason, actor, at, fails).0
  {
    var steps := [ReadRenewal(at, call, extend, reason, actor), PatchRenewal(at, call, fails)];
    assert steps[..1] == [steps[0]] && [steps[0]][..0] == [];
    assert Run(parse, w, steps[..1]) == Do(parse, w, steps[0]);
  }

  /** A reconcile's read and its first k parts. */
  function ReconcileSteps(at: int, k: nat): seq<Step> {
    if k == 0 then [BeginReconcile(at)] else ReconcileSteps(at, k - 1) + [AdvanceReconcile(at)]
  }

  /** The world after a reconcile's read and its first k parts, uninterrupted. */
  function Midway(parse: DurationParser, w: World, at: int, k: nat): World {
    if k == 0 then Do(parse, w, BeginReconcile(at)) else Do(parse, Midway(parse, w, at, k - 1), AdvanceReconcile(at))
  }

  lemma {:induction false} MidwayIsARun(parse: DurationParser, w: World, at: int, k: nat)
    ensures Run(parse, w, ReconcileSteps(at, k)) == Midway(parse, w, at, k)
  {
    if k == 0 {
      RunOneMore(parse, w, [], BeginReconcile(at));
      assert [] + [BeginReconcile(at)] == [BeginReconcile(at)];
    } else {
      MidwayIsARun(parse, w, at, k - 1);
      RunOneMoreFrom(parse, w, ReconcileSteps(at, k - 1), AdvanceReconcile(at), Midway(parse, w, at, k - 1));
    }
  }

  lemma RunOneMoreFrom(parse: DurationParser, w: World, steps: seq<Step>, s: Step, v: World)
    requires Run(parse, w, steps) == v
    ensures Run(parse, w, steps + [s]) == Do(parse, v, s)
  {
    RunOneMore(parse, w, steps, s);
  }

  /** How many parts of a reconcile take effect when one of its calls fails. */
  function PartsDone(parse: DurationParser, c: Cluster, now: int, fault: Fault): nat {
    var write := if TakesEffect(fault, WriteStatus) then 1 else 0;
    if BeginPass(parse, c, now).None? then 0
    else
      match FirstStage(parse, c.env.value, now)
      case Writing(_) => write
      case Looking(_) =>
        if Fails(fault, ReadNamespace) then 0
        else if c.ns.None? || !OwnedByUs(c.ns.value, c.env.value) || c.ns.value.terminating then 1 + write
        else if Fails(fault, DeleteNamespace) then if fault.done then 2 else 1
        else 2 + write
      case _ =>
        if Fails(fault, ReadDivision) then 0
        else if !c.divisionExists then 1 + write
        else if Provision(c.ns, c.env.value).None? then 1
        else if Fails(fault, WriteNamespace) then if fault.done then 1 else 0
        else if Fails(fault, WriteQuota) || Fails(fault, WritePolicy) then 1
        else 1 + write
  }

  /** The parts of a pass, one after the other with nothing in between. */
  function Parts(c: Cluster, p: Pass, at: int, k: nat): (Cluster, Option<Pass>) {
    if k == 0 then (c, Some(p))
    else
      match Parts(c, p, at, k - 1)
      case (after, None) => (after, None)
      case (after, Some(q)) => AdvancePass(after, q, at)
  }

  lemma AdvanceOf(parse: DurationParser, w: World, at: int)
    ensures Do(parse, w, AdvanceReconcile(at)) ==
      match w.pass
      case None => w.(clock := at)
      case Some(p) => var (c, q) := AdvancePass(w.c, p, at); w.(c := c, clock := at, pass := q)
  {
  }

  lemma {:induction false} MidwayIsParts(parse: DurationParser, w: World, at: int, k: nat)
    requires w.pass.None? && BeginPass(parse, w.c, at).Some?
    ensures var (c, p) := Parts(w.c, BeginPass(parse, w.c, at).value, at, k);
            Midway(parse, w, at, k) == w.(c := c, clock := at, pass := p)
  {
    if k > 0 {
      MidwayIsParts(parse, w, at, k - 1);
      AdvanceOf(parse, Midway(parse, w, at, k - 1), at);
    }
  }

  /** The part that writes the status, with nothing written in between. */
  lemma WritingIsSaving(c: Cluster, p: Pass, at: int, fault: Fault, requeueAfter: int, deleted: bool)
    requires p.stage.Writing? && p.same && p.untouched && c.env == Some(p.env)
    ensures Save(c, p.env, p.stage.status, fault, requeueAfter, deleted).0
         == if TakesEffect(fault, WriteStatus) then AdvancePass(c, p, at).0 else c
  {
  }

  lemma ReclaimIsParts(c: Cluster, p: Pass, fault: Fault, k: nat)
    requires p.stage.Looking? && p.same && p.untouched && c.env == Some(p.env)
    requires var write := if TakesEffect(fault, WriteStatus) then 1 else 0;
      k == if Fails(fault, ReadNamespace) then 0
           else if c.ns.None? || !OwnedByUs(c.ns.value, p.env) || c.ns.value.terminating then 1 + write
           else if Fails(fault, DeleteNamespace) then if fault.done then 2 else 1
           else 2 + write
    ensures ReclaimStep(c, p.env, p.stage.status, p.now, fault).0 == Parts(c, p, p.now, k).0
  {
    var (c1, p1) := AdvancePass(c, p, p.now);
    assert Parts(c, p, p.now, 0) == (c, Some(p)) && Parts(c, p, p.now, 1) == (c1, p1);
    var (c2, p2) := AdvancePass(c1, p1.value, p.now);
    assert Parts(c, p, p.now, 2) == (c2, p2);
    if p2.Some? {
      assert Parts(c, p, p.now, 3) == AdvancePass(c2, p2.value, p.now);
    }
  }

  lemma ProvideIsParts(c: Cluster, p: Pass, fault: Fault, k: nat)
    requires p.stage.Providing? && p.same && p.untouched && c.env == Some(p.env)
    requires var write := if TakesEffect(fault, WriteStatus) then 1 else 0;
      k == if Fails(fault, ReadDivision) then 0
           else if !c.divisionExists then 1 + write
           else if Provision(c.ns, p.env).None? then 1
           else if Fails(fault, WriteNamespace) then if fault.done then 1 else 0
           else if Fails(fault, WriteQuota) || Fails(fault, WritePolicy) then 1
           else 1 + write
    ensures ProvideStep(c, p.env, p.stage.status, fault, 0).0 == Parts(c, p, p.now, k).0
  {
    var (c1, p1) := AdvancePass(c, p, p.now);
    assert Parts(c, p, p.now, 0) == (c, Some(p)) && Parts(c, p, p.now, 1) == (c1, p1);
    if p1.Some? {
      assert Parts(c, p, p.now, 2) == AdvancePass(c1, p1.value, p.now);
    }
  }

  /** What a reconcile comes to, by the stage it begins with. */
  lemma ReconcileByStage(parse: DurationParser, c: Cluster, now: int, fault: Fault)
    requires BeginPass(parse, c, now).Some?
    ensures var p := BeginPass(parse, c, now).value;
      ReconcileStep(parse, c, now, fault).0 ==
      match p.stage
      case Writing(status) => Save(c, p.env, status, fault, 0, false).0
      case Looking(status) => ReclaimStep(c, p.env, status, now, fault).0
      case Providing(status) => ProvideStep(c, p.env, status, fault, 0).0
      case Deleting(_) => c
  {
  }

  lemma ReconcileIsParts(parse: DurationParser, c: Cluster, now: int, fault: Fault)
    requires BeginPass(parse, c, now).Some?
    ensures Parts(c, BeginPass(parse, c, now).value, now, PartsDone(parse, c, now, fault)).0
         == ReconcileStep(parse, c, now, fault).0
  {
    var p, k := BeginPass(parse, c, now).value, PartsDone(parse, c, now, fault);
    ReconcileByStage(parse, c, now, fault);
    match p.stage {
      case Writing(_) =>
        assert Parts(c, p, now, 0) == (c, Some(p)) && Parts(c, p, now, 1) == AdvancePass(c, p, now);
        WritingIsSaving(c, p, now, fault, 0, false);
      case Looking(_) => ReclaimIsParts(c, p, fault, k);
      case _ => ProvideIsParts(c, p, fault, k);
    }
  }

  /** The reconciler's method, whatever call of it fails, is a run of its read and its parts. */
  lemma AReconcileIsARun(parse: DurationParser, w: World, at: int, fault: Fault)
    requires w.pass.None?
    ensures Run(parse, w, ReconcileSteps(at, PartsDone(parse, w.c, at, fault))).c
         == ReconcileStep(parse, w.c, at, fault).0
  {
    var k := PartsDone(parse, w.c, at, fault);
    MidwayIsARun(parse, w, at, k);
    if BeginPass(parse, w.c, at).Some? {
      MidwayIsParts(parse, w, at, k);
      ReconcileIsParts(parse, w.c, at, fault);
    }
  }

  /**
   For any state at all, not only those the service can reach: a reconcile without a fault takes an ending
   preview out of its ending exactly when its lease cannot be read, or when it is marked Expired although its
   lease now runs longer (a renewal landed late) and its namespace can be had again.
   */
  lemma EndingIsLeftIff(parse: DurationParser, c: Cluster, now: int)
    requires c.env.Some? && !c.env.value.deleting && Ending(c.env.value.status.phase)
    ensures var env := c.env.value;
            var lease := LeaseOfEnv(parse, env);
            !Ending(ReconcileStep(parse, c, now, NoFault).0.env.value.status.phase)
            <==> lease.None? || (env.status.phase == Expired && !lease.value.Expired(now)
                                 && (!c.divisionExists || Provision(c.ns, env).Some?))
  {
  }
}
