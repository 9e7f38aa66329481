/**
 What a preview is granted and when it is over, from the text it was asked for down to the reconcile that gives it its
 namespace or takes it away, and what the service's calls come to: said in nanoseconds and in the fields that are
 stored.
 */
module PreviewLaws {
  import opened Text
  import opened TTL
  import opened Lease
  import opened Environments

  const ONE_MINUTE: int := 60_000_000_000
  const SEVEN_DAYS: int := 7 * 24 * 60 * ONE_MINUTE
  const INT64_MAX: int := 9_223_372_036_854_775_807

  function Shorter(a: int, b: int): int {
    if a < b then a else b
  }

  function SumOf(minutes: seq<nat>): nat {
    if minutes == [] then 0 else SumOf(minutes[..|minutes| - 1]) + minutes[|minutes| - 1]
  }

  /** Each renewal extends by so many whole minutes, written as the service writes them. */
  ghost predicate Extends(renewals: seq<Renewal>, minutes: seq<nat>) {
    && |renewals| == |minutes|
    && forall i :: 0 <= i < |renewals| ==>
         1 <= minutes[i] && minutes[i] * ONE_MINUTE <= INT64_MAX
         && renewals[i].extend == FormatTTL(minutes[i] * ONE_MINUTE)
  }

  lemma WrittenReadsBack(parse: DurationParser, minutes: nat, fallback: int)
    requires ReadsDurations(parse) && 1 <= minutes && minutes * ONE_MINUTE <= INT64_MAX
    ensures ParseTTL(parse, FormatTTL(minutes * ONE_MINUTE), fallback) == Some(minutes * ONE_MINUTE)
  {
    WholeMinutes(minutes);
    TTLRoundTrip(parse, minutes * ONE_MINUTE, fallback);
  }

  /** Every extension is read as so many nanoseconds. */
  ghost predicate ExtendsBy(parse: DurationParser, renewals: seq<Renewal>, durations: seq<nat>) {
    && |renewals| == |durations|
    && forall i :: 0 <= i < |renewals| ==> ParseTTL(parse, renewals[i].extend, 0) == Some(durations[i])
  }

  lemma {:induction false} SumOfRead(parse: DurationParser, ttl: string, first: nat, renewals: seq<Renewal>,
      durations: seq<nat>)
    requires ParseTTL(parse, ttl, DEFAULT_TTL) == Some(first) && ExtendsBy(parse, renewals, durations)
    requires first + SumOf(durations) <= INT64_MAX
    ensures GrantedSum(parse, ttl, renewals) == Some(first + SumOf(durations))
  {
    if renewals != [] {
      var last := |renewals| - 1;
      SumOfRead(parse, ttl, first, renewals[..last], durations[..last]);
    }
  }

  function InNanoseconds(minutes: seq<nat>): (durations: seq<nat>)
    ensures |durations| == |minutes|
    ensures forall i :: 0 <= i < |minutes| ==> durations[i] == minutes[i] * ONE_MINUTE
  {
    seq(|minutes|, i requires 0 <= i < |minutes| => minutes[i] * ONE_MINUTE)
  }

  lemma {:induction false} SumScales(minutes: seq<nat>)
    ensures SumOf(InNanoseconds(minutes)) == SumOf(minutes) * ONE_MINUTE
  {
    if minutes != [] {
      var last := |minutes| - 1;
      SumScales(minutes[..last]);
      assert InNanoseconds(minutes)[..last] == InNanoseconds(minutes[..last]);
    }
  }

  lemma ExtendsInNanoseconds(parse: DurationParser, renewals: seq<Renewal>, minutes: seq<nat>)
    requires ReadsDurations(parse) && Extends(renewals, minutes)
    ensures ExtendsBy(parse, renewals, InNanoseconds(minutes))
  {
    forall i | 0 <= i < |renewals|
      ensures ParseTTL(parse, renewals[i].extend, 0) == Some(InNanoseconds(minutes)[i])
    {
      WrittenReadsBack(parse, minutes[i], 0);
    }
  }

  /**
   A preview runs as long as was asked for and granted since, and seven days at most: so many minutes of TTL and of
   extensions after its creation its lease is over. It is marked as shortened if and only if that sum is more than seven
   days. (The sum within 64 bits; beyond them see RenewalNeverShortensUnlessItOverflows.)
   */
  lemma ALeaseRunsWhatWasGranted(parse: DurationParser, ttl: nat, renewals: seq<Renewal>, minutes: seq<nat>,
      createdAt: int, startedAt: Option<int>)
    requires ReadsDurations(parse) && 1 <= ttl && Extends(renewals, minutes)
    requires (ttl + SumOf(minutes)) * ONE_MINUTE <= INT64_MAX
    requires startedAt == None || startedAt == Some(createdAt)
    ensures var sum := (ttl + SumOf(minutes)) * ONE_MINUTE;
      LeaseFor(parse, FormatTTL(ttl * ONE_MINUTE), renewals, createdAt, startedAt)
      == Some(LeaseData(createdAt, createdAt + Shorter(sum, SEVEN_DAYS), Shorter(sum, SEVEN_DAYS), sum > SEVEN_DAYS))
  {
    WrittenReadsBack(parse, ttl, DEFAULT_TTL);
    ExtendsInNanoseconds(parse, renewals, minutes);
    LeaseOfMinutes(parse, FormatTTL(ttl * ONE_MINUTE), ttl, renewals, minutes, createdAt, startedAt);
  }

  lemma LeaseOfMinutes(parse: DurationParser, text: string, ttl: nat, renewals: seq<Renewal>, minutes: seq<nat>,
      createdAt: int, startedAt: Option<int>)
    requires ParseTTL(parse, text, DEFAULT_TTL) == Some(ttl * ONE_MINUTE)
    requires ExtendsBy(parse, renewals, InNanoseconds(minutes)) && (ttl + SumOf(minutes)) * ONE_MINUTE <= INT64_MAX
    requires startedAt == None || startedAt == Some(createdAt)
    ensures var sum := (ttl + SumOf(minutes)) * ONE_MINUTE;
      LeaseFor(parse, text, renewals, createdAt, startedAt)
      == Some(LeaseData(createdAt, createdAt + Shorter(sum, SEVEN_DAYS), Shorter(sum, SEVEN_DAYS), sum > SEVEN_DAYS))
  {
    InMinutes(ttl, SumOf(minutes));
    SumScales(minutes);
    SumOfRead(parse, text, ttl * ONE_MINUTE, renewals, InNanoseconds(minutes));
    LeaseOfASum(parse, text, renewals, createdAt, startedAt, (ttl + SumOf(minutes)) * ONE_MINUTE);
  }

  lemma InMinutes(a: nat, b: nat)
    ensures (a + b) * ONE_MINUTE == a * ONE_MINUTE + b * ONE_MINUTE
  {
  }

  lemma LeaseOfASum(parse: DurationParser, ttl: string, renewals: seq<Renewal>, createdAt: int, startedAt: Option<int>,
      sum: int)
    requires GrantedSum(parse, ttl, renewals) == Some(sum) && (startedAt == None || startedAt == Some(createdAt))
    ensures LeaseFor(parse, ttl, renewals, createdAt, startedAt)
      == Some(LeaseData(createdAt, createdAt + Shorter(sum, SEVEN_DAYS), Shorter(sum, SEVEN_DAYS), sum > SEVEN_DAYS))
  {
  }

  /** Asked for without a TTL it runs two days. */
  lemma WithoutATTLItRunsTwoDays(parse: DurationParser, createdAt: int)
    ensures LeaseFor(parse, "", [], createdAt, None)
      == Some(LeaseData(createdAt, createdAt + 2 * 24 * 60 * ONE_MINUTE, 2 * 24 * 60 * ONE_MINUTE, false))
  {
  }

  /** It is over from its last instant on, and what remains before that is the time to it. */
  lemma OverFromItsEndOn(lease: LeaseData, now: int)
    ensures lease.Expired(now) <==> now >= lease.expiresAt
    ensures lease.Remaining(now) == if now < lease.expiresAt then lease.expiresAt - now else 0
  {
  }

  // ----- down to the namespace -----

  /** A live preview of so many minutes. */
  ghost predicate RunsFor(env: Environment, ttl: nat, minutes: seq<nat>) {
    && 1 <= ttl && ttl * ONE_MINUTE <= INT64_MAX && env.ttl == FormatTTL(ttl * ONE_MINUTE)
    && Extends(env.renewals, minutes)
    && (ttl + SumOf(minutes)) * ONE_MINUTE <= INT64_MAX
    && (env.status.leaseStartedAt == None || env.status.leaseStartedAt == Some(env.createdAt))
    && !env.deleting && env.status.phase != Reclaiming && env.status.phase != Orphaned
  }

  function EndOf(env: Environment, ttl: nat, minutes: seq<nat>): int {
    env.createdAt + Shorter((ttl + SumOf(minutes)) * ONE_MINUTE, SEVEN_DAYS)
  }

  lemma LeaseIs(parse: DurationParser, env: Environment, ttl: nat, minutes: seq<nat>)
    requires ReadsDurations(parse) && RunsFor(env, ttl, minutes)
    ensures LeaseOfEnv(parse, env).Some? && LeaseOfEnv(parse, env).value.expiresAt == EndOf(env, ttl, minutes)
      && LeaseOfEnv(parse, env).value.startedAt == env.createdAt
  {
    ALeaseRunsWhatWasGranted(parse, ttl, env.renewals, minutes, env.createdAt, env.status.leaseStartedAt);
  }

  /**
   Before that instant a reconcile gives the preview its namespace and says when it ends: it is Ready. (Its division is
   there, and the namespace is not another object's.)
   */
  lemma ReadyBeforeItsEnd(parse: DurationParser, c: Cluster, now: int, ttl: nat, minutes: seq<nat>)
    requires ReadsDurations(parse) && c.env.Some? && RunsFor(c.env.value, ttl, minutes)
    requires now < EndOf(c.env.value, ttl, minutes) && c.divisionExists && Provision(c.ns, c.env.value).Some?
    ensures var (after, outcome) := ReconcileStep(parse, c, now, NoFault);
      && after.env.Some? && after.env.value.status.phase == Ready
      && after.env.value.status.expiresAt == Some(EndOf(c.env.value, ttl, minutes))
      && after.env.value.status.leaseStartedAt == Some(c.env.value.createdAt)
      && after.env.value.status.namespace == c.env.value.division + "-preview-" + Decimal(c.env.value.change)
      && after.env.value.status.grantedTTL == FormatTTL(EndOf(c.env.value, ttl, minutes) - c.env.value.createdAt)
      && after.ns.Some? && OwnedByUs(after.ns.value, c.env.value) && after.ns == Provision(c.ns, c.env.value)
      && !outcome.failed && !outcome.deleted
      && outcome.requeueAfter == Shorter(EndOf(c.env.value, ttl, minutes) - now, 10 * ONE_MINUTE)
  {
    LeaseIs(parse, c.env.value, ttl, minutes);
  }

  /** From that instant on it is taken down: its own namespace is deleted, or it is gone already; another's is left. */
  lemma ReclaimedFromItsEndOn(parse: DurationParser, c: Cluster, now: int, ttl: nat, minutes: seq<nat>)
    requires ReadsDurations(parse) && c.env.Some? && RunsFor(c.env.value, ttl, minutes)
    requires now >= EndOf(c.env.value, ttl, minutes)
    ensures var (after, outcome) := ReconcileStep(parse, c, now, NoFault);
      && after.env.Some? && !outcome.failed
      && match c.ns
         case None =>
           && after.env.value.status.phase == Expired && after.ns == None && !outcome.deleted
           && after.env.value.status.reclaimedAt.Some? && outcome.requeueAfter == 0
         case Some(ns) =>
           if exists i :: 0 <= i < |ns.owners| && ns.owners[i].uid == c.env.value.uid
                          && ns.owners[i].kind == "EphemeralEnvironment" then
             && after.env.value.status.phase == Reclaiming && after.ns == Some(ns.(terminating := true))
             && (outcome.deleted <==> !ns.terminating) && outcome.requeueAfter == 30_000_000_000
           else
             after.env.value.status.phase == Orphaned && after.ns == c.ns && !outcome.deleted
  {
    LeaseIs(parse, c.env.value, ttl, minutes);
  }

  /** A preview whose lease cannot be read, or whose division is not there, is pending; nothing is made or deleted. */
  lemma PendingWhen(parse: DurationParser, c: Cluster, now: int)
    requires c.env.Some? && !c.env.value.deleting
    requires LeaseOfEnv(parse, c.env.value).None?
      || (!LeaseOfEnv(parse, c.env.value).value.Expired(now) && !c.divisionExists
          && c.env.value.status.phase != Reclaiming && c.env.value.status.phase != Orphaned)
    ensures var (after, outcome) := ReconcileStep(parse, c, now, NoFault);
      && after.env.Some? && after.env.value.status.phase == Pending && after.ns == c.ns && !outcome.deleted
      && after.env.value == c.env.value.(status := after.env.value.status)
  {
  }

  /**
   What a live preview's reconcile leaves when one of its calls fails, and that it comes again at once: all before
   that call is done, nothing behind it, and the call itself if the server carried it out nonetheless.
   */
  lemma WhatAFailureLeavesBeforeItsEnd(parse: DurationParser, c: Cluster, now: int, ttl: nat, minutes: seq<nat>,
      call: Call, done: bool)
    requires ReadsDurations(parse) && c.env.Some? && RunsFor(c.env.value, ttl, minutes)
    requires now < EndOf(c.env.value, ttl, minutes) && c.divisionExists && Provision(c.ns, c.env.value).Some?
    ensures var (whole, _) := ReconcileStep(parse, c, now, NoFault);
      var (after, outcome) := ReconcileStep(parse, c, now, FailsAt(call, done));
      match call
      case ReadDivision => after == c && outcome == Outcome(true, 0, false)
      case WriteNamespace => after == c.(ns := if done then whole.ns else c.ns) && outcome == Outcome(true, 0, false)
      case WriteQuota => after == c.(ns := whole.ns) && outcome == Outcome(true, 0, false)
      case WritePolicy => after == c.(ns := whole.ns) && outcome == Outcome(true, 0, false)
      case WriteStatus =>
        after == c.(ns := whole.ns, env := if done then whole.env else c.env) && outcome == Outcome(true, 0, false)
      case _ => after == whole && !outcome.failed
  {
    LeaseIs(parse, c.env.value, ttl, minutes);
  }

  /** And of one that is over. */
  lemma WhatAFailureLeavesFromItsEndOn(parse: DurationParser, c: Cluster, now: int, ttl: nat, minutes: seq<nat>,
      call: Call, done: bool)
    requires ReadsDurations(parse) && c.env.Some? && RunsFor(c.env.value, ttl, minutes)
    requires now >= EndOf(c.env.value, ttl, minutes)
    ensures var (whole, answer) := ReconcileStep(parse, c, now, NoFault);
      var (after, outcome) := ReconcileStep(parse, c, now, FailsAt(call, done));
      match call
      case ReadNamespace => after == c && outcome == Outcome(true, 0, false)
      case DeleteNamespace =>
        if answer.deleted then after == c.(ns := if done then whole.ns else c.ns) && outcome == Outcome(true, 0, done)
        else after == whole && outcome == answer
      case WriteStatus =>
        && after == c.(ns := whole.ns, env := if done then whole.env else c.env)
        && outcome == Outcome(true, 0, answer.deleted)
      case _ => after == whole && outcome == answer
  {
    LeaseIs(parse, c.env.value, ttl, minutes);
    var status := WithLease(c.env.value, LeaseOfEnv(parse, c.env.value).value).(phase := Reclaiming);
    WhatAFailureLeavesOfAReclaim(c, c.env.value, status, now, call, done);
  }

  lemma WhatAFailureLeavesOfAReclaim(c: Cluster, env: Environment, status: Status, now: int, call: Call, done: bool)
    requires c.env == Some(env)
    ensures var (whole, answer) := ReclaimStep(c, env, status, now, NoFault);
      var (after, outcome) := ReclaimStep(c, env, status, now, FailsAt(call, done));
      match call
      case ReadNamespace => after == c && outcome == Outcome(true, 0, false)
      case DeleteNamespace =>
        if answer.deleted then after == c.(ns := if done then whole.ns else c.ns) && outcome == Outcome(true, 0, done)
        else after == whole && outcome == answer
      case WriteStatus =>
        && after == c.(ns := whole.ns, env := if done then whole.env else c.env)
        && outcome == Outcome(true, 0, answer.deleted)
      case _ => after == whole && outcome == answer
  {
  }

  /** One that is being deleted is left alone. */
  lemma LeftWhenDeleted(parse: DurationParser, c: Cluster, now: int, fault: Fault)
    requires c.env.None? || c.env.value.deleting
    ensures ReconcileStep(parse, c, now, fault).0 == c
  {
  }

  /** An owner of that kind and name is there already, be it an earlier one. */
  ghost predicate Named(owners: seq<Owner>, ref: Owner) {
    exists o :: o in owners && o.kind == ref.kind && o.name == ref.name
  }

  /** The namespace is refused if and only if another object controls it; else the preview is among its owners, once. */
  lemma ProvisionedUnlessTaken(ns: Namespace, env: Environment)
    ensures Provision(Some(ns), env).None? <==>
      exists i :: 0 <= i < |ns.owners| && ns.owners[i].controller
                  && !(ns.owners[i].kind == "EphemeralEnvironment" && ns.owners[i].name == env.name)
    ensures var ref := Owner(env.uid, "EphemeralEnvironment", env.name, true);
      && (Provision(Some(ns), env).Some? ==>
            && ref in Provision(Some(ns), env).value.owners
            && Provision(Some(ns), env).value.terminating == ns.terminating
            && (forall o: Owner :: o != ref && !(o.kind == ref.kind && o.name == ref.name) ==>
                  (o in Provision(Some(ns), env).value.owners <==> o in ns.owners))
            && |Provision(Some(ns), env).value.owners| == |ns.owners| + if Named(ns.owners, ref) then 0 else 1)
      && Provision(None, env) == Some(Namespace([ref], false))
  {
    UpsertKeepsOthers(ns.owners, OwnerRef(env));
  }

  lemma {:induction false} UpsertKeepsOthers(owners: seq<Owner>, ref: Owner)
    ensures forall o: Owner :: o != ref && !(o.kind == ref.kind && o.name == ref.name) ==>
      (o in Upsert(owners, ref) <==> o in owners)
    ensures |Upsert(owners, ref)| == |owners| + if Named(owners, ref) then 0 else 1
  {
    if owners != [] {
      UpsertKeepsOthers(owners[1..], ref);
      assert owners == [owners[0]] + owners[1..];
      var first := owners[0].kind == ref.kind && owners[0].name == ref.name;
      assert Named(owners, ref) <==> first || Named(owners[1..], ref);
    }
  }

  // ----- the service's calls -----

  /**
   A renewal is granted if and only if its reason has ten bytes or more, its extension can be read, the preview is
   there and alive, the patch goes through, and there are seven renewals before it at most. It is the last, in the
   caller's name, with the extension in whole minutes.
   */
  lemma RenewedIff(parse: DurationParser, c: Cluster, extend: string, reason: string, actor: string, now: int,
      fails: bool)
    requires ReadsDurations(parse) && extend != ""
    ensures var (after, ok) := RenewStep(parse, c, extend, reason, actor, now, fails);
      && (ok <==>
            && |reason| >= 10 && parse(extend).Some? && parse(extend).value > 0 && !fails && c.env.Some?
            && (c.env.value.status.phase == Unset || c.env.value.status.phase == Pending
                || c.env.value.status.phase == Ready)
            && |c.env.value.renewals| <= 7)
      && (!ok ==> after == c)
      && (ok ==> after == c.(env := Some(c.env.value.(renewals :=
            c.env.value.renewals + [Renewal(FormatTTL(parse(extend).value), reason, actor, now)]))))
  {
  }

  /**
   A preview is granted if and only if its division is there and the call names a repository, a change, a branch, some
   cpu and memory, and no TTL or one that can be read. One that is there already is returned.
   */
  lemma RequestedIff(parse: DurationParser, c: Cluster, uid: string, division: string, asked: Asked, actor: string,
      now: int, fails: bool)
    requires ReadsDurations(parse)
    ensures var (after, ok) := RequestStep(parse, c, uid, division, asked, actor, now, fails);
      var readable := asked.ttl == "" || (parse(asked.ttl).Some? && parse(asked.ttl).value > 0);
      var complete := c.divisionExists && asked.repository != "" && asked.change > 0 && asked.branch != ""
        && asked.cpuMillicores > 0 && asked.memoryBytes > 0 && readable;
      && (!complete ==> !ok && after == c)
      && (complete && c.env.Some? ==>
          after == c && (ok <==> c.env.value.name == division + "-" + Decimal(asked.change)))
      && (complete && c.env.None? ==> (ok <==> !fails) && (fails ==> after == c))
      && (complete && c.env.None? && !fails ==>
            && after.env.Some? && after.ns == c.ns
            && var env := after.env.value;
               && env.uid == uid && env.name == division + "-" + Decimal(asked.change) && env.createdAt == now
               && env.division == division && env.change == asked.change && env.requestedBy == actor
               && env.renewals == [] && !env.deleting && env.status.phase == Unset
               && env.status.leaseStartedAt == None && env.status.reclaimedAt == None
               && env.ttl == if asked.ttl == "" then FormatTTL(2 * 24 * 60 * ONE_MINUTE)
                             else FormatTTL(parse(asked.ttl).value))
  {
  }
}
