/**
 The reconciler's own timer: a preview that is left alone is reclaimed at its expiry.
 */
module EnvironmentTimer {
  import opened Text
  import opened TTL
  import opened Lease
  import opened Environments
  import opened EnvironmentLaws

  /** A preview the reconciler can provision: nobody else controls its namespace, and its division is there. */
  ghost predicate Provisionable(parse: DurationParser, c: Cluster) {
    && c.env.Some? && !c.env.value.deleting && c.divisionExists
    && !Ending(c.env.value.status.phase)
    && Readable(parse, c.env.value)
    && (c.env.value.status.leaseStartedAt.Some? ==> c.env.value.status.leaseStartedAt.value == c.env.value.createdAt)
    && Provision(c.ns, c.env.value).Some?
  }

  function Iterate<S>(f: S -> S, s: S, n: nat): S {
    if n == 0 then s else f(Iterate(f, s, n - 1))
  }

  lemma {:induction false} IterateKeeps<S(!new)>(f: S -> S, s: S, n: nat, holds: (nat, S) -> bool)
    requires holds(0, s)
    requires forall k: nat, t: S :: k < n && holds(k, t) ==> holds(k + 1, f(t))
    ensures holds(n, Iterate(f, s, n))
  {
    if n > 0 {
      IterateKeeps(f, s, n - 1, holds);
    }
  }

  /** One reconcile, and the time at which it asked to be called back. */
  function Callback(parse: DurationParser): ((Cluster, int)) -> (Cluster, int) {
    (now: (Cluster, int)) =>
      var (after, outcome) := ReconcileStep(parse, now.0, now.1, NoFault);
      (after, now.1 + outcome.requeueAfter)
  }

  /** Reconcile at `now`, then again whenever the reconciler asked to be called back, `n` times over. */
  function FollowTimer(parse: DurationParser, c: Cluster, now: int, n: nat): (Cluster, int) {
    Iterate(Callback(parse), (c, now), n)
  }

  lemma {:induction false} UpsertTwice(owners: seq<Owner>, ref: Owner)
    ensures forall o | o in Upsert(owners, ref) :: o == ref || o in owners
  {
    if owners != [] {
      UpsertTwice(owners[1..], ref);
    }
  }

  lemma ProvisionAgain(ns: Option<Namespace>, env: Environment)
    requires Provision(ns, env).Some?
    ensures Provision(Provision(ns, env), env).Some?
  {
    if ns.Some? {
      UpsertTwice(ns.value.owners, OwnerRef(env));
      var owners := Provision(ns, env).value.owners;
      forall i | 0 <= i < |owners|
        ensures !(owners[i].controller && (owners[i].kind != KIND || owners[i].name != env.name))
      {
        assert owners[i] in owners;
        if owners[i] != OwnerRef(env) {
          var j :| 0 <= j < |ns.value.owners| && ns.value.owners[j] == owners[i];
        }
      }
    }
  }

  lemma SteadyReconcile(parse: DurationParser, c: Cluster, now: int)
    requires Provisionable(parse, c) && now < Expiry(parse, c.env.value)
    ensures var (after, outcome) := ReconcileStep(parse, c, now, NoFault);
            && Provisionable(parse, after)
            && after.env.value.status.phase == Ready
            && Expiry(parse, after.env.value) == Expiry(parse, c.env.value)
            && after.ns.Some? && OwnedByUs(after.ns.value, after.env.value)
            && outcome == Outcome(false, SweepDelay(Expiry(parse, c.env.value) - now), false)
  {
    var env := c.env.value;
    var status := WithLease(env, LeaseOfEnv(parse, env).value).(phase := Ready);
    SameLease(parse, env, status);
    ProvisionAgain(c.ns, env);
    assert Provision(c.ns, env.(status := status)) == Provision(c.ns, env);
  }

  function SweepsUntil(now: int, expiry: int): nat
    requires now < expiry
  {
    (expiry - now + MAX_SWEEP_DELAY - 1) / MAX_SWEEP_DELAY
  }

  lemma NextSweep(now: int, expiry: int, n: nat)
    requires now < expiry && n < SweepsUntil(now, expiry)
    ensures now + n * MAX_SWEEP_DELAY < expiry
    ensures var at := now + n * MAX_SWEEP_DELAY;
            at + SweepDelay(expiry - at) == if n + 1 == SweepsUntil(now, expiry) then expiry
                else now + (n + 1) * MAX_SWEEP_DELAY
  {
  }

  /** A state that following the timer from `now` has led to after `n` callbacks. */
  ghost predicate OnTheWay(parse: DurationParser, c: Cluster, at: int, now: int, n: nat, expiry: int)
    requires now < expiry
  {
    && Provisionable(parse, c)
    && Expiry(parse, c.env.value) == expiry
    && at == (if n == SweepsUntil(now, expiry) then expiry else now + n * MAX_SWEEP_DELAY)
    && (n > 0 ==> c.env.value.status.phase == Ready && c.ns.Some? && OwnedByUs(c.ns.value, c.env.value))
  }

  lemma OneMoreCallback(parse: DurationParser, c: Cluster, at: int, now: int, n: nat, expiry: int)
    requires now < expiry && n < SweepsUntil(now, expiry) && OnTheWay(parse, c, at, now, n, expiry)
    ensures var (after, outcome) := ReconcileStep(parse, c, at, NoFault);
            OnTheWay(parse, after, at + outcome.requeueAfter, now, n + 1, expiry)
  {
    NextSweep(now, expiry, n);
    SteadyReconcile(parse, c, at);
  }

  lemma TimerGoesOn(parse: DurationParser, c: Cluster, now: int, n: nat)
    requires Provisionable(parse, c) && now < Expiry(parse, c.env.value)
    requires n <= SweepsUntil(now, Expiry(parse, c.env.value))
    ensures OnTheWay(parse, FollowTimer(parse, c, now, n).0, FollowTimer(parse, c, now, n).1, now, n,
      Expiry(parse, c.env.value))
  {
    var expiry := Expiry(parse, c.env.value);
    forall k: nat, s: (Cluster, int) | k < n && OnTheWay(parse, s.0, s.1, now, k, expiry)
      ensures OnTheWay(parse, Callback(parse)(s).0, Callback(parse)(s).1, now, k + 1, expiry)
    {
      OneMoreCallback(parse, s.0, s.1, now, k, expiry);
    }
    IterateKeeps(Callback(parse), (c, now), n,
        (k: nat, s: (Cluster, int)) => OnTheWay(parse, s.0, s.1, now, k, expiry));
  }

  /**
   Followed only by its own timer, a preview is reconciled at exactly its expiry after ceil((expiry - now) / 10m)
   callbacks; every reconcile before that leaves it Ready and in its namespace, and that one starts to take the
   namespace away.
   */
  lemma TimerReclaimsOnTime(parse: DurationParser, c: Cluster, now: int)
    requires Provisionable(parse, c) && now < Expiry(parse, c.env.value)
    ensures var expiry := Expiry(parse, c.env.value);
            var n := SweepsUntil(now, expiry);
            && n >= 1
            && (forall k | 0 < k <= n :: FollowTimer(parse, c, now, k).0.env.Some?
                                        && FollowTimer(parse, c, now, k).0.env.value.status.phase == Ready)
            && (forall k | 0 <= k < n :: FollowTimer(parse, c, now, k).1 < expiry)
            && FollowTimer(parse, c, now, n).1 == expiry
            && var (after, outcome) := ReconcileStep(parse, FollowTimer(parse, c, now, n).0, expiry, NoFault);
               && after.env.Some? && after.env.value.status.phase == Reclaiming
               && after.ns.Some? && after.ns.value.terminating
  {
    var expiry := Expiry(parse, c.env.value);
    var n := SweepsUntil(now, expiry);
    forall k | 0 <= k <= n
      ensures k > 0 ==> FollowTimer(parse, c, now, k).0.env.Some?
      ensures k > 0 ==> FollowTimer(parse, c, now, k).0.env.value.status.phase == Ready
      ensures k < n ==> FollowTimer(parse, c, now, k).1 < expiry
    {
      TimerGoesOn(parse, c, now, k);
      if k < n {
        NextSweep(now, expiry, k);
      }
    }
    TimerGoesOn(parse, c, now, n);
  }
}
