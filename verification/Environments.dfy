/**
 Preview environments and the reconciler that gives and takes back their namespaces
 (internal/environments/reconciler.go, internal/environments/service.go).
 */
module Environments {
  import opened Text
  import opened TTL
  import opened Lease

  datatype Phase = Unset | Pending | Ready | Expired | Reclaiming | Orphaned

  datatype Status = Status(
    phase: Phase, namespace: string, leaseStartedAt: Option<int>, expiresAt: Option<int>, grantedTTL: string,
    reclaimedAt: Option<int>)

  datatype Environment = Environment(
    uid: string, name: string, createdAt: int, division: string, change: int, ttl: string, requestedBy: string,
    renewals: seq<Renewal>, status: Status, deleting: bool)
  {
    predicate Live() {
      status.phase == Pending || status.phase == Ready || status.phase == Unset
    }
  }

  datatype Owner = Owner(uid: string, kind: string, name: string, controller: bool)

  datatype Namespace = Namespace(owners: seq<Owner>, terminating: bool)

  /** What the API server holds about one preview: the object, its namespace, and whether its division exists. */
  datatype Cluster = Cluster(env: Option<Environment>, ns: Option<Namespace>, divisionExists: bool)

  const KIND := "EphemeralEnvironment"
  const RECLAIM_DELAY: int := 30 * SECOND

  function NamespaceFor(env: Environment): string {
    env.division + "-preview-" + Decimal(env.change)
  }

  predicate OwnedByUs(ns: Namespace, env: Environment) {
    exists i | 0 <= i < |ns.owners| :: ns.owners[i].uid == env.uid && ns.owners[i].kind == KIND
  }

  // ----- SetControllerReference -----

  function OwnerRef(env: Environment): Owner {
    Owner(env.uid, KIND, env.name, true)
  }

  /** Another object already controls the namespace. */
  predicate Taken(ns: Namespace, env: Environment) {
    exists i | 0 <= i < |ns.owners| :: ns.owners[i].controller
        && (ns.owners[i].kind != KIND || ns.owners[i].name != env.name)
  }

  /** Replaces the reference to the object of that kind and name, or adds one. */
  function Upsert(owners: seq<Owner>, ref: Owner): (r: seq<Owner>)
    ensures ref in r
  {
    if owners == [] then [ref]
    else if owners[0].kind == ref.kind && owners[0].name == ref.name then [ref] + owners[1..]
    else [owners[0]] + Upsert(owners[1..], ref)
  }

  /** CreateOrUpdate with the controller reference set; None when the namespace is taken. */
  function Provision(ns: Option<Namespace>, env: Environment): (after: Option<Namespace>)
    ensures after.Some? ==> OwnedByUs(after.value, env)
  {
    match ns
    case None =>
      assert [OwnerRef(env)][0] == OwnerRef(env);
      Some(Namespace([OwnerRef(env)], false))
    case Some(n) => if Taken(n, env) then None else Some(n.(owners := Upsert(n.owners, OwnerRef(env))))
  }

  // ----- API calls that can fail -----

  datatype Call =
    | ReadDivision | WriteNamespace | WriteQuota | WritePolicy | ReadNamespace | DeleteNamespace | WriteStatus

  /** One call of a reconcile fails; `done` tells whether the server nonetheless carried it out. */
  datatype Fault = NoFault | FailsAt(call: Call, done: bool)

  predicate Fails(fault: Fault, call: Call) {
    fault.FailsAt? && fault.call == call
  }

  predicate TakesEffect(fault: Fault, call: Call) {
    Fails(fault, call) ==> fault.done
  }

  /** `deleted`: this reconcile had the namespace deleted. */
  datatype Outcome = Outcome(failed: bool, requeueAfter: int, deleted: bool)

  function Save(c: Cluster, env: Environment, status: Status, fault: Fault, requeueAfter: int,
      deleted: bool): (Cluster, Outcome) {
    (if TakesEffect(fault, WriteStatus) then c.(env := Some(env.(status := status))) else c,
     if Fails(fault, WriteStatus) then Outcome(true, 0, deleted) else Outcome(false, requeueAfter, deleted))
  }

  function ReclaimStep(c: Cluster, env: Environment, status: Status, now: int, fault: Fault): (Cluster, Outcome) {
    if Fails(fault, ReadNamespace) then (c, Outcome(true, 0, false))
    else
      match c.ns
      case None =>
        var reclaimedAt := if status.reclaimedAt.None? then Some(now) else status.reclaimedAt;
        Save(c, env, status.(phase := Expired, reclaimedAt := reclaimedAt), fault, 0, false)
      case Some(ns) =>
        if !OwnedByUs(ns, env) then Save(c, env, status.(phase := Orphaned), fault, 0, false)
        else
          var removing := c.(ns := Some(ns.(terminating := true)));
          if ns.terminating then Save(c, env, status.(phase := Reclaiming), fault, RECLAIM_DELAY, false)
          else if Fails(fault, DeleteNamespace) then
            (if fault.done then removing else c, Outcome(true, 0, fault.done))
          else Save(removing, env, status.(phase := Reclaiming), fault, RECLAIM_DELAY, true)
  }

  function LeaseOfEnv(parse: DurationParser, env: Environment): Option<LeaseData> {
    LeaseFor(parse, env.ttl, env.renewals, env.createdAt, env.status.leaseStartedAt)
  }

  function WithLease(env: Environment, lease: LeaseData): Status {
    env.status.(namespace := NamespaceFor(env),
                leaseStartedAt := if env.status.leaseStartedAt.None? then Some(lease.startedAt)
                    else env.status.leaseStartedAt,
                expiresAt := Some(lease.expiresAt),
                grantedTTL := GrantedText(lease.granted))
  }

  function GrantedText(granted: int): string {
    if -TWO_63 <= granted <= MAX_INT64 then FormatTTL(granted) else ""
  }

  function ReconcileStep(parse: DurationParser, c: Cluster, now: int, fault: Fault): (Cluster, Outcome) {
    if c.env.None? || c.env.value.deleting then (c, Outcome(false, 0, false))
    else
      var env := c.env.value;
      var named := env.status.(namespace := NamespaceFor(env));
      match LeaseOfEnv(parse, env)
      case None => Save(c, env, named.(phase := Pending), fault, 0, false)
      case Some(lease) =>
        if env.status.phase == Reclaiming || env.status.phase == Orphaned then ReclaimStep(c, env, named, now, fault)
        else
          var status := WithLease(env, lease);
          if lease.Expired(now) then ReclaimStep(c, env, status.(phase := Reclaiming), now, fault)
          else ProvideStep(c, env, status, fault, SweepDelay(lease.Remaining(now)))
  }

  function ProvideStep(c: Cluster, env: Environment, status: Status, fault: Fault, requeueAfter: int)
    : (Cluster, Outcome)
  {
    if Fails(fault, ReadDivision) then (c, Outcome(true, 0, false))
    else if !c.divisionExists then Save(c, env, status.(phase := Pending), fault, 0, false)
    else if Provision(c.ns, env).None? then (c, Outcome(true, 0, false))
    else
      var provisioned := if TakesEffect(fault, WriteNamespace) then c.(ns := Provision(c.ns, env)) else c;
      if Fails(fault, WriteNamespace) || Fails(fault, WriteQuota) || Fails(fault, WritePolicy) then
        (provisioned, Outcome(true, 0, false))
      else Save(provisioned, env, status.(phase := Ready), fault, requeueAfter, false)
  }

  // ----- the reconciler -----

  class Reconciler {
    const parse: DurationParser
    var environment: Option<Environment>
    var namespace: Option<Namespace>
    var divisionExists: bool

    constructor (parse: DurationParser, divisionExists: bool)
      ensures this.parse == parse
      ensures State() == Cluster(None, None, divisionExists)
    {
      this.parse := parse;
      environment, namespace, this.divisionExists := None, None, divisionExists;
    }

    ghost function State(): Cluster
      reads this
    {
      Cluster(environment, namespace, divisionExists)
    }

    method Reconcile(now: int, fault: Fault) returns (outcome: Outcome)
      modifies this
      ensures (State(), outcome) == ReconcileStep(parse, old(State()), now, fault)
    {
      if environment.None? || environment.value.deleting {
        return Outcome(false, 0, false);
      }
      var env := environment.value;
      var status := env.status;
      status := status.(namespace := NamespaceFor(env));

      var lease := LeaseOf(parse, env.ttl, env.renewals, env.createdAt, env.status.leaseStartedAt);
      if lease.None? {
        status := status.(phase := Pending);
        outcome := WriteStatus(env, status, fault, 0, false);
        return;
      }

      if status.phase == Reclaiming || status.phase == Orphaned {
        outcome := Reclaim(env, status, now, fault);
        return;
      }

      if status.leaseStartedAt.None? {
        status := status.(leaseStartedAt := Some(lease.value.startedAt));
      }
      status := status.(expiresAt := Some(lease.value.expiresAt));
      status := status.(grantedTTL := GrantedText(lease.value.granted));

      if lease.value.Expired(now) {
        status := status.(phase := Phase.Reclaiming);
        outcome := Reclaim(env, status, now, fault);
        return;
      }

      if Fails(fault, ReadDivision) {
        return Outcome(true, 0, false);
      }
      if !divisionExists {
        status := status.(phase := Pending);
        outcome := WriteStatus(env, status, fault, 0, false);
        return;
      }

      var provisioned := Provision(namespace, env);
      if provisioned.None? {
        return Outcome(true, 0, false);
      }
      if TakesEffect(fault, Call.WriteNamespace) {
        namespace := provisioned;
      }
      if Fails(fault, Call.WriteNamespace) || Fails(fault, WriteQuota) || Fails(fault, WritePolicy) {
        return Outcome(true, 0, false);
      }
      status := status.(phase := Ready);
      outcome := WriteStatus(env, status, fault, SweepDelay(lease.value.Remaining(now)), false);
    }

    method Reclaim(env: Environment, status: Status, now: int, fault: Fault) returns (outcome: Outcome)
      modifies this
      ensures (State(), outcome) == ReclaimStep(old(State()), env, status, now, fault)
    {
      if Fails(fault, ReadNamespace) {
        return Outcome(true, 0, false);
      }
      if namespace.None? {
        var next := status.(phase := Expired);
        if next.reclaimedAt.None? {
          next := next.(reclaimedAt := Some(now));
        }
        outcome := WriteStatus(env, next, fault, 0, false);
        return;
      }
      var ns := namespace.value;
      if !OwnedByUs(ns, env) {
        outcome := WriteStatus(env, status.(phase := Orphaned), fault, 0, false);
        return;
      }
      var deleted := false;
      if !ns.terminating {
        if TakesEffect(fault, DeleteNamespace) {
          namespace := Some(ns.(terminating := true));
          deleted := true;
        }
        if Fails(fault, DeleteNamespace) {
          return Outcome(true, 0, deleted);
        }
      }
      outcome := WriteStatus(env, status.(phase := Phase.Reclaiming), fault, RECLAIM_DELAY, deleted);
    }

    method WriteStatus(env: Environment, status: Status, fault: Fault, requeueAfter: int, deleted: bool)
        returns (outcome: Outcome)
      modifies this`environment
      ensures (State(), outcome) == Save(old(State()), env, status, fault, requeueAfter, deleted)
    {
      if TakesEffect(fault, Call.WriteStatus) {
        environment := Some(env.(status := status));
      }
      outcome := if Fails(fault, Call.WriteStatus) then Outcome(true, 0, deleted)
          else Outcome(false, requeueAfter, deleted);
    }

    /** RenewEnvironment with nothing between its read and its patch. */
    method Renew(extend: string, reason: string, actor: string, now: int, patchFails: bool) returns (ok: bool)
      modifies this`environment
      ensures (State(), ok) == RenewStep(parse, old(State()), extend, reason, actor, now, patchFails)
    {
      if |reason| < 10 {
        return false;
      }
      var extension := ParseTTL(parse, extend, 0);
      if extension.None? || extension.value <= 0 {
        return false;
      }
      if environment.None? || !environment.value.Live() {
        return false;
      }
      var renewals := environment.value.renewals + [Renewal(GrantedText(extension.value), reason, actor, now)];
      if patchFails || |renewals| > MAX_RENEWALS {
        return false;
      }
      environment := Some(environment.value.(renewals := renewals));
      ok := true;
    }

    /** RequestEnvironment: an existing preview is returned as it is. */
    method Request(uid: string, division: string, asked: Asked, actor: string, now: int, createFails: bool)
        returns (ok: bool)
      modifies this`environment
      ensures (State(), ok) == RequestStep(parse, old(State()), uid, division, asked, actor, now, createFails)
    {
      if !divisionExists {
        return false;
      }
      if asked.repository == "" || asked.change <= 0 || asked.branch == "" {
        return false;
      }
      if asked.cpuMillicores <= 0 || asked.memoryBytes <= 0 {
        return false;
      }
      var granted := if asked.ttl == "" then Some(DEFAULT_TTL) else ParseTTL(parse, asked.ttl, DEFAULT_TTL);
      if granted.None? {
        return false;
      }
      var name := PreviewName(division, asked.change);
      if environment.Some? {
        return environment.value.name == name;
      }
      if createFails {
        return false;
      }
      environment := Some(NewEnvironment(uid, division, asked.change, GrantedText(granted.value), actor, now));
      ok := true;
    }
  }

  // ----- the service calls as functions of the state -----

  /** The CRD admits at most eight renewals. */
  const MAX_RENEWALS := 8

  /** The first half of a renewal: the checks on what was read, and the list of renewals to be patched in. */
  function ReadForRenewal(parse: DurationParser, c: Cluster, extend: string, reason: string, actor: string, now: int)
    : Option<seq<Renewal>>
  {
    var extension := ParseTTL(parse, extend, 0);
    if |reason| < 10 || extension.None? || extension.value <= 0 || c.env.None? || !c.env.value.Live() then None
    else Some(c.env.value.renewals + [Renewal(GrantedText(extension.value), reason, actor, now)])
  }

  /**
   The second half: the merge patch replaces the whole list, whatever became of the object since it was read. The
   admission webhook only lets a list through that goes on from the stored one, and the CRD at most eight entries.
   */
  function PatchRenewals(c: Cluster, renewals: seq<Renewal>): (Cluster, bool) {
    if c.env.None? || !(c.env.value.renewals <= renewals) || |renewals| > MAX_RENEWALS then (c, false)
    else (c.(env := Some(c.env.value.(renewals := renewals))), true)
  }

  function RenewStep(parse: DurationParser, c: Cluster, extend: string, reason: string, actor: string, now: int,
      patchFails: bool)
    : (Cluster, bool)
  {
    match ReadForRenewal(parse, c, extend, reason, actor, now)
    case None => (c, false)
    case Some(renewals) => if patchFails then (c, false) else PatchRenewals(c, renewals)
  }

  /** What a request for a preview says, besides whose it is. */
  datatype Asked = Asked(repository: string, change: int, branch: string, cpuMillicores: int, memoryBytes: int,
      ttl: string)

  function PreviewName(division: string, change: int): string {
    division + "-" + Decimal(change)
  }

  function NewEnvironment(uid: string, division: string, change: int, ttl: string, actor: string,
      now: int): Environment {
    Environment(uid, PreviewName(division, change), now, division, change, ttl, actor, [],
                Status(Unset, "", None, None, "", None), false)
  }

  /** A request for another preview than the one there is stays outside of this model. */
  function RequestStep(parse: DurationParser, c: Cluster, uid: string, division: string, asked: Asked, actor: string,
      now: int, createFails: bool): (Cluster, bool)
  {
    var granted := if asked.ttl == "" then Some(DEFAULT_TTL) else ParseTTL(parse, asked.ttl, DEFAULT_TTL);
    if !c.divisionExists || asked.repository == "" || asked.change <= 0 || asked.branch == ""
       || asked.cpuMillicores <= 0 || asked.memoryBytes <= 0 || granted.None? then (c, false)
    else if c.env.Some? then (c, c.env.value.name == PreviewName(division, asked.change))
    else if createFails then (c, false)
    else (c.(env := Some(NewEnvironment(uid, division, asked.change, GrantedText(granted.value), actor, now))), true)
  }
}
