/**
 The admission webhook that records who did what (internal/admission/attribution.go): owners are stamped once,
 and the renewals of a preview are append-only.
 */
module Attribution {
  import opened Text
  import opened Lease

  /** time.Time{}: what an unset timestamp decodes to. */
  const ZERO_TIME: int := 0

  /** An attributed object: its owner field, its renewals (none for requests and decisions), and everything else. */
  datatype Object = Object(owner: string, renewals: seq<Renewal>, rest: string)

  datatype Operation = Create | Update | Other

  datatype Response = Denied | Allowed(entity: Object)

  function Stamp(renewal: Renewal, user: string, now: int): Renewal {
    renewal.(grantedBy := user, grantedAt := if renewal.grantedAt == ZERO_TIME then now else renewal.grantedAt)
  }

  function StampFrom(before: seq<Renewal>, after: seq<Renewal>, user: string, now: int): (stamped: seq<Renewal>)
    requires before <= after
    ensures |stamped| == |after|
  {
    before + seq(|after| - |before|, i requires 0 <= i < |after| - |before| => Stamp(after[|before| + i], user, now))
  }

  lemma StampedEntry(before: seq<Renewal>, after: seq<Renewal>, user: string, now: int, k: nat)
    requires before <= after && k < |after|
    ensures StampFrom(before, after, user, now)[k] == if k < |before| then before[k] else Stamp(after[k], user, now)
  {
  }

  /** Checks the entries that were granted, then stamps the new ones in place. */
  method StampRenewals(after: array<Renewal>, before: seq<Renewal>, user: string, now: int) returns (ok: bool)
    modifies after
    ensures ok <==> before <= old(after[..])
    ensures after[..] == if ok then StampFrom(before, old(after[..]), user, now) else old(after[..])
  {
    if after.Length < |before| {
      return false;
    }
    for i := 0 to |before|
      invariant after[..] == old(after[..])
      invariant forall k | 0 <= k < i :: before[k] == after[k]
    {
      if after[i] != before[i] {
        return false;
      }
    }
    assert before == after[..|before|];
    ghost var was := after[..];
    for i := |before| to after.Length
      invariant forall k | 0 <= k < |before| :: after[k] == before[k]
      invariant forall k | |before| <= k < i :: after[k] == Stamp(was[k], user, now)
      invariant forall k | i <= k < after.Length :: after[k] == was[k]
    {
      after[i] := after[i].(grantedBy := user);
      if after[i].grantedAt == ZERO_TIME {
        after[i] := after[i].(grantedAt := now);
      }
    }
    ok := true;
    assert after[..] == StampFrom(before, was, user, now);
  }

  /** What an admission request is answered with; `stamps` tells the preview rule from the other two. */
  function Verdict(stamps: bool, user: string, operation: Operation, next: Object, previous: Object,
      now: int): Response {
    if user == "" then Denied
    else
      match operation
      case Create => Allowed(next.(owner := user))
      case Update =>
        if next.owner != previous.owner then Denied
        else if !stamps then Allowed(next)
        else if !(previous.renewals <= next.renewals) then Denied
        else Allowed(next.(renewals := StampFrom(previous.renewals, next.renewals, user, now)))
      case Other => Allowed(next)
  }

  method Handle(stamps: bool, user: string, operation: Operation, next: Object, previous: Object, now: int)
      returns (r: Response)
    ensures r == Verdict(stamps, user, operation, next, previous, now)
  {
    if user == "" {
      return Denied;
    }
    var entity := next;
    match operation {
      case Create =>
        entity := entity.(owner := user);
      case Update =>
        if next.owner != previous.owner {
          return Denied;
        }
        if stamps {
          var renewals := new Renewal[|next.renewals|](i requires 0 <= i < |next.renewals| => next.renewals[i]);
          assert renewals[..] == next.renewals;
          var ok := StampRenewals(renewals, previous.renewals, user, now);
          if !ok {
            return Denied;
          }
          entity := entity.(renewals := renewals[..]);
        }
      case Other =>
    }
    r := Allowed(entity);
  }

  // ----- what each operation comes to -----

  /** Nothing is admitted in nobody's name. */
  lemma NobodyIsAdmitted(stamps: bool, operation: Operation, next: Object, previous: Object, now: int)
    ensures Verdict(stamps, "", operation, next, previous, now).Denied?
  {
  }

  /**
   What is created belongs to whoever creates it, whatever owner it named. The renewals it comes with are taken as they
   are, in whose name they may be.
   */
  lemma WhoCreatesOwns(stamps: bool, user: string, next: Object, previous: Object, now: int)
    requires user != ""
    ensures var r := Verdict(stamps, user, Create, next, previous, now);
      && r.Allowed? && r.entity.owner == user && r.entity.renewals == next.renewals && r.entity.rest == next.rest
  {
  }

  /** An update is admitted if and only if it leaves the owner and every renewal that was granted. */
  lemma UpdatesLeaveWhatWasGranted(user: string, next: Object, previous: Object, now: int)
    ensures Verdict(true, user, Update, next, previous, now).Allowed? <==>
      && user != "" && next.owner == previous.owner && |previous.renewals| <= |next.renewals|
      && forall k | 0 <= k < |previous.renewals| :: next.renewals[k] == previous.renewals[k]
  {
    var r := Verdict(true, user, Update, next, previous, now);
    if forall k | 0 <= k < |previous.renewals| :: k < |next.renewals| && next.renewals[k] == previous.renewals[k] {
      assert |previous.renewals| <= |next.renewals| ==> next.renewals[..|previous.renewals|] == previous.renewals;
    }
  }

  /**
   A renewal that was added names the user, with what was asked and why; its time is the one given, or now when none is.
   Nothing else is touched.
   */
  lemma AddedRenewalsNameTheUser(user: string, next: Object, previous: Object, now: int, k: nat)
    requires Verdict(true, user, Update, next, previous, now).Allowed? && k < |next.renewals|
    ensures var entity := Verdict(true, user, Update, next, previous, now).entity;
      && entity.owner == next.owner && entity.rest == next.rest && |entity.renewals| == |next.renewals|
      && (k < |previous.renewals| ==> entity.renewals[k] == previous.renewals[k])
      && (k >= |previous.renewals| ==>
            && entity.renewals[k].grantedBy == user && entity.renewals[k].extend == next.renewals[k].extend
            && entity.renewals[k].reason == next.renewals[k].reason
            && entity.renewals[k].grantedAt
               == if next.renewals[k].grantedAt == 0 then now else next.renewals[k].grantedAt)
  {
    StampedEntry(previous.renewals, next.renewals, user, now, k);
  }

  /** Of requests and decisions only the owner is kept; everything else is as it is sent. */
  lemma OtherUpdatesKeepTheOwner(user: string, next: Object, previous: Object, now: int)
    ensures var r := Verdict(false, user, Update, next, previous, now);
      (r.Allowed? <==> user != "" && next.owner == previous.owner) && (r.Allowed? ==> r.entity == next)
  {
  }

  lemma OtherOperationsPass(stamps: bool, user: string, next: Object, previous: Object, now: int)
    requires user != ""
    ensures Verdict(stamps, user, Other, next, previous, now) == Allowed(next)
  {
  }

  // ----- the history of one preview -----

  datatype Change = Change(user: string, next: Object, now: int)

  /** An update that is denied changes nothing. */
  function Apply(current: Object, change: Change): Object {
    match Verdict(true, change.user, Update, change.next, current, change.now)
    case Denied => current
    case Allowed(entity) => entity
  }

  function History(created: Object, changes: seq<Change>): Object {
    if changes == [] then created else Apply(History(created, changes[..|changes| - 1]), changes[|changes| - 1])
  }

  /** The k-th renewal was appended by the j-th update. */
  ghost predicate AppendedBy(created: Object, changes: seq<Change>, j: nat, k: nat) {
    j < |changes| && |History(created, changes[..j]).renewals| <= k < |History(created, changes[..j + 1]).renewals|
  }

  /** Some update appended the k-th renewal, in the name of `user`. */
  ghost predicate AppendedInNameOf(created: Object, changes: seq<Change>, k: nat, user: string) {
    exists j: nat :: AppendedBy(created, changes, j, k) && changes[j].user == user
  }

  lemma MoreChangesKeepAuthors(created: Object, changes: seq<Change>, n: nat, k: nat, user: string)
    requires n <= |changes| && AppendedInNameOf(created, changes[..n], k, user)
    ensures AppendedInNameOf(created, changes, k, user)
  {
    var j: nat :| AppendedBy(created, changes[..n], j, k) && changes[..n][j].user == user;
    assert changes[..n][..j] == changes[..j] && changes[..n][..j + 1] == changes[..j + 1];
    assert AppendedBy(created, changes, j, k);
  }

  /**
   Over every sequence of updates, admitted or not, the requester never changes, no renewal is removed or
   rewritten, and each one added since creation names the user whose update added it.
   */
  lemma {:induction false} HistoryIsAppendOnly(created: Object, changes: seq<Change>)
    ensures var now := History(created, changes);
            && now.owner == created.owner
            && created.renewals <= now.renewals
            && forall k | |created.renewals| <= k < |now.renewals| ::
                 AppendedInNameOf(created, changes, k, now.renewals[k].grantedBy)
  {
    if changes != [] {
      var last := |changes| - 1;
      var before, after := History(created, changes[..last]), History(created, changes);
      HistoryIsAppendOnly(created, changes[..last]);
      assert changes[..last + 1] == changes;
      assert before.renewals <= after.renewals;
      forall k | |created.renewals| <= k < |after.renewals|
        ensures AppendedInNameOf(created, changes, k, after.renewals[k].grantedBy)
      {
        if k < |before.renewals| {
          MoreChangesKeepAuthors(created, changes, last, k, before.renewals[k].grantedBy);
        } else {
          assert AppendedBy(created, changes, last, k);
          StampedEntry(before.renewals, changes[last].next.renewals, changes[last].user, changes[last].now, k);
        }
      }
    }
  }

  /** Whoever created a preview is its owner after every sequence of updates. */
  lemma TheCreatorStaysTheOwner(stamps: bool, user: string, next: Object, previous: Object, now: int,
      changes: seq<Change>)
    requires user != ""
    ensures History(Verdict(stamps, user, Create, next, previous, now).entity, changes).owner == user
  {
    WhoCreatesOwns(stamps, user, next, previous, now);
    HistoryIsAppendOnly(Verdict(stamps, user, Create, next, previous, now).entity, changes);
  }
}
