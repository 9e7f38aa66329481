/**
 What billing keeps over every run of sweeps, and when a month that was billed is billed again.
 */
module BillerLaws {
  import opened Text
  import opened StableSort
  import opened Money
  import opened Invoices
  import opened InvoiceLaws
  import opened ReadingOrder
  import opened Biller

  // ----- the table -----

  lemma SavingKeepsKeysUnique(known: string -> string, rows: seq<Invoice>, uid: string, i: Invoice)
    requires UniqueKeys(rows)
    ensures UniqueKeys(Saved(known, rows, uid, i))
  {
  }

  /** Every billing, whatever fails in it, leaves one row to a division and period, and no other row changed. */
  lemma BillingKeepsTheRest(known: string -> string, projected: set<string>, rows: seq<Invoice>, invoice: Invoice,
      uid: string, w: Weather)
    requires UniqueKeys(rows)
    ensures var (after, result) := BillStep(known, projected, rows, invoice, uid, w);
      && UniqueKeys(after) && |rows| <= |after| <= |rows| + 1
      && (forall k :: 0 <= k < |rows| && !SameKey(rows[k], invoice.division, invoice.period) ==> after[k] == rows[k])
      && (forall k :: 0 <= k < |rows| ==> after[k].uid == rows[k].uid)
      && (!result.Billed? ==> after == rows)
      && (result.Billed? ==> exists k :: 0 <= k < |after| && after[k] == StoredInvoice(known, after[k].uid, invoice))
  {
    SavingKeepsKeysUnique(known, rows, uid, invoice);
    var (after, result) := BillStep(known, projected, rows, invoice, uid, w);
    if result.Billed? {
      var k := RowOf(rows, invoice.division, invoice.period);
      assert after[k] == StoredInvoice(known, after[k].uid, invoice);
    }
  }

  // ----- billing the same period again -----

  /** How many of the division's invoices are for periods that began later. */
  function Newer(rows: seq<Invoice>, division: string, start: int): nat {
    |Filter(After(start), Filter(OfDivision(division), rows))|
  }

  function After(start: int): Invoice -> bool {
    (i: Invoice) => i.period.start > start
  }

  /** In a list newest first, as many come before an invoice as are newer. */
  lemma PlaceInTheList(s: seq<Invoice>, p: nat)
    requires Ordered(ByNewest, s) && p < |s|
    requires forall j :: 0 <= j < |s| && j != p ==> s[j].period.start != s[p].period.start
    ensures |Filter(After(s[p].period.start), s)| == p
  {
    var start := s[p].period.start;
    forall j | 0 <= j < p ensures After(start)(s[j]) {
      assert !ByNewest(s[p], s[j]);
    }
    forall j | p <= j < |s| ensures !After(start)(s[j]) {
      assert j == p || !ByNewest(s[j], s[p]);
    }
    FilterIsPrefix(After(start), s, p);
  }

  lemma ByNewestIsStrictWeak()
    ensures StrictWeak(ByNewest)
  {
  }

  lemma {:induction false} FindsTheOnlyOne(found: seq<Invoice>, p: nat, period: Period)
    requires p < |found| && found[p].period == period
    requires forall j :: 0 <= j < |found| && j != p ==> found[j].period != period
    ensures FindPeriod(found, period) == Some(found[p])
  {
    if p < |found| - 1 {
      FindsTheOnlyOne(found[..|found| - 1], p, period);
    } else {
      FindsNone(found[..p], period);
    }
  }

  lemma {:induction false} FindsNone(found: seq<Invoice>, period: Period)
    requires forall j :: 0 <= j < |found| ==> found[j].period != period
    ensures FindPeriod(found, period) == None
  {
    if |found| > 0 {
      FindsNone(found[..|found| - 1], period);
    }
  }

  /** No other row of the division is for a period that begins with this one, as with calendar months. */
  ghost predicate AloneAtItsStart(rows: seq<Invoice>, division: string, period: Period) {
    forall j :: 0 <= j < |rows| && rows[j].division == division && rows[j].period.start == period.start ==>
        rows[j].period == period
  }

  /** Where a row comes in its division's list, newest first: behind the newer ones. */
  lemma PlaceOfARow(rows: seq<Invoice>, k: nat) returns (p: nat)
    requires UniqueKeys(rows) && k < |rows| && AloneAtItsStart(rows, rows[k].division, rows[k].period)
    ensures p == Newer(rows, rows[k].division, rows[k].period.start)
    ensures var sorted := Sort(ByNewest, Filter(OfDivision(rows[k].division), rows));
      && p < |sorted| && sorted[p] == rows[k]
      && forall j :: 0 <= j < |sorted| && j != p ==> sorted[j].period.start != rows[k].period.start
  {
    var x := rows[k];
    var kept := Filter(OfDivision(x.division), rows);
    var sorted := Sort(ByNewest, kept);
    RowsDiffer(rows, k);
    p := OnePlaceAfterSorting(ByNewest, OfDivision(x.division), rows, k);
    forall j | 0 <= j < |sorted| && j != p ensures sorted[j].period.start != x.period.start {
      SortedComesFrom(ByNewest, OfDivision(x.division), rows, j);
      OnlyRowOfItsKey(rows, k, sorted[j]);
    }
    ByNewestIsStrictWeak();
    SortOrders(ByNewest, kept);
    PlaceInTheList(sorted, p);
    SortKeepsCount(ByNewest, After(x.period.start), kept);
  }

  lemma RowsDiffer(rows: seq<Invoice>, k: nat)
    requires UniqueKeys(rows) && k < |rows|
    ensures forall j :: 0 <= j < |rows| && j != k ==> rows[j] != rows[k]
  {
    forall j | 0 <= j < |rows| && j != k ensures rows[j] != rows[k] {
      var a, b := if j < k then j else k, if j < k then k else j;
      assert !SameKey(rows[a], rows[b].division, rows[b].period);
    }
  }

  /** An invoice is found again if and only if it is among the sixty newest of its division. */
  lemma FoundIffAmongTheNewest(rows: seq<Invoice>, k: nat)
    requires UniqueKeys(rows) && k < |rows| && AloneAtItsStart(rows, rows[k].division, rows[k].period)
    ensures FindPeriod(Listed(rows, rows[k].division, MAX_LISTED), rows[k].period)
         == if Newer(rows, rows[k].division, rows[k].period.start) < MAX_LISTED then Some(rows[k]) else None
  {
    var p := PlaceOfARow(rows, k);
    var found := Listed(rows, rows[k].division, MAX_LISTED);
    if p < MAX_LISTED {
      FindsTheOnlyOne(found, p, rows[k].period);
    } else {
      FindsNone(found, rows[k].period);
    }
  }

  lemma OnlyRowOfItsKey(rows: seq<Invoice>, k: nat, y: Invoice)
    requires UniqueKeys(rows) && k < |rows| && AloneAtItsStart(rows, rows[k].division, rows[k].period)
    requires y in rows && y.division == rows[k].division && y != rows[k]
    ensures y.period.start != rows[k].period.start
  {
    var j :| 0 <= j < |rows| && rows[j] == y;
    var a, b := if j < k then j else k, if j < k then k else j;
    assert !SameKey(rows[a], rows[b].division, rows[b].period);
  }

  /**
   A billing is answered as already billed, without a write, if and only if the list was readable, the invoice of the
   period is among the sixty newest, and it has the same digest.
   */
  lemma AlreadyBilledIff(known: string -> string, projected: set<string>, rows: seq<Invoice>, k: nat, i: Invoice,
      uid: string, w: Weather)
    requires UniqueKeys(rows) && AloneAtItsStart(rows, i.division, i.period) && i.inputsDigest != ""
    requires k < |rows| && SameKey(rows[k], i.division, i.period)
    ensures var (after, result) := BillStep(known, projected, rows, i, uid, w);
      && (result.AlreadyBilled? <==>
            !w.listFails && Newer(rows, i.division, i.period.start) < MAX_LISTED
                && rows[k].inputsDigest == i.inputsDigest)
      && (result.AlreadyBilled? ==> after == rows && result.invoice == rows[k])
  {
    FoundIffAmongTheNewest(rows, k);
  }

  // ----- sweeps over the months -----

  /**
   The month the process's clock shows at an instant, in its own time zone, and the instant each month begins in
   UTC.
   */
  datatype Calendar = Calendar(monthOf: int -> int, start: int -> int)
  {
    function Month(m: int): Period {
      Period(start(m), start(m + 1))
    }

    function MonthBefore(now: int): Period {
      Month(monthOf(now) - 1)
    }

    ghost predicate Valid() {
      && (forall t, u :: t <= u ==> monthOf(t) <= monthOf(u))
      && (forall m, n :: m < n ==> start(m) < start(n))
    }
  }

  /** What stays the same over a run. */
  datatype Setting = Setting(
    calendar: Calendar, hash: HashFunction, stamp: Stamp, known: string -> string, projected: set<string>)

  /** One division billed in one sweep. */
  datatype Sweep = Sweep(
    now: int, division: string, policy: Option<Policy>, requested: Option<seq<WorkloadRequest>>, uid: string,
        weather: Weather)

  function Do(b: Setting, rows: seq<Invoice>, s: Sweep): (seq<Invoice>, Billing) {
    GenerateStep(b.hash, b.stamp, b.known, b.projected, rows, s.division, b.calendar.MonthBefore(s.now), s.policy,
        s.requested,
                 s.now, s.uid, s.weather)
  }

  function Run(b: Setting, rows: seq<Invoice>, steps: seq<Sweep>): seq<Invoice> {
    if |steps| == 0 then rows else Do(b, Run(b, rows, steps[..|steps| - 1]), steps[|steps| - 1]).0
  }

  /** The sweeps come in the order of the clock, from `since` to `until`. */
  predicate InTime(since: int, steps: seq<Sweep>, until: int) {
    && (forall i :: 0 <= i < |steps| ==> since <= steps[i].now <= until)
    && (forall i, j :: 0 <= i < j < |steps| ==> steps[i].now <= steps[j].now)
  }

  /** The period is a calendar month, `latest` or an earlier one. */
  ghost predicate MonthUpTo(c: Calendar, period: Period, latest: int) {
    exists m :: m <= latest && period == c.Month(m)
  }

  ghost predicate Ledger(b: Setting, rows: seq<Invoice>, latest: int) {
    UniqueKeys(rows) && forall k :: 0 <= k < |rows| ==> MonthUpTo(b.calendar, rows[k].period, latest)
  }

  lemma BilledLater(b: Setting, rows: seq<Invoice>, latest: int, later: int)
    requires Ledger(b, rows, latest) && latest <= later
    ensures Ledger(b, rows, later)
  {
    forall k | 0 <= k < |rows| ensures MonthUpTo(b.calendar, rows[k].period, later) {
      var m :| m <= latest && rows[k].period == b.calendar.Month(m);
    }
  }

  lemma SweepKeepsTheLedger(b: Setting, rows: seq<Invoice>, s: Sweep)
    requires Ledger(b, rows, b.calendar.monthOf(s.now) - 1)
    ensures Ledger(b, Do(b, rows, s).0, b.calendar.monthOf(s.now) - 1)
  {
    var (after, result) := Do(b, rows, s);
    if after != rows {
      var period := b.calendar.MonthBefore(s.now);
      var i := InvoiceOf(b, s);
      BillingKeepsTheRest(b.known, b.projected, rows, i, s.uid, s.weather);
      forall k | 0 <= k < |after| ensures MonthUpTo(b.calendar, after[k].period, b.calendar.monthOf(s.now) - 1) {
        if k < |rows| && !SameKey(rows[k], i.division, i.period) {
          assert after[k] == rows[k];
        } else {
          assert after[k].period == period;
        }
      }
    }
  }

  /** Nothing in the way of charging: the inputs could be read, the month is over, and a price list was in force. */
  predicate Charges(b: Setting, s: Sweep) {
    && s.policy.Some? && s.requested.Some? && s.policy.value.name != "" && b.calendar.MonthBefore(s.now).Over(s.now)
  }

  /** The invoice a sweep works out. */
  function InvoiceOf(b: Setting, s: Sweep): Invoice
    requires s.policy.Some? && s.requested.Some?
  {
    var period := b.calendar.MonthBefore(s.now);
    InvoiceFor(b.hash, b.stamp, s.division, period, s.policy.value,
        ChargesForAll(s.requested.value, period, s.policy.value),
               NewMoney(s.policy.value.currency, Zero()), s.now)
  }

  /** Over every run of sweeps there is one row to a division and month, and none for a month to come. */
  lemma {:induction false} EveryRunKeepsTheLedger(b: Setting, rows: seq<Invoice>, since: int, steps: seq<Sweep>,
      now: int)
    requires b.calendar.Valid() && since <= now && InTime(since, steps, now)
      && Ledger(b, rows, b.calendar.monthOf(since) - 1)
    ensures Ledger(b, Run(b, rows, steps), b.calendar.monthOf(now) - 1)
  {
    if |steps| == 0 {
      BilledLater(b, rows, b.calendar.monthOf(since) - 1, b.calendar.monthOf(now) - 1);
    } else {
      var front, last := steps[..|steps| - 1], steps[|steps| - 1];
      EveryRunKeepsTheLedger(b, rows, since, front, last.now);
      SweepKeepsTheLedger(b, Run(b, rows, front), last);
      BilledLater(b, Run(b, rows, steps), b.calendar.monthOf(last.now) - 1, b.calendar.monthOf(now) - 1);
    }
  }

  /** The month a sweep bills is the newest there is: its invoice is always within the list that is searched. */
  lemma NoNewerInvoice(b: Setting, rows: seq<Invoice>, division: string, now: int)
    requires b.calendar.Valid() && Ledger(b, rows, b.calendar.monthOf(now) - 1)
    ensures var period := b.calendar.MonthBefore(now);
      AloneAtItsStart(rows, division, period) && Newer(rows, division, period.start) == 0
  {
    var latest := b.calendar.monthOf(now) - 1;
    var kept := Filter(OfDivision(division), rows);
    forall j | 0 <= j < |rows| && rows[j].period.start == b.calendar.Month(latest).start
      ensures rows[j].period == b.calendar.Month(latest)
    {
      var m :| m <= latest && rows[j].period == b.calendar.Month(m);
    }
    forall i | 0 <= i < |kept| ensures !After(b.calendar.Month(latest).start)(kept[i]) {
      var j := FilterKeepsIndex(OfDivision(division), rows, i);
      var m :| m <= latest && rows[j].period == b.calendar.Month(m);
    }
    FilterIsPrefix(After(b.calendar.Month(latest).start), kept, 0);
  }

  lemma {:induction false} RowOfNone(rows: seq<Invoice>, division: string, period: Period)
    requires forall k :: 0 <= k < |rows| ==> !SameKey(rows[k], division, period)
    ensures FindPeriod(Listed(rows, division, MAX_LISTED), period) == None
  {
    var found := Listed(rows, division, MAX_LISTED);
    forall j | 0 <= j < |found| ensures found[j].period != period {
      SortedComesFrom(ByNewest, OfDivision(division), rows, j);
    }
    FindsNone(found, period);
  }

  /** The month is on the books with this digest. */
  ghost predicate OnTheBooks(rows: seq<Invoice>, i: Invoice) {
    exists k :: 0 <= k < |rows| && SameKey(rows[k], i.division, i.period) && rows[k].inputsDigest == i.inputsDigest
  }

  lemma OneRowToAKey(rows: seq<Invoice>, j: nat, k: nat, division: string, period: Period)
    requires UniqueKeys(rows) && j < |rows| && k < |rows|
    requires SameKey(rows[j], division, period) && SameKey(rows[k], division, period)
    ensures j == k
  {
  }

  lemma AnswerIff(b: Setting, rows: seq<Invoice>, i: Invoice, now: int, uid: string, w: Weather)
    requires b.calendar.Valid() && Ledger(b, rows, b.calendar.monthOf(now) - 1)
    requires i.period == b.calendar.MonthBefore(now) && i.inputsDigest != ""
    ensures var (after, result) := BillStep(b.known, b.projected, rows, i, uid, w);
      (result.AlreadyBilled? <==> !w.listFails && OnTheBooks(rows, i)) && (result.AlreadyBilled? ==> after == rows)
  {
    NoNewerInvoice(b, rows, i.division, now);
    var k := RowOf(rows, i.division, i.period);
    if k < |rows| {
      AlreadyBilledIff(b.known, b.projected, rows, k, i, uid, w);
      if OnTheBooks(rows, i) {
        var j: nat :| j < |rows| && SameKey(rows[j], i.division, i.period) && rows[j].inputsDigest == i.inputsDigest;
        OneRowToAKey(rows, j, k, i.division, i.period);
      }
    } else {
      RowOfNone(rows, i.division, i.period);
    }
  }

  /**
   After every run, a sweep that can charge answers that the month is billed already if and only if the list was
   readable and the month is on the books with the digest now worked out. Then it writes nothing; otherwise it
   saves, if it can.
   */
  lemma SweepWritesUnlessOnTheBooks(b: Setting, since: int, steps: seq<Sweep>, s: Sweep)
    requires b.calendar.Valid() && since <= s.now && InTime(since, steps, s.now)
    requires Charges(b, s) && InvoiceOf(b, s).inputsDigest != ""
    ensures var rows := Run(b, [], steps);
      var (after, result) := Do(b, rows, s);
      && (result.AlreadyBilled? <==> !s.weather.listFails && OnTheBooks(rows, InvoiceOf(b, s)))
      && (result.Billed? <==> !result.AlreadyBilled? && s.division in b.projected && !s.weather.saveFails)
      && (!result.Billed? ==> after == rows)
  {
    EveryRunKeepsTheLedger(b, [], since, steps, s.now);
    AnswerIff(b, Run(b, [], steps), InvoiceOf(b, s), s.now, s.uid, s.weather);
  }

  lemma OtherLeavesTheRow(b: Setting, rows: seq<Invoice>, s: Sweep, k: nat)
    requires UniqueKeys(rows) && k < |rows| && s.division != rows[k].division
    ensures k < |Do(b, rows, s).0| && Do(b, rows, s).0[k] == rows[k]
  {
    if Charges(b, s) {
      BillingKeepsTheRest(b.known, b.projected, rows, InvoiceOf(b, s), s.uid, s.weather);
    }
  }

  /** Sweeps of other divisions leave a row where it is. */
  lemma {:induction false} OthersLeaveTheRow(b: Setting, rows: seq<Invoice>, since: int, steps: seq<Sweep>,
      until: int, k: nat)
    requires b.calendar.Valid() && Ledger(b, rows, b.calendar.monthOf(since) - 1) && since <= until
      && InTime(since, steps, until)
    requires k < |rows| && forall j :: 0 <= j < |steps| ==> steps[j].division != rows[k].division
    ensures k < |Run(b, rows, steps)| && Run(b, rows, steps)[k] == rows[k]
  {
    if |steps| > 0 {
      var front, last := steps[..|steps| - 1], steps[|steps| - 1];
      OthersLeaveTheRow(b, rows, since, front, until, k);
      EveryRunKeepsTheLedger(b, rows, since, front, last.now);
      OtherLeavesTheRow(b, Run(b, rows, front), last, k);
    }
  }

  /** The digest is of the contents, not of when an invoice was made. */
  lemma MadeLater(hash: HashFunction, stamp: Stamp, division: string, period: Period, policy: Policy,
                  charges: seq<Chargeable>, unallocated: Money, now: int, later: int)
    ensures InvoiceFor(hash, stamp, division, period, policy, charges, unallocated, later)
         == InvoiceFor(hash, stamp, division, period, policy, charges, unallocated, now).(generatedAt := later)
  {
  }

  lemma ChargesAgain(b: Setting, s: Sweep, again: Sweep)
    requires Charges(b, s) && SameInputs(b, s, again) && s.now <= again.now
    ensures Charges(b, again)
  {
  }

  /** The same division and month, at the same prices, with the same workloads, read in whatever order. */
  predicate SameInputs(b: Setting, s: Sweep, again: Sweep)
    requires s.requested.Some?
  {
    && again.policy == s.policy && again.division == s.division
    && again.requested.Some? && multiset(again.requested.value) == multiset(s.requested.value)
    && b.calendar.monthOf(again.now) == b.calendar.monthOf(s.now)
  }

  /** What the digest of a division's invoice is taken of. */
  function TextFor(b: Setting, division: string, period: Period, policy: Policy, requested: seq<WorkloadRequest>,
      now: int): string
  {
    DigestText(b.stamp, InvoiceFor(b.hash, b.stamp, division, period, policy, ChargesForAll(requested, period, policy),
                                   NewMoney(policy.currency, Zero()), now))
  }

  function TextOf(b: Setting, s: Sweep): string
    requires s.policy.Some? && s.requested.Some?
  {
    TextFor(b, s.division, b.calendar.MonthBefore(s.now), s.policy.value, s.requested.value, s.now)
  }

  lemma DigestIsOfTheText(b: Setting, s: Sweep)
    requires s.policy.Some? && s.requested.Some?
    ensures InvoiceOf(b, s).inputsDigest == b.hash(TextOf(b, s))
  {
  }

  lemma TextIgnoresTheTime(b: Setting, division: string, period: Period, policy: Policy,
      requested: seq<WorkloadRequest>, now: int, later: int)
    ensures TextFor(b, division, period, policy, requested, later)
         == TextFor(b, division, period, policy, requested, now)
  {
    MadeLater(b.hash, b.stamp, division, period, policy, ChargesForAll(requested, period, policy),
        NewMoney(policy.currency, Zero()), now, later);
  }

  lemma TextsReadAlike(b: Setting, division: string, period: Period, policy: Policy, x: seq<WorkloadRequest>,
      y: seq<WorkloadRequest>, now: int, later: int)
    requires multiset(x) == multiset(y) && period.start != period.end
    ensures ReadAlike(x, y) ==>
      TextFor(b, division, period, policy, y, later) == TextFor(b, division, period, policy, x, now)
    ensures Faithful(b.stamp) && PlainNames(division, policy, x) ==>
      (TextFor(b, division, period, policy, y, later) == TextFor(b, division, period, policy, x, now) <==>
        ReadAlike(x, y))
  {
    TextIgnoresTheTime(b, division, period, policy, y, now, later);
    var nothing := NewMoney(policy.currency, Zero());
    if ReadAlike(x, y) {
      ReadAlikePrintsTheSame(b.hash, b.stamp, division, period, policy, x, y, nothing, now);
    } else if Faithful(b.stamp) && PlainNames(division, policy, x) {
      DigestStaysIffReadAlike(b.hash, b.stamp, division, period, policy, x, y, nothing, now);
    }
  }

  lemma MonthsAreNotEmpty(c: Calendar, now: int)
    requires c.Valid()
    ensures c.MonthBefore(now).start != c.MonthBefore(now).end
  {
  }

  /**
   With the same workloads a later sweep takes its digest of the same text if the workloads that share a namespace and a
   name were read alike, and of another text if they were not.
   */
  lemma SameTextIffReadAlike(b: Setting, s: Sweep, again: Sweep)
    requires s.policy.Some? && s.requested.Some? && SameInputs(b, s, again)
    requires b.calendar.MonthBefore(s.now).start != b.calendar.MonthBefore(s.now).end
    ensures ReadAlike(s.requested.value, again.requested.value) ==> TextOf(b, again) == TextOf(b, s)
    ensures Faithful(b.stamp) && PlainNames(s.division, s.policy.value, s.requested.value) ==>
      (TextOf(b, again) == TextOf(b, s) <==> ReadAlike(s.requested.value, again.requested.value))
  {
    var period := b.calendar.MonthBefore(s.now);
    assert b.calendar.MonthBefore(again.now) == period;
    TextsReadAlike(b, s.division, period, s.policy.value, s.requested.value, again.requested.value, s.now, again.now);
  }

  lemma SavedIsOnTheBooks(b: Setting, rows: seq<Invoice>, s: Sweep) returns (k: nat)
    requires UniqueKeys(rows) && Charges(b, s) && Do(b, rows, s).1.Billed?
    ensures var after := Do(b, rows, s).0;
      k < |after| && after[k] == StoredInvoice(b.known, after[k].uid, InvoiceOf(b, s))
  {
    BillingKeepsTheRest(b.known, b.projected, rows, InvoiceOf(b, s), s.uid, s.weather);
    k := RowOf(rows, InvoiceOf(b, s).division, InvoiceOf(b, s).period);
  }

  lemma OnTheBooksIff(rows: seq<Invoice>, i: Invoice, k: nat)
    requires UniqueKeys(rows) && k < |rows| && SameKey(rows[k], i.division, i.period)
    ensures OnTheBooks(rows, i) <==> rows[k].inputsDigest == i.inputsDigest
  {
    if OnTheBooks(rows, i) {
      var j: nat :| j < |rows| && SameKey(rows[j], i.division, i.period) && rows[j].inputsDigest == i.inputsDigest;
      OneRowToAKey(rows, j, k, i.division, i.period);
    }
  }

  lemma OnTheBooksAndAnswered(b: Setting, rows: seq<Invoice>, s: Sweep, k: nat)
    requires b.calendar.Valid() && Ledger(b, rows, b.calendar.monthOf(s.now) - 1) && Charges(b, s) && k < |rows|
    requires SameKey(rows[k], s.division, b.calendar.MonthBefore(s.now))
    requires InvoiceOf(b, s).inputsDigest != "" && s.division in b.projected && !s.weather.saveFails
    ensures var (after, result) := Do(b, rows, s);
      var differs := InvoiceOf(b, s).inputsDigest != rows[k].inputsDigest;
      && (result.Billed? <==> s.weather.listFails || differs)
      && (result.AlreadyBilled? <==> !s.weather.listFails && !differs)
      && |after| == |rows| && (result.AlreadyBilled? ==> after == rows)
  {
    var i := InvoiceOf(b, s);
    AnswerIff(b, rows, i, s.now, s.uid, s.weather);
    OnTheBooksIff(rows, i, k);
    WritingOverKeepsTheSize(b, rows, s, k);
  }

  lemma WritingOverKeepsTheSize(b: Setting, rows: seq<Invoice>, s: Sweep, k: nat)
    requires Charges(b, s) && k < |rows| && SameKey(rows[k], s.division, b.calendar.MonthBefore(s.now))
    ensures |Do(b, rows, s).0| == |rows|
  {
    assert RowOf(rows, s.division, b.calendar.MonthBefore(s.now)) <= k;
  }

  /** A month that was billed stays on the books while other divisions are billed. */
  lemma StaysOnTheBooks(b: Setting, rows: seq<Invoice>, s: Sweep, between: seq<Sweep>, until: int) returns (k: nat)
    requires b.calendar.Valid() && Ledger(b, rows, b.calendar.monthOf(s.now) - 1)
    requires s.now <= until && InTime(s.now, between, until)
    requires Charges(b, s) && Do(b, rows, s).1.Billed?
    requires forall j :: 0 <= j < |between| ==> between[j].division != s.division
    ensures var end := Run(b, Do(b, rows, s).0, between);
      && Ledger(b, end, b.calendar.monthOf(until) - 1) && k < |end|
      && SameKey(end[k], s.division, b.calendar.MonthBefore(s.now))
      && end[k].inputsDigest == InvoiceOf(b, s).inputsDigest
  {
    SweepKeepsTheLedger(b, rows, s);
    var booked := Do(b, rows, s).0;
    k := SavedIsOnTheBooks(b, rows, s);
    OthersLeaveTheRow(b, booked, s.now, between, until, k);
    EveryRunKeepsTheLedger(b, booked, s.now, between, until);
  }

  /**
   A month that was billed is billed again with the same workloads, in a later sweep, other divisions perhaps in
   between: it is written again if and only if the list of invoices could not be read or the digest came out
   different. Then its one row is written over. The digest is the same if the workloads that share a namespace and a
   name were read alike; and if they were not, it is another, unless two texts with one hash turned up.
   */
  lemma RebillingWritesIff(b: Setting, before: seq<Sweep>, since: int, s: Sweep, between: seq<Sweep>, again: Sweep)
    requires b.calendar.Valid() && (forall text :: b.hash(text) != "")
    requires since <= s.now <= again.now && InTime(since, before, s.now) && InTime(s.now, between, again.now)
    requires Charges(b, s) && Do(b, Run(b, [], before), s).1.Billed?
    requires forall j :: 0 <= j < |between| ==> between[j].division != s.division
    requires SameInputs(b, s, again) && !again.weather.saveFails
    ensures var rows := Run(b, Do(b, Run(b, [], before), s).0, between);
      var (after, result) := Do(b, rows, again);
      var alike := ReadAlike(s.requested.value, again.requested.value);
      && |after| == |rows| && (result.Billed? || result.AlreadyBilled?) && (result.AlreadyBilled? ==> after == rows)
      && (result.Billed? <==> again.weather.listFails || b.hash(TextOf(b, again)) != b.hash(TextOf(b, s)))
      && (alike ==> TextOf(b, again) == TextOf(b, s))
      && (Faithful(b.stamp) && PlainNames(s.division, s.policy.value, s.requested.value) ==>
            (TextOf(b, again) == TextOf(b, s) <==> alike))
  {
    EveryRunKeepsTheLedger(b, [], since, before, s.now);
    var k := StaysOnTheBooks(b, Run(b, [], before), s, between, again.now);
    DigestIsOfTheText(b, s);
    DigestIsOfTheText(b, again);
    MonthsAreNotEmpty(b.calendar, s.now);
    SameTextIffReadAlike(b, s, again);
    ChargesAgain(b, s, again);
    OnTheBooksAndAnswered(b, Run(b, Do(b, Run(b, [], before), s).0, between), again, k);
  }

  /**
   A Deployment and a StatefulSet of one namespace and name, read in the other order: the month is written again
   although the list was readable and nothing has changed, unless two texts with one hash turned up.
   */
  lemma ATieBillsTheMonthAgain(b: Setting, s: Sweep, between: seq<Sweep>, again: Sweep, deployment: WorkloadRequest,
                               stateful: WorkloadRequest)
    requires b.calendar.Valid() && (forall text :: b.hash(text) != "") && Faithful(b.stamp)
    requires s.now <= again.now && InTime(s.now, between, again.now)
    requires Charges(b, s) && Do(b, [], s).1.Billed?
    requires forall j :: 0 <= j < |between| ==> between[j].division != s.division
    requires s.requested.value == [deployment, stateful] && again.requested == Some([stateful, deployment])
    requires SameInputs(b, s, again) && !again.weather.saveFails
      && PlainNames(s.division, s.policy.value, s.requested.value)
    requires deployment.Label() == stateful.Label() && deployment.cpuMillicores > 0 && stateful.cpuMillicores > 0
    requires deployment.cpuMillicores != stateful.cpuMillicores
    ensures TextOf(b, again) != TextOf(b, s)
    ensures Do(b, Run(b, Do(b, [], s).0, between), again).1.Billed? || b.hash(TextOf(b, again)) == b.hash(TextOf(b, s))
  {
    RequestsOfTwo(deployment, stateful);
    RequestsOfTwo(stateful, deployment);
    RebillingWritesIff(b, [], s.now, s, between, again);
  }
}
