/**
 What stands on a bill: the charges of a workload in cores, gibibytes and hours, what a stored invoice keeps of them,
 and when there is none.
 */
module BillContents {
  import opened Text
  import opened StableSort
  import opened Money
  import opened Invoices
  import opened InvoiceLaws
  import opened Biller
  import opened BillerLaws

  // ----- charges -----

  /** The hours of a period given in seconds. */
  function HoursOf(period: Period): real {
    (period.end - period.start) as real / 3600.0
  }

  lemma HoursAre(period: Period)
    ensures period.Hours() == HoursOf(period)
  {
    RatioIsQuotient(period.end - period.start, 3600);
  }

  /** So much of a resource, `per` of it to the priced unit, over the period, at a 730th of the monthly price. */
  ghost predicate ChargesFor(charge: Chargeable, w: WorkloadRequest, resource: string, unit: string, amount: int,
      per: real, period: Period, price: Money)
    requires per != 0.0
  {
    && charge.workloadUid == w.uid && charge.workloadLabel == w.namespace + "/" + w.name
    && charge.resource == resource && charge.unit == unit
    && charge.quantity == amount as real / per * HoursOf(period)
    && charge.rate.amount == price.amount / 730.0
    && charge.rate.currency == (if price.currency == "" then "IDR" else price.currency)
  }

  lemma RateIs(price: Money)
    ensures price.Times(Ratio(1, HOURS_PER_MONTH)).amount == price.amount / 730.0
    ensures price.Times(Ratio(1, HOURS_PER_MONTH)).currency == if price.currency == "" then "IDR" else price.currency
  {
    RatioIsQuotient(1, HOURS_PER_MONTH);
    assert price.amount * (1.0 / 730.0) == price.amount / 730.0;
  }

  /**
   A workload is charged for its cpu, in core-hours, and for its memory, in gibibyte-hours: one charge for each that it
   requests any of, none for what it does not.
   */
  lemma WhatAWorkloadIsCharged(w: WorkloadRequest, period: Period, policy: Policy)
    ensures var charges := ChargesOf(w, period, policy);
      && |charges| == (if w.cpuMillicores > 0 then 1 else 0) + (if w.memoryBytes > 0 then 1 else 0)
      && (w.cpuMillicores > 0 ==>
            ChargesFor(charges[0], w, "cpu", "core-hour", w.cpuMillicores, 1000.0, period, policy.cpuCore))
      && (w.memoryBytes > 0 ==>
            ChargesFor(charges[|charges| - 1], w, "memory", "gibibyte-hour", w.memoryBytes, 1073741824.0, period,
                       policy.memoryGi))
  {
    HoursAre(period);
    RateIs(policy.cpuCore);
    RateIs(policy.memoryGi);
    RatioIsQuotient(w.cpuMillicores, 1000);
    RatioIsQuotient(w.memoryBytes, GIBIBYTE);
  }

  // ----- the invoice -----

  /** A line says what was charged, under its number; its amount is the quantity at the rate. */
  lemma WhatALineSays(charge: Chargeable, number: int)
    ensures var line := ItemFor(charge, number);
      && line.number == number && line.workloadUid == charge.workloadUid && line.workloadLabel == charge.workloadLabel
      && line.resource == charge.resource && line.quantity == charge.quantity && line.unit == charge.unit
      && line.rate == charge.rate && line.amount.amount == charge.rate.amount * charge.quantity
  {
  }

  /** An invoice says whose it is, for when, and at which prices; its digest is of what it says. */
  lemma WhatAnInvoiceSays(hash: HashFunction, stamp: Stamp, division: string, period: Period, policy: Policy,
      charges: seq<Chargeable>, unallocated: Money, now: int)
    ensures var i := InvoiceFor(hash, stamp, division, period, policy, charges, unallocated, now);
      && i.division == division && i.period == period && i.policyName == policy.name
      && i.policyRevision == policy.revision && i.currency == policy.currency && i.generatedAt == now
      && i.unallocatedShare == unallocated && |i.lines| == |charges|
      && i.inputsDigest == hash(DigestText(stamp, i))
  {
  }

  /** Only a digest that is there can be met again. */
  lemma WithoutADigestNothingIsReproduced(a: Invoice, b: Invoice)
    ensures Reproduces(a, b) <==> a.inputsDigest == b.inputsDigest && a.inputsDigest != ""
  {
  }

  // ----- the stored invoice -----

  /** Within half a unit of the sixth decimal, and a multiple of it. */
  ghost predicate Near(stored: real, exact: real, unit: real) {
    -unit / 2.0 <= stored - exact <= unit / 2.0
  }

  /** A stored line keeps all of a line, the quantity to six decimals and the money to two. */
  lemma WhatAStoredLineKeeps(known: string -> string, currency: string, line: InvoiceItem)
    ensures var stored := StoredLine(known, currency, line);
      && stored.number == line.number && stored.workloadUid == known(line.workloadUid)
      && stored.workloadLabel == line.workloadLabel && stored.resource == line.resource && stored.unit == line.unit
      && Near(stored.quantity, line.quantity, 0.000001) && (stored.quantity * 1000000.0).Floor as real
         == stored.quantity * 1000000.0
      && Near(stored.rate.amount, line.rate.amount, 0.01) && Near(stored.amount.amount, line.amount.amount, 0.01)
      && (stored.amount.amount * 100.0).Floor as real == stored.amount.amount * 100.0
  {
  }

  /** A stored invoice keeps all of an invoice, its money to two decimals, under the identifier of its row. */
  lemma WhatAStoredInvoiceKeeps(known: string -> string, uid: string, i: Invoice)
    ensures var stored := StoredInvoice(known, uid, i);
      && stored.uid == uid && stored.division == i.division && stored.period == i.period
      && stored.policyName == i.policyName && stored.policyRevision == i.policyRevision
      && stored.currency == i.currency && stored.inputsDigest == i.inputsDigest && stored.generatedAt == i.generatedAt
      && Near(stored.subtotal.amount, i.subtotal.amount, 0.01) && Near(stored.total.amount, i.total.amount, 0.01)
      && Near(stored.unallocatedShare.amount, i.unallocatedShare.amount, 0.01)
      && (stored.total.amount * 100.0).Floor as real == stored.total.amount * 100.0
      && (stored.subtotal.amount * 100.0).Floor as real == stored.subtotal.amount * 100.0
      && (stored.unallocatedShare.amount * 100.0).Floor as real == stored.unallocatedShare.amount * 100.0
      && |stored.lines| == |i.lines|
      && forall k :: 0 <= k < |i.lines| ==> stored.lines[k] == StoredLine(known, i.currency, i.lines[k])
  {
  }

  /** The invoices of a division, newest first. */
  ghost function Newest(rows: seq<Invoice>, division: string): seq<Invoice> {
    Sort(ByNewest, Filter(OfDivision(division), rows))
  }

  lemma NewestIs(rows: seq<Invoice>, division: string)
    ensures var all := Newest(rows, division);
      && |all| == |Filter((i: Invoice) => i.division == division, rows)|
      && (forall k :: 0 <= k < |all| ==> all[k] in rows && all[k].division == division)
  {
    SameFilterOf(division, rows);
    forall k | 0 <= k < |Newest(rows, division)|
      ensures Newest(rows, division)[k] in rows && Newest(rows, division)[k].division == division
    {
      SortedComesFrom(ByNewest, OfDivision(division), rows, k);
    }
  }

  lemma NewestFirst(rows: seq<Invoice>, division: string, j: nat, k: nat)
    requires j < k < |Newest(rows, division)|
    ensures Newest(rows, division)[j].period.start >= Newest(rows, division)[k].period.start
  {
    ByNewestIsStrictWeak();
    SortOrders(ByNewest, Filter(OfDivision(division), rows));
    assert !ByNewest(Newest(rows, division)[k], Newest(rows, division)[j]);
  }

  /** A division's list: its invoices, newest first, so many of them, from one to sixty, and else twenty-four. */
  lemma WhatIsListed(rows: seq<Invoice>, division: string, limit: int)
    ensures var found := Listed(rows, division, limit);
      var of := |Filter((i: Invoice) => i.division == division, rows)|;
      var atMost := if 1 <= limit <= 60 then limit else 24;
      && |found| == (if of < atMost then of else atMost)
      && (forall k :: 0 <= k < |found| ==> found[k] in rows && found[k].division == division)
      && (forall j, k :: 0 <= j < k < |found| ==> found[j].period.start >= found[k].period.start)
  {
    var found, all := Listed(rows, division, limit), Newest(rows, division);
    NewestIs(rows, division);
    assert found <= all;
    forall j, k | 0 <= j < k < |found| ensures found[j].period.start >= found[k].period.start {
      NewestFirst(rows, division, j, k);
    }
  }

  lemma {:induction false} SameFilterOf(division: string, rows: seq<Invoice>)
    ensures Filter(OfDivision(division), rows) == Filter((i: Invoice) => i.division == division, rows)
  {
    if rows != [] {
      SameFilterOf(division, rows[..|rows| - 1]);
    }
  }

  // ----- no bill -----

  /**
   Nothing is billed, and the table stays as it is, before the period is over, without prices or without workloads.
   */
  lemma NothingIsBilledWithout(hash: HashFunction, stamp: Stamp, known: string -> string, projected: set<string>,
      rows: seq<Invoice>, division: string, period: Period, policy: Option<Policy>,
      requested: Option<seq<WorkloadRequest>>, now: int, uid: string, w: Weather)
    requires now < period.end || policy == None || requested == None || policy.value.name == ""
    ensures GenerateStep(hash, stamp, known, projected, rows, division, period, policy, requested, now, uid, w)
         == (rows, NotBilled)
  {
  }

  /** Nor when the division is unknown or the write fails, unless the month is on the books already. */
  lemma NothingIsStoredWithout(hash: HashFunction, stamp: Stamp, known: string -> string, projected: set<string>,
      rows: seq<Invoice>, division: string, period: Period, policy: Option<Policy>,
      requested: Option<seq<WorkloadRequest>>, now: int, uid: string, w: Weather)
    requires division !in projected || w.saveFails
    ensures var (after, result) :=
        GenerateStep(hash, stamp, known, projected, rows, division, period, policy, requested, now, uid, w);
      after == rows && !result.Billed?
  {
  }

  lemma BilledUnlessOnTheBooks(known: string -> string, projected: set<string>, rows: seq<Invoice>, invoice: Invoice,
      uid: string, w: Weather)
    requires invoice.division in projected && !w.saveFails
    ensures var (after, result) := BillStep(known, projected, rows, invoice, uid, w);
      && (result == Billed(invoice) || result.AlreadyBilled?)
      && after == if result.Billed? then Saved(known, rows, uid, invoice) else rows
  {
  }

  /**
   From the last instant of the period on it is billed, with all that is needed, unless it is on the books already.
   */
  lemma BilledOnceItIsOver(hash: HashFunction, stamp: Stamp, known: string -> string, projected: set<string>,
      rows: seq<Invoice>, division: string, period: Period, policy: Option<Policy>,
      requested: Option<seq<WorkloadRequest>>, now: int, uid: string, w: Weather)
    requires now >= period.end && policy.Some? && requested.Some? && policy.value.name != ""
    requires division in projected && !w.saveFails
    ensures var (after, result) :=
        GenerateStep(hash, stamp, known, projected, rows, division, period, policy, requested, now, uid, w);
      && (result.Billed? || result.AlreadyBilled?)
      && after == if result.Billed? then Saved(known, rows, uid, result.invoice) else rows
  {
    BilledUnlessOnTheBooks(known, projected, rows,
        InvoiceFor(hash, stamp, division, period, policy.value, ChargesForAll(requested.value, period, policy.value),
                   NewMoney(policy.value.currency, Zero()), now), uid, w);
  }

  /** What is billed is the invoice of the division's workloads at those prices, with nothing unallocated. */
  lemma WhatIsBilled(hash: HashFunction, stamp: Stamp, known: string -> string, projected: set<string>,
      rows: seq<Invoice>, division: string, period: Period, policy: Option<Policy>,
      requested: Option<seq<WorkloadRequest>>, now: int, uid: string, w: Weather)
    requires GenerateStep(hash, stamp, known, projected, rows, division, period, policy, requested, now, uid,
      w).1.Billed?
    ensures policy.Some? && requested.Some? && now >= period.end && policy.value.name != ""
    ensures var (after, result) :=
        GenerateStep(hash, stamp, known, projected, rows, division, period, policy, requested, now, uid, w);
      && result.invoice.division == division && result.invoice.period == period
      && result.invoice.policyName == policy.value.name && result.invoice.currency == policy.value.currency
      && result.invoice.unallocatedShare.amount == 0.0 && result.invoice.generatedAt == now
      && result.invoice.total.amount == result.invoice.subtotal.amount
      && |result.invoice.lines| == |ChargesForAll(requested.value, period, policy.value)|
      && result.invoice.subtotal.amount
         == Tariff(policy.value, period.Hours(), CPUs(requested.value), Memories(requested.value))
  {
    SubtotalIsTheRatesTimesTheTotals(hash, stamp, division, period, policy.value, requested.value,
        NewMoney(policy.value.currency, Zero()), now);
  }

  // ----- money as it is printed -----

  /** The printed amount: a sign if there is a debt, whole units, a point and two digits, within half a hundredth. */
  lemma WhatAnAmountPrints(q: real) returns (whole: string, hundredths: string)
    ensures FloatString(q) == (if q < 0.0 then "-" else "") + whole + "." + hundredths
    ensures AllDigits(whole) && whole != "" && AllDigits(hundredths) && |hundredths| == 2
    ensures Near((100 * Value(whole) + Value(hundredths)) as real / 100.0, if q < 0.0 then -q else q, 0.01)
  {
    var cents := Cents(q);
    whole, hundredths := Digits(cents / 100), TwoDigits(cents % 100);
    ValueOfDigits(cents / 100);
    assert hundredths[..1] == [hundredths[0]] && [hundredths[0]][..0] == [];
    assert Value(hundredths) == 10 * Value(hundredths[..1]) + cents % 10;
    assert Value(hundredths[..1]) == cents % 100 / 10;
  }
}
