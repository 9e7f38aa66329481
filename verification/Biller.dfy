/**
 Billing a division for a period (internal/cost/biller.go) into the table of invoices (internal/cost/invoice_store.go).
 */
module Biller {
  import opened Text
  import opened StableSort
  import opened Money
  import opened Invoices

  predicate SameKey(a: Invoice, division: string, period: Period) {
    a.division == division && a.period == period
  }

  /** UNIQUE (division_uid, period_start, period_end). */
  ghost predicate UniqueKeys(rows: seq<Invoice>) {
    forall i, j :: 0 <= i < j < |rows| ==> !SameKey(rows[i], rows[j].division, rows[j].period)
  }

  /** A line as it is read back; `known` is what the workload column keeps of an identifier. */
  function StoredLine(known: string -> string, currency: string, line: InvoiceItem): InvoiceItem {
    line.(workloadUid := known(line.workloadUid), quantity := RoundedToMillionths(line.quantity),
          rate := NewMoney(currency, Rounded(line.rate.amount)),
              amount := NewMoney(currency, Rounded(line.amount.amount)))
  }

  /** An invoice as it is read back. */
  function StoredInvoice(known: string -> string, uid: string, i: Invoice): Invoice {
    i.(uid := uid,
       subtotal := NewMoney(i.currency, Rounded(i.subtotal.amount)),
       unallocatedShare := NewMoney(i.currency, Rounded(i.unallocatedShare.amount)),
       total := NewMoney(i.currency, Rounded(i.total.amount)),
       lines := seq(|i.lines|, k requires 0 <= k < |i.lines| => StoredLine(known, i.currency, i.lines[k])))
  }

  /** Where the row of a key is, or past the end. */
  function RowOf(rows: seq<Invoice>, division: string, period: Period): (k: nat)
    ensures k <= |rows|
    ensures k < |rows| ==> SameKey(rows[k], division, period)
    ensures forall j :: 0 <= j < k ==> !SameKey(rows[j], division, period)
  {
    if |rows| == 0 then 0
    else
      var k := RowOf(rows[..|rows| - 1], division, period);
      if k < |rows| - 1 then k else if SameKey(rows[|rows| - 1], division, period) then |rows| - 1 else |rows|
  }

  /** Insert, or replace everything but the identifier on a conflict of keys. */
  function Saved(known: string -> string, rows: seq<Invoice>, uid: string, i: Invoice): seq<Invoice> {
    var k := RowOf(rows, i.division, i.period);
    if k == |rows| then rows + [StoredInvoice(known, uid, i)] else rows[k := StoredInvoice(known, rows[k].uid, i)]
  }

  const ByNewest: (Invoice, Invoice) -> bool := (a: Invoice, b: Invoice) => a.period.start > b.period.start

  function OfDivision(division: string): Invoice -> bool {
    (i: Invoice) => i.division == division
  }

  const MAX_LISTED := 60
  const DEFAULT_LISTED := 24

  function Listed(rows: seq<Invoice>, division: string, limit: int): seq<Invoice> {
    var atMost := if limit <= 0 || limit > MAX_LISTED then DEFAULT_LISTED else limit;
    AtMost(Sort(ByNewest, Filter(OfDivision(division), rows)), atMost)
  }

  function FindPeriod(found: seq<Invoice>, period: Period): Option<Invoice> {
    if |found| == 0 then None
    else
      var earlier := FindPeriod(found[..|found| - 1], period);
      if earlier.Some? then earlier else if found[|found| - 1].period == period then Some(found[|found| - 1]) else None
  }

  datatype Billing = Billed(invoice: Invoice) | AlreadyBilled(invoice: Invoice) | NotBilled

  /** What the reads and the write of one billing came back with. */
  datatype Weather = Weather(listFails: bool, saveFails: bool)

  /** What a billing does to the table and answers, with the invoice worked out beforehand. */
  function BillStep(known: string -> string, projected: set<string>, rows: seq<Invoice>, invoice: Invoice,
      uid: string, w: Weather)
    : (seq<Invoice>, Billing)
  {
    var existing := if w.listFails then None
        else FindPeriod(Listed(rows, invoice.division, MAX_LISTED), invoice.period);
    if existing.Some? && Reproduces(existing.value, invoice) then (rows, AlreadyBilled(existing.value))
    else if invoice.division !in projected || w.saveFails then (rows, NotBilled)
    else (Saved(known, rows, uid, invoice), Billed(invoice))
  }

  /** What a billing does to the table and answers. None for what could not be read. */
  function GenerateStep(hash: HashFunction, stamp: Stamp, known: string -> string, projected: set<string>,
      rows: seq<Invoice>, division: string, period: Period, policy: Option<Policy>,
      requested: Option<seq<WorkloadRequest>>, now: int, uid: string, w: Weather)
    : (seq<Invoice>, Billing)
  {
    if policy.None? || requested.None? || !period.Over(now) || policy.value.name == "" then (rows, NotBilled)
    else
      var charges := ChargesForAll(requested.value, period, policy.value);
      var nothing := NewMoney(policy.value.currency, Zero());
      BillStep(known, projected, rows, InvoiceFor(hash, stamp, division, period, policy.value, charges, nothing, now),
          uid, w)
  }

  class InvoiceStore {
    const known: string -> string
    const projected: set<string>
    var rows: seq<Invoice>

    constructor (known: string -> string, projected: set<string>)
      ensures this.known == known && this.projected == projected && rows == [] && UniqueKeys(rows)
    {
      this.known, this.projected, this.rows := known, projected, [];
    }

    method SaveInvoice(invoice: Invoice, uid: string, fails: bool) returns (ok: bool)
      modifies this`rows
      ensures ok <==> invoice.division in projected && !fails
      ensures rows == if ok then Saved(known, old(rows), uid, invoice) else old(rows)
    {
      if invoice.division !in projected || fails {
        return false;
      }
      var k := RowOf(rows, invoice.division, invoice.period);
      var invoiceUid := if k < |rows| then rows[k].uid else uid;
      var stored := invoice.(uid := invoiceUid);
      stored := stored.(subtotal := NewMoney(invoice.currency, Rounded(invoice.subtotal.amount)));
      stored := stored.(unallocatedShare := NewMoney(invoice.currency, Rounded(invoice.unallocatedShare.amount)));
      stored := stored.(total := NewMoney(invoice.currency, Rounded(invoice.total.amount)), lines := []);
      for n := 0 to |invoice.lines|
        invariant rows == old(rows)
        invariant stored.lines == StoredInvoice(known, invoiceUid, invoice).lines[..n]
        invariant stored.(lines := []) == StoredInvoice(known, invoiceUid, invoice).(lines := [])
      {
        stored := stored.(lines := stored.lines + [StoredLine(known, invoice.currency, invoice.lines[n])]);
      }
      ghost var whole := StoredInvoice(known, invoiceUid, invoice);
      assert whole.lines[..|invoice.lines|] == whole.lines;
      assert stored == stored.(lines := []).(lines := whole.lines) == whole;
      rows := if k < |rows| then rows[k := stored] else rows + [stored];
      ok := true;
    }

    method List(division: string, limit: int) returns (found: seq<Invoice>)
      ensures found == Listed(rows, division, limit)
    {
      var atMost := if limit <= 0 || limit > MAX_LISTED then DEFAULT_LISTED else limit;
      var sorted := Sort(ByNewest, Filter(OfDivision(division), rows));
      found := AtMost(sorted, atMost);
    }

    method Existing(division: string, period: Period, fails: bool) returns (found: Option<Invoice>)
      ensures found == if fails then None else FindPeriod(Listed(rows, division, MAX_LISTED), period)
    {
      if fails {
        return None;
      }
      var stored := List(division, MAX_LISTED);
      for k := 0 to |stored|
        invariant FindPeriod(stored[..k], period) == None
      {
        assert stored[..k + 1][..k] == stored[..k];
        if stored[k].period == period {
          FindPeriodStays(stored, k + 1, period);
          return Some(stored[k]);
        }
      }
      assert stored[..|stored|] == stored;
      found := None;
    }

    /**
     `policy` and `requested` are what the cluster's price list and workloads came back with; None when reading
     failed.
     */
    method Generate(hash: HashFunction, stamp: Stamp, division: string, period: Period, policy: Option<Policy>,
                    requested: Option<seq<WorkloadRequest>>, now: int, uid: string, w: Weather)
      returns (result: Billing)
      modifies this`rows
      ensures (rows, result) ==
        GenerateStep(hash, stamp, known, projected, old(rows), division, period, policy, requested, now, uid, w)
    {
      if policy.None? || requested.None? {
        return NotBilled;
      }
      var charges := ChargesFor(requested.value, period, policy.value);
      var generated := GenerateInvoice(hash, stamp, division, period, policy.value, charges,
          NewMoney(policy.value.currency, Zero()), now);
      if generated.Failed? {
        return NotBilled;
      }
      var invoice := generated.invoice;
      var existing := Existing(division, period, w.listFails);
      if existing.Some? && Reproduces(existing.value, invoice) {
        return AlreadyBilled(existing.value);
      }
      var ok := SaveInvoice(invoice, uid, w.saveFails);
      result := if ok then Billed(invoice) else NotBilled;
    }
  }

  lemma {:induction false} FindPeriodStays(found: seq<Invoice>, k: nat, period: Period)
    requires k <= |found| && FindPeriod(found[..k], period).Some?
    ensures FindPeriod(found, period) == FindPeriod(found[..k], period)
  {
    if k < |found| {
      assert found[..|found| - 1][..k] == found[..k];
      FindPeriodStays(found[..|found| - 1], k, period);
    } else {
      assert found[..k] == found;
    }
  }
}
