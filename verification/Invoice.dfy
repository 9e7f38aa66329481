/**
 Invoices (internal/cost/invoice.go): the lines charged for one division and one period, added up exactly, and a
 digest of what is printed on them.
 */
module Invoices {
  import opened Text
  import opened StableSort
  import opened Money

  const CPU := "cpu"
  const MEMORY := "memory"
  const CORE_HOUR := "core-hour"
  const GIBIBYTE_HOUR := "gibibyte-hour"
  const HOURS_PER_MONTH: nat := 730
  const GIBIBYTE: nat := 1024 * 1024 * 1024

  /** Instants in seconds. */
  datatype Period = Period(start: int, end: int)
  {
    predicate Over(now: int) {
      now >= end
    }

    function Hours(): Rat {
      Ratio(end - start, 3600)
    }
  }

  datatype Policy = Policy(name: string, revision: int, currency: string, cpuCore: Money, memoryGi: Money)

  datatype Chargeable = Chargeable(workloadUid: string, workloadLabel: string, resource: string, quantity: Rat,
      unit: string, rate: Money)

  datatype InvoiceItem = InvoiceItem(
    number: int, workloadUid: string, workloadLabel: string, resource: string, quantity: Rat, unit: string,
        rate: Money, amount: Money)

  datatype Invoice = Invoice(
    uid: string, division: string, period: Period, policyName: string, policyRevision: int, currency: string,
    subtotal: Money, unallocatedShare: Money, total: Money, lines: seq<InvoiceItem>, inputsDigest: string,
        generatedAt: int)

  datatype InvoiceError = PeriodNotOver | NoPolicy

  // ----- generating -----

  predicate ChargedBefore(a: Chargeable, b: Chargeable) {
    if a.workloadLabel != b.workloadLabel then Less(a.workloadLabel, b.workloadLabel) else Less(a.resource, b.resource)
  }

  const ByLabel: (Chargeable, Chargeable) -> bool := (a, b) => ChargedBefore(a, b)

  function ItemFor(charge: Chargeable, number: int): InvoiceItem {
    InvoiceItem(number, charge.workloadUid, charge.workloadLabel, charge.resource, charge.quantity, charge.unit,
        charge.rate,
                charge.rate.Times(charge.quantity))
  }

  function Items(charges: seq<Chargeable>): (items: seq<InvoiceItem>)
    ensures |items| == |charges|
  {
    if |charges| == 0 then [] else Items(charges[..|charges| - 1]) + [ItemFor(charges[|charges| - 1], |charges|)]
  }

  function SumOf(currency: string, items: seq<InvoiceItem>): Money {
    if |items| == 0 then NewMoney(currency, Zero())
        else SumOf(currency, items[..|items| - 1]).Plus(items[|items| - 1].amount)
  }

  /** SHA-256 of the digest text. */
  type HashFunction = string -> string

  /** How an instant is printed: RFC 3339. */
  type Stamp = int -> string

  function InvoiceFor(hash: HashFunction, stamp: Stamp, division: string, period: Period, policy: Policy,
      charges: seq<Chargeable>, unallocated: Money, now: int): Invoice
  {
    var lines := Items(Sort(ByLabel, charges));
    var subtotal := SumOf(policy.currency, lines);
    var invoice := Invoice("", division, period, policy.name, policy.revision, policy.currency, subtotal, unallocated,
                           subtotal.Plus(unallocated), lines, "", now);
    invoice.(inputsDigest := hash(DigestText(stamp, invoice)))
  }

  datatype GenerateResult = Generated(invoice: Invoice) | Failed(error: InvoiceError)

  method GenerateInvoice(hash: HashFunction, stamp: Stamp, division: string, period: Period, policy: Policy,
      charges: seq<Chargeable>, unallocated: Money, now: int)
    returns (result: GenerateResult)
    ensures result == if !period.Over(now) then Failed(PeriodNotOver) else if policy.name == "" then Failed(NoPolicy)
                      else Generated(InvoiceFor(hash, stamp, division, period, policy, charges, unallocated, now))
  {
    if !period.Over(now) {
      return Failed(PeriodNotOver);
    }
    if policy.name == "" {
      return Failed(NoPolicy);
    }
    var sorted := Sort(ByLabel, charges);
    var subtotal := NewMoney(policy.currency, Zero());
    var lines := [];
    for i := 0 to |sorted|
      invariant lines == Items(sorted[..i])
      invariant subtotal == SumOf(policy.currency, lines)
    {
      assert sorted[..i + 1][..i] == sorted[..i];
      var amount := sorted[i].rate.Times(sorted[i].quantity);
      subtotal := subtotal.Plus(amount);
      ghost var before := lines;
      lines := lines + [InvoiceItem(i + 1, sorted[i].workloadUid, sorted[i].workloadLabel, sorted[i].resource,
          sorted[i].quantity,
                                    sorted[i].unit, sorted[i].rate, amount)];
      assert lines[..|lines| - 1] == before;
    }
    assert sorted[..|sorted|] == sorted;
    var invoice := Invoice("", division, period, policy.name, policy.revision, policy.currency, subtotal, unallocated,
                           subtotal.Plus(unallocated), lines, "", now);
    result := Generated(invoice.(inputsDigest := hash(DigestText(stamp, invoice))));
  }

  // ----- the digest -----

  /** All of a line but its number. */
  function LineBody(line: InvoiceItem): string {
    line.workloadLabel + ['|'] + line.resource + ['|'] + RatString(line.quantity) + ['|'] + line.unit
    + ['|'] + line.rate.String() + ['|'] + line.amount.String()
  }

  function LineText(line: InvoiceItem): string {
    "line=" + (Decimal(line.number) + ['|'] + LineBody(line))
  }

  function LineTexts(lines: seq<InvoiceItem>): (texts: seq<string>)
    ensures |texts| == |lines| && forall i :: 0 <= i < |lines| ==> texts[i] == LineText(lines[i])
  {
    seq(|lines|, i requires 0 <= i < |lines| => LineText(lines[i]))
  }

  function Header(stamp: Stamp, i: Invoice): seq<string> {
    ["division=" + i.division,
     "period=" + (stamp(i.period.start) + ['/'] + stamp(i.period.end)),
     "policy=" + (i.policyName + ['@'] + Decimal(i.policyRevision)),
     "currency=" + i.currency]
  }

  function Footer(i: Invoice): seq<string> {
    ["unallocated=" + i.unallocatedShare.String(), "total=" + i.total.String()]
  }

  function DigestLines(stamp: Stamp, i: Invoice): seq<string> {
    Header(stamp, i) + LineTexts(i.lines) + Footer(i)
  }

  /** Every line followed by a newline. */
  function Terminated(lines: seq<string>): string {
    if |lines| == 0 then "" else lines[0] + ['\n'] + Terminated(lines[1..])
  }

  function DigestText(stamp: Stamp, invoice: Invoice): string {
    Terminated(DigestLines(stamp, invoice))
  }

  predicate Reproduces(a: Invoice, b: Invoice) {
    a.inputsDigest != "" && b.inputsDigest != "" && a.inputsDigest == b.inputsDigest
  }

  // ----- charging -----

  datatype WorkloadRequest = WorkloadRequest(uid: string, namespace: string, name: string, cpuMillicores: int,
      memoryBytes: int)
  {
    function Label(): string {
      namespace + "/" + name
    }
  }

  function CPUCharge(w: WorkloadRequest, period: Period, policy: Policy): Chargeable {
    Chargeable(w.uid, w.Label(), CPU, Mul(Ratio(w.cpuMillicores, 1000), period.Hours()), CORE_HOUR,
               policy.cpuCore.Times(Ratio(1, HOURS_PER_MONTH)))
  }

  function MemoryCharge(w: WorkloadRequest, period: Period, policy: Policy): Chargeable {
    Chargeable(w.uid, w.Label(), MEMORY, Mul(Ratio(w.memoryBytes, GIBIBYTE), period.Hours()), GIBIBYTE_HOUR,
               policy.memoryGi.Times(Ratio(1, HOURS_PER_MONTH)))
  }

  function ChargesOf(w: WorkloadRequest, period: Period, policy: Policy): seq<Chargeable> {
    (if w.cpuMillicores > 0 then [CPUCharge(w, period, policy)] else [])
    + (if w.memoryBytes > 0 then [MemoryCharge(w, period, policy)] else [])
  }

  function ChargesForAll(requested: seq<WorkloadRequest>, period: Period, policy: Policy): seq<Chargeable> {
    if |requested| == 0 then []
    else ChargesForAll(requested[..|requested| - 1], period, policy) + ChargesOf(requested[|requested| - 1], period,
        policy)
  }

  method ChargesFor(requested: seq<WorkloadRequest>, period: Period, policy: Policy) returns (charges: seq<Chargeable>)
    ensures charges == ChargesForAll(requested, period, policy)
  {
    var hours := period.Hours();
    var hourlyCPU := policy.cpuCore.Times(Ratio(1, HOURS_PER_MONTH));
    var hourlyMemory := policy.memoryGi.Times(Ratio(1, HOURS_PER_MONTH));
    charges := [];
    for i := 0 to |requested|
      invariant charges == ChargesForAll(requested[..i], period, policy)
    {
      assert requested[..i + 1][..i] == requested[..i];
      var w := requested[i];
      var workloadLabel := w.namespace + "/" + w.name;
      if w.cpuMillicores > 0 {
        charges := charges + [Chargeable(w.uid, workloadLabel, CPU, Mul(Ratio(w.cpuMillicores, 1000), hours),
            CORE_HOUR, hourlyCPU)];
      }
      if w.memoryBytes > 0 {
        charges := charges
          + [Chargeable(w.uid, workloadLabel, MEMORY, Mul(Ratio(w.memoryBytes, GIBIBYTE), hours), GIBIBYTE_HOUR,
              hourlyMemory)];
      }
    }
    assert requested[..|requested|] == requested;
  }
}
