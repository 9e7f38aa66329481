/**
 What an invoice's digest vouches for, and what its amounts add up to.
 */
module InvoiceLaws {
  import opened Text
  import opened StableSort
  import opened Money
  import opened Invoices

  // ----- the digest text says exactly what is printed -----

  /** Instants print differently, and without the characters around them. */
  ghost predicate Faithful(stamp: Stamp) {
    && (forall t, u :: stamp(t) == stamp(u) ==> t == u)
    && (forall t :: '\n' !in stamp(t) && '/' !in stamp(t))
  }

  predicate LinePrintable(line: InvoiceItem) {
    && '\n' !in line.workloadLabel && '\n' !in line.resource && '|' !in line.resource
    && '\n' !in line.unit && '|' !in line.unit
  }

  /** Names hold no newline; a label may hold the field separator, the resource and unit may not. */
  predicate Printable(i: Invoice) {
    && '\n' !in i.division && '\n' !in i.policyName && '\n' !in i.currency
    && forall k :: 0 <= k < |i.lines| ==> LinePrintable(i.lines[k])
  }

  predicate SameLine(a: InvoiceItem, b: InvoiceItem) {
    && a.number == b.number && a.workloadLabel == b.workloadLabel && a.resource == b.resource
    && a.quantity == b.quantity
    && a.unit == b.unit && SamePrint(a.rate.amount, b.rate.amount) && SamePrint(a.amount.amount, b.amount.amount)
  }

  predicate SamePrinted(a: Invoice, b: Invoice) {
    && a.division == b.division && a.period == b.period && a.policyName == b.policyName
    && a.policyRevision == b.policyRevision && a.currency == b.currency
    && |a.lines| == |b.lines| && (forall k :: 0 <= k < |a.lines| ==> SameLine(a.lines[k], b.lines[k]))
    && SamePrint(a.unallocatedShare.amount, b.unallocatedShare.amount) && SamePrint(a.total.amount, b.total.amount)
  }

  lemma AmountsAreFree(line: InvoiceItem)
    ensures '|' !in line.rate.String() && '\n' !in line.rate.String()
    ensures '|' !in line.amount.String() && '\n' !in line.amount.String()
    ensures '|' !in RatString(line.quantity) && '\n' !in RatString(line.quantity)
    ensures '|' !in Decimal(line.number) && '\n' !in Decimal(line.number)
  {
  }

  lemma LineBodyIsExact(a: InvoiceItem, b: InvoiceItem)
    requires LinePrintable(a) && LinePrintable(b) && LineBody(a) == LineBody(b)
    ensures a.workloadLabel == b.workloadLabel && a.resource == b.resource && a.quantity == b.quantity
      && a.unit == b.unit
    ensures SamePrint(a.rate.amount, b.rate.amount) && SamePrint(a.amount.amount, b.amount.amount)
  {
    AmountsAreFree(a);
    AmountsAreFree(b);
    var a1, b1 := a.workloadLabel + ['|'] + a.resource, b.workloadLabel + ['|'] + b.resource;
    var a2, b2 := a1 + ['|'] + RatString(a.quantity), b1 + ['|'] + RatString(b.quantity);
    var a3, b3 := a2 + ['|'] + a.unit, b2 + ['|'] + b.unit;
    var a4, b4 := a3 + ['|'] + a.rate.String(), b3 + ['|'] + b.rate.String();
    CutLastIsInjective(a4, b4, '|', a.amount.String(), b.amount.String());
    CutLastIsInjective(a3, b3, '|', a.rate.String(), b.rate.String());
    CutLastIsInjective(a2, b2, '|', a.unit, b.unit);
    CutLastIsInjective(a1, b1, '|', RatString(a.quantity), RatString(b.quantity));
    CutLastIsInjective(a.workloadLabel, b.workloadLabel, '|', a.resource, b.resource);
    RatStringIsInjective(a.quantity, b.quantity);
    FloatStringTellsCentsApart(a.rate.amount, b.rate.amount);
    FloatStringTellsCentsApart(a.amount.amount, b.amount.amount);
  }

  lemma PrefixIsInjective(prefix: string, a: string, b: string)
    requires prefix + a == prefix + b
    ensures a == b
  {
    assert a == (prefix + a)[|prefix|..] && b == (prefix + b)[|prefix|..];
  }

  lemma LineTextIsExact(a: InvoiceItem, b: InvoiceItem)
    requires LinePrintable(a) && LinePrintable(b)
    ensures LineText(a) == LineText(b) <==> SameLine(a, b)
  {
    if LineText(a) == LineText(b) {
      AmountsAreFree(a);
      AmountsAreFree(b);
      PrefixIsInjective("line=", Decimal(a.number) + ['|'] + LineBody(a), Decimal(b.number) + ['|'] + LineBody(b));
      CutIsInjective(Decimal(a.number), Decimal(b.number), '|', LineBody(a), LineBody(b));
      DecimalIsInjective(a.number, b.number);
      LineBodyIsExact(a, b);
    }
    if SameLine(a, b) {
      FloatStringTellsCentsApart(a.rate.amount, b.rate.amount);
      FloatStringTellsCentsApart(a.amount.amount, b.amount.amount);
    }
  }

  lemma {:induction false} TerminatedIsInjective(a: seq<string>, b: seq<string>)
    requires Free(a, '\n') && Free(b, '\n') && Terminated(a) == Terminated(b)
    ensures a == b
  {
    if |a| > 0 && |b| > 0 {
      CutIsInjective(a[0], b[0], '\n', Terminated(a[1..]), Terminated(b[1..]));
      TerminatedIsInjective(a[1..], b[1..]);
      assert a == [a[0]] + a[1..] && b == [b[0]] + b[1..];
    }
  }

  lemma LineTextIsFree(line: InvoiceItem)
    requires LinePrintable(line)
    ensures '\n' !in LineText(line)
  {
    AmountsAreFree(line);
  }

  lemma HeaderIsFree(stamp: Stamp, i: Invoice)
    requires Faithful(stamp) && Printable(i)
    ensures Free(Header(stamp, i), '\n')
  {
    assert '\n' !in Decimal(i.policyRevision);
    assert '\n' !in stamp(i.period.start) + ['/'] + stamp(i.period.end);
    assert '\n' !in i.policyName + ['@'] + Decimal(i.policyRevision);
  }

  lemma FooterIsFree(i: Invoice)
    ensures Free(Footer(i), '\n')
  {
    assert '\n' !in i.unallocatedShare.String() && '\n' !in i.total.String();
  }

  lemma DigestLinesAreFree(stamp: Stamp, i: Invoice)
    requires Faithful(stamp) && Printable(i)
    ensures Free(DigestLines(stamp, i), '\n')
  {
    HeaderIsFree(stamp, i);
    FooterIsFree(i);
    forall k | 0 <= k < |i.lines| ensures '\n' !in LineTexts(i.lines)[k] {
      LineTextIsFree(i.lines[k]);
    }
  }

  lemma HeaderIsExact(stamp: Stamp, a: Invoice, b: Invoice)
    requires Faithful(stamp)
    ensures Header(stamp, a) == Header(stamp, b) <==>
      && a.division == b.division && a.period == b.period && a.policyName == b.policyName
      && a.policyRevision == b.policyRevision && a.currency == b.currency
  {
    var x, y := Header(stamp, a), Header(stamp, b);
    if x == y {
      assert x[0] == y[0] && x[1] == y[1] && x[2] == y[2] && x[3] == y[3];
      PrefixIsInjective("division=", a.division, b.division);
      PrefixIsInjective("period=", stamp(a.period.start) + ['/'] + stamp(a.period.end),
          stamp(b.period.start) + ['/'] + stamp(b.period.end));
      CutIsInjective(stamp(a.period.start), stamp(b.period.start), '/', stamp(a.period.end), stamp(b.period.end));
      PrefixIsInjective("policy=", a.policyName + ['@'] + Decimal(a.policyRevision),
          b.policyName + ['@'] + Decimal(b.policyRevision));
      CutLastIsInjective(a.policyName, b.policyName, '@', Decimal(a.policyRevision), Decimal(b.policyRevision));
      DecimalIsInjective(a.policyRevision, b.policyRevision);
      PrefixIsInjective("currency=", a.currency, b.currency);
    }
  }

  lemma FooterIsExact(a: Invoice, b: Invoice)
    ensures Footer(a) == Footer(b) <==>
      SamePrint(a.unallocatedShare.amount, b.unallocatedShare.amount) && SamePrint(a.total.amount, b.total.amount)
  {
    FloatStringTellsCentsApart(a.unallocatedShare.amount, b.unallocatedShare.amount);
    FloatStringTellsCentsApart(a.total.amount, b.total.amount);
    if Footer(a) == Footer(b) {
      assert Footer(a)[0] == Footer(b)[0] && Footer(a)[1] == Footer(b)[1];
      PrefixIsInjective("unallocated=", a.unallocatedShare.String(), b.unallocatedShare.String());
      PrefixIsInjective("total=", a.total.String(), b.total.String());
    }
  }

  lemma BodyIsExact(a: seq<InvoiceItem>, b: seq<InvoiceItem>)
    requires |a| == |b| && forall k :: 0 <= k < |a| ==> LinePrintable(a[k]) && LinePrintable(b[k])
    ensures LineTexts(a) == LineTexts(b) <==> forall k :: 0 <= k < |a| ==> SameLine(a[k], b[k])
  {
    forall k | 0 <= k < |a| ensures LineTexts(a)[k] == LineTexts(b)[k] <==> SameLine(a[k], b[k]) {
      LineTextIsExact(a[k], b[k]);
    }
  }

  lemma DigestLinesInParts(stamp: Stamp, a: Invoice, b: Invoice)
    ensures DigestLines(stamp, a) == DigestLines(stamp, b) <==>
      Header(stamp, a) == Header(stamp, b) && LineTexts(a.lines) == LineTexts(b.lines) && Footer(a) == Footer(b)
  {
    var x, y := DigestLines(stamp, a), DigestLines(stamp, b);
    assert Header(stamp, a) == x[..4] && LineTexts(a.lines) == x[4..|x| - 2] && Footer(a) == x[|x| - 2..];
    assert Header(stamp, b) == y[..4] && LineTexts(b.lines) == y[4..|y| - 2] && Footer(b) == y[|y| - 2..];
  }

  /** Two digest texts are equal if and only if the two invoices print the same, line by line and to two decimals. */
  lemma DigestTextIsExact(stamp: Stamp, a: Invoice, b: Invoice)
    requires Faithful(stamp) && Printable(a) && Printable(b)
    ensures DigestText(stamp, a) == DigestText(stamp, b) <==> SamePrinted(a, b)
  {
    DigestLinesInParts(stamp, a, b);
    HeaderIsExact(stamp, a, b);
    FooterIsExact(a, b);
    if |a.lines| == |b.lines| {
      BodyIsExact(a.lines, b.lines);
    }
    if DigestText(stamp, a) == DigestText(stamp, b) {
      DigestLinesAreFree(stamp, a);
      DigestLinesAreFree(stamp, b);
      TerminatedIsInjective(DigestLines(stamp, a), DigestLines(stamp, b));
    }
  }

  /** An invoice whose digest is the one of its own text. */
  predicate Sealed(hash: HashFunction, stamp: Stamp, i: Invoice) {
    i.inputsDigest == hash(DigestText(stamp, i))
  }

  /** An invoice reproduces another exactly when both print the same, unless two texts with one hash turned up. */
  lemma ReproducesMeansTheSamePrint(hash: HashFunction, stamp: Stamp, a: Invoice, b: Invoice)
    requires Faithful(stamp) && Printable(a) && Printable(b) && Sealed(hash, stamp, a) && Sealed(hash, stamp, b)
    requires forall text :: hash(text) != ""
    ensures Reproduces(a, b) <==>
      || SamePrinted(a, b)
      || (DigestText(stamp, a) != DigestText(stamp, b) && hash(DigestText(stamp, a)) == hash(DigestText(stamp, b)))
  {
    DigestTextIsExact(stamp, a, b);
  }

  // ----- what the lines add up to -----

  function Cost(charges: seq<Chargeable>): real {
    if |charges| == 0 then 0.0
    else Cost(charges[..|charges| - 1]) + Product(charges[|charges| - 1].rate.amount, charges[|charges| - 1].quantity)
  }

  lemma {:induction false} CostOfConcat(a: seq<Chargeable>, b: seq<Chargeable>)
    ensures Cost(a + b) == Cost(a) + Cost(b)
  {
    if |b| == 0 {
      assert a + b == a;
    } else {
      CostOfConcat(a, b[..|b| - 1]);
      assert (a + b)[..|a + b| - 1] == a + b[..|b| - 1];
    }
  }

  lemma {:induction false} InsertKeepsCost(s: seq<Chargeable>, x: Chargeable)
    ensures Cost(Insert(ByLabel, s, x)) == Cost(s) + Cost([x])
  {
    if |s| > 0 && ByLabel(x, s[|s| - 1]) {
      InsertKeepsCost(s[..|s| - 1], x);
      CostOfConcat(Insert(ByLabel, s[..|s| - 1], x), [s[|s| - 1]]);
      CostOfConcat(s[..|s| - 1], [s[|s| - 1]]);
      assert s == s[..|s| - 1] + [s[|s| - 1]];
    } else {
      CostOfConcat(s, [x]);
    }
  }

  lemma {:induction false} SortKeepsCost(s: seq<Chargeable>)
    ensures Cost(Sort(ByLabel, s)) == Cost(s)
  {
    if |s| > 0 {
      SortKeepsCost(s[..|s| - 1]);
      InsertKeepsCost(Sort(ByLabel, s[..|s| - 1]), s[|s| - 1]);
      CostOfSingle(s[|s| - 1]);
    }
  }

  lemma {:induction false} SumIsCost(currency: string, charges: seq<Chargeable>)
    ensures SumOf(currency, Items(charges)).amount == Cost(charges)
  {
    if |charges| > 0 {
      SumIsCost(currency, charges[..|charges| - 1]);
      assert Items(charges)[..|charges| - 1] == Items(charges[..|charges| - 1]);
    }
  }

  function CPUs(requested: seq<WorkloadRequest>): real {
    if |requested| == 0 then 0.0
    else CPUs(requested[..|requested| - 1]) + Positive(requested[|requested| - 1].cpuMillicores)
  }

  function Memories(requested: seq<WorkloadRequest>): real {
    if |requested| == 0 then 0.0
    else Memories(requested[..|requested| - 1]) + Positive(requested[|requested| - 1].memoryBytes)
  }

  function Positive(amount: int): real {
    if amount > 0 then amount as real else 0.0
  }

  /** The charge for `amount` units, `per` of them to the priced unit, over `hours`, at a monthly rate. */
  function Priced(rate: real, hours: real, amount: real, per: real): real
    requires per != 0.0
  {
    rate / 730.0 * (amount / per * hours)
  }

  lemma PricedIsLinear(rate: real, hours: real, x: real, y: real, per: real)
    requires per != 0.0
    ensures Priced(rate, hours, x + y, per) == Priced(rate, hours, x, per) + Priced(rate, hours, y, per)
    ensures Priced(rate, hours, 0.0, per) == 0.0
  {
    var r := rate / 730.0;
    assert (x + y) / per == x / per + y / per;
    assert (x / per + y / per) * hours == x / per * hours + y / per * hours;
    assert r * (x / per * hours + y / per * hours) == r * (x / per * hours) + r * (y / per * hours);
    assert 0.0 / per == 0.0;
  }

  lemma Quotient(q: real, n: real, d: real)
    requires d != 0.0 && q * d == n
    ensures q == n / d
  {
  }

  lemma RatioIsQuotient(n: int, d: nat)
    requires d != 0
    ensures Ratio(n, d) == n as real / d as real
  {
    Quotient(Ratio(n, d), n as real, d as real);
  }

  lemma ChargeIsPriced(rate: Money, amount: int, per: nat, period: Period)
    requires per != 0
    ensures Product(rate.Times(Ratio(1, HOURS_PER_MONTH)).amount, Mul(Ratio(amount, per), period.Hours()))
         == Priced(rate.amount, period.Hours(), amount as real, per as real)
  {
    RatioIsQuotient(1, HOURS_PER_MONTH);
    RatioIsQuotient(amount, per);
    assert rate.amount * (1.0 / 730.0) == rate.amount / 730.0;
  }

  /** Millicores and bytes over `hours` at the policy's monthly rates. */
  function Tariff(policy: Policy, hours: real, millicores: real, bytes: real): real {
    Priced(policy.cpuCore.amount, hours, millicores, 1000.0) + Priced(policy.memoryGi.amount, hours, bytes,
        1073741824.0)
  }

  lemma TariffIsLinear(policy: Policy, hours: real, a: real, b: real, c: real, d: real)
    ensures Tariff(policy, hours, a + c, b + d) == Tariff(policy, hours, a, b) + Tariff(policy, hours, c, d)
    ensures Tariff(policy, hours, 0.0, 0.0) == 0.0
  {
    PricedIsLinear(policy.cpuCore.amount, hours, a, c, 1000.0);
    PricedIsLinear(policy.memoryGi.amount, hours, b, d, 1073741824.0);
  }

  lemma CostOfOne(w: WorkloadRequest, period: Period, policy: Policy)
    ensures Cost(ChargesOf(w, period, policy))
         == Tariff(policy, period.Hours(), Positive(w.cpuMillicores), Positive(w.memoryBytes))
  {
    var cpu := if w.cpuMillicores > 0 then [CPUCharge(w, period, policy)] else [];
    var memory := if w.memoryBytes > 0 then [MemoryCharge(w, period, policy)] else [];
    CostOfConcat(cpu, memory);
    ChargeIsPriced(policy.cpuCore, w.cpuMillicores, 1000, period);
    ChargeIsPriced(policy.memoryGi, w.memoryBytes, GIBIBYTE, period);
    PricedIsLinear(policy.cpuCore.amount, period.Hours(), 0.0, 0.0, 1000.0);
    PricedIsLinear(policy.memoryGi.amount, period.Hours(), 0.0, 0.0, 1073741824.0);
    CostOfSingle(CPUCharge(w, period, policy));
    CostOfSingle(MemoryCharge(w, period, policy));
  }

  lemma CostOfSingle(charge: Chargeable)
    ensures Cost([charge]) == Product(charge.rate.amount, charge.quantity)
  {
    assert [charge][..0] == [];
  }

  lemma {:induction false} CostOfAll(requested: seq<WorkloadRequest>, period: Period, policy: Policy)
    ensures Cost(ChargesForAll(requested, period, policy))
      == Tariff(policy, period.Hours(), CPUs(requested), Memories(requested))
  {
    if |requested| == 0 {
      TariffIsLinear(policy, period.Hours(), 0.0, 0.0, 0.0, 0.0);
    } else {
      var rest, w := requested[..|requested| - 1], requested[|requested| - 1];
      CostOfAll(rest, period, policy);
      CostOfOne(w, period, policy);
      CostOfConcat(ChargesForAll(rest, period, policy), ChargesOf(w, period, policy));
      TariffIsLinear(policy, period.Hours(), CPUs(rest), Memories(rest), Positive(w.cpuMillicores),
          Positive(w.memoryBytes));
    }
  }

  /**
   The subtotal is the cores and gibibytes requested, each over the period's hours at its monthly rate by the hour,
   exactly; the total adds the unallocated share, exactly.
   */
  lemma SubtotalIsTheRatesTimesTheTotals(hash: HashFunction, stamp: Stamp, division: string, period: Period,
      policy: Policy, requested: seq<WorkloadRequest>, unallocated: Money, now: int)
    ensures var i := InvoiceFor(hash, stamp, division, period, policy, ChargesForAll(requested, period, policy),
      unallocated, now);
      && i.subtotal.amount == Tariff(policy, period.Hours(), CPUs(requested), Memories(requested))
      && i.total.amount == i.subtotal.amount + unallocated.amount
  {
    var charges := ChargesForAll(requested, period, policy);
    SumIsCost(policy.currency, Sort(ByLabel, charges));
    SortKeepsCost(charges);
    CostOfAll(requested, period, policy);
  }

  lemma {:induction false} ItemsInOrder(charges: seq<Chargeable>, k: nat)
    requires k < |charges|
    ensures Items(charges)[k] == ItemFor(charges[k], k + 1)
  {
    if k < |charges| - 1 {
      ItemsInOrder(charges[..|charges| - 1], k);
    }
  }

  /** The lines are the charges, each once, numbered from one, by label and then by resource. */
  lemma LinesAreTheChargesInOrder(hash: HashFunction, stamp: Stamp, division: string, period: Period, policy: Policy,
                                  charges: seq<Chargeable>, unallocated: Money, now: int)
                                      returns (sorted: seq<Chargeable>)
    ensures multiset(sorted) == multiset(charges) && Ordered(ByLabel, sorted)
    ensures var lines := InvoiceFor(hash, stamp, division, period, policy, charges, unallocated, now).lines;
      && |lines| == |sorted| && forall k :: 0 <= k < |lines| ==> lines[k] == ItemFor(sorted[k], k + 1)
    ensures forall j, k :: 0 <= j < k < |sorted| ==> NoLaterLabel(sorted[j], sorted[k])
  {
    sorted := Sort(ByLabel, charges);
    ByLabelIsStrictWeak();
    SortOrders(ByLabel, charges);
    forall k | 0 <= k < |sorted| ensures Items(sorted)[k] == ItemFor(sorted[k], k + 1) {
      ItemsInOrder(sorted, k);
    }
    forall j, k | 0 <= j < k < |sorted| ensures NoLaterLabel(sorted[j], sorted[k]) {
      assert !ByLabel(sorted[k], sorted[j]);
      LessIsTotal(sorted[j].workloadLabel, sorted[k].workloadLabel);
      LessIsTotal(sorted[j].resource, sorted[k].resource);
    }
  }

  /** By label, and under one label by resource. */
  predicate NoLaterLabel(a: Chargeable, b: Chargeable) {
    || Less(a.workloadLabel, b.workloadLabel)
    || (a.workloadLabel == b.workloadLabel && (a.resource == b.resource || Less(a.resource, b.resource)))
  }

  // ----- what is stored to two decimals -----

  function StoredSum(items: seq<InvoiceItem>): real {
    if |items| == 0 then 0.0 else StoredSum(items[..|items| - 1]) + Rounded(items[|items| - 1].amount.amount)
  }

  lemma {:induction false} EachLineIsHalfACentOff(currency: string, items: seq<InvoiceItem>)
    ensures Magnitude(StoredSum(items) - SumOf(currency, items).amount) <= |items| as real * 0.005
  {
    if |items| > 0 {
      EachLineIsHalfACentOff(currency, items[..|items| - 1]);
    }
  }

  /** The stored lines and the stored subtotal differ by at most half a cent a line and half a cent more. */
  lemma StoredLinesAreNearTheStoredSubtotal(currency: string, items: seq<InvoiceItem>)
    ensures Magnitude(StoredSum(items) - Rounded(SumOf(currency, items).amount)) <= (|items| + 1) as real / 200.0
  {
    EachLineIsHalfACentOff(currency, items);
  }

  // ----- the order of the lines -----

  lemma ByLabelIsStrictWeak()
    ensures StrictWeak(ByLabel)
  {
    forall x: Chargeable ensures !ByLabel(x, x) {
      LessIsIrreflexive(x.resource);
    }
    forall x: Chargeable, y: Chargeable, z: Chargeable | ByLabel(x, y) && ByLabel(y, z) ensures ByLabel(x, z) {
      ChargedBeforeIsTransitive(x, y, z);
    }
    forall x: Chargeable, y: Chargeable, z: Chargeable | !ByLabel(x, y) && !ByLabel(y, z) ensures !ByLabel(x, z) {
      NotChargedBeforeIsTransitive(x, y, z);
    }
  }

  lemma ChargedBeforeIsTransitive(x: Chargeable, y: Chargeable, z: Chargeable)
    requires ChargedBefore(x, y) && ChargedBefore(y, z)
    ensures ChargedBefore(x, z)
  {
    if x.workloadLabel == y.workloadLabel && y.workloadLabel == z.workloadLabel {
      LessIsTransitive(x.resource, y.resource, z.resource);
    } else if x.workloadLabel != y.workloadLabel && y.workloadLabel != z.workloadLabel {
      LessIsTransitive(x.workloadLabel, y.workloadLabel, z.workloadLabel);
      LessIsAsymmetric(x.workloadLabel, y.workloadLabel);
    }
  }

  lemma ChargedBeforeIsTotal(x: Chargeable, y: Chargeable)
    ensures ChargedBefore(x, y) || ChargedBefore(y, x)
      || (x.workloadLabel == y.workloadLabel && x.resource == y.resource)
    ensures !(ChargedBefore(x, y) && ChargedBefore(y, x))
  {
    LessIsTotal(x.workloadLabel, y.workloadLabel);
    LessIsTotal(x.resource, y.resource);
    LessIsAsymmetric(x.workloadLabel, y.workloadLabel);
    LessIsAsymmetric(x.resource, y.resource);
  }

  lemma NotChargedBeforeIsTransitive(x: Chargeable, y: Chargeable, z: Chargeable)
    requires !ChargedBefore(x, y) && !ChargedBefore(y, z)
    ensures !ChargedBefore(x, z)
  {
    ChargedBeforeIsTotal(x, y);
    ChargedBeforeIsTotal(y, z);
    ChargedBeforeIsTotal(x, z);
    if ChargedBefore(y, x) && ChargedBefore(z, y) {
      ChargedBeforeIsTransitive(z, y, x);
    }
  }
}
