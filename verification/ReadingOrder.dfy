/**
 What the order in which workloads are read does to an invoice. The query orders them by namespace and name only, and
 two workloads of different kinds may share both: then their charges tie.
 */
module ReadingOrder {
  import opened Text
  import opened StableSort
  import opened Money
  import opened Invoices
  import opened InvoiceLaws

  // ----- without ties it does nothing -----

  predicate DistinctLabels(requested: seq<WorkloadRequest>) {
    forall i, j :: 0 <= i < j < |requested| ==> requested[i].Label() != requested[j].Label()
  }

  lemma {:induction false} EveryChargeHasAWorkload(requested: seq<WorkloadRequest>, period: Period, policy: Policy,
      k: nat) returns (i: nat)
    requires k < |ChargesForAll(requested, period, policy)|
    ensures i < |requested|
    ensures var charge := ChargesForAll(requested, period, policy)[k];
      charge == CPUCharge(requested[i], period, policy) || charge == MemoryCharge(requested[i], period, policy)
  {
    var last := |requested| - 1;
    var front := ChargesForAll(requested[..last], period, policy);
    if k < |front| {
      i := EveryChargeHasAWorkload(requested[..last], period, policy, k);
    } else {
      i := last;
      assert ChargesForAll(requested, period, policy)[k] == ChargesOf(requested[last], period, policy)[k - |front|];
    }
  }

  lemma ChargesDoNotTie(requested: seq<WorkloadRequest>, period: Period, policy: Policy)
    requires DistinctLabels(requested)
    ensures NoTies(ByLabel, ChargesForAll(requested, period, policy))
  {
    var charges := ChargesForAll(requested, period, policy);
    forall a, b | 0 <= a < |charges| && 0 <= b < |charges| && charges[a] != charges[b]
      ensures ByLabel(charges[a], charges[b]) || ByLabel(charges[b], charges[a])
    {
      var i := EveryChargeHasAWorkload(requested, period, policy, a);
      var j := EveryChargeHasAWorkload(requested, period, policy, b);
      ChargedBeforeIsTotal(charges[a], charges[b]);
    }
  }

  function Collect<A, B>(f: A -> seq<B>, s: seq<A>): seq<B> {
    if |s| == 0 then [] else Collect(f, s[..|s| - 1]) + f(s[|s| - 1])
  }

  lemma {:induction false} CollectWithoutOne<A, B>(f: A -> seq<B>, s: seq<A>, k: nat)
    requires k < |s|
    ensures multiset(Collect(f, s)) == multiset(Collect(f, Dropped(s, k))) + multiset(f(s[k]))
  {
    var last := |s| - 1;
    if k == last {
      assert Dropped(s, k) == s[..last];
    } else {
      CollectWithoutOne(f, s[..last], k);
      assert Dropped(s, k)[..last - 1] == Dropped(s[..last], k);
      assert Dropped(s, k)[last - 1] == s[last];
    }
  }

  lemma {:induction false} PermutedCollectIsTheSame<A, B>(f: A -> seq<B>, a: seq<A>, b: seq<A>)
    requires multiset(a) == multiset(b)
    ensures multiset(Collect(f, a)) == multiset(Collect(f, b))
    decreases |a|
  {
    assert |a| == |multiset(a)| && |b| == |multiset(b)|;
    if |a| > 0 {
      var k := |a| - 1;
      var j := SameElements(a, b, k);
      DroppedOne(a, k);
      DroppedOne(b, j);
      PermutedCollectIsTheSame(f, Dropped(a, k), Dropped(b, j));
      CollectWithoutOne(f, a, k);
      CollectWithoutOne(f, b, j);
    }
  }

  lemma {:induction false} ChargesAreCollected(requested: seq<WorkloadRequest>, period: Period, policy: Policy)
    ensures ChargesForAll(requested, period, policy) == Collect(w => ChargesOf(w, period, policy), requested)
  {
    if |requested| > 0 {
      ChargesAreCollected(requested[..|requested| - 1], period, policy);
    }
  }

  lemma PermutedChargesAreTheSame(a: seq<WorkloadRequest>, b: seq<WorkloadRequest>, period: Period, policy: Policy)
    requires multiset(a) == multiset(b)
    ensures multiset(ChargesForAll(a, period, policy)) == multiset(ChargesForAll(b, period, policy))
  {
    ChargesAreCollected(a, period, policy);
    ChargesAreCollected(b, period, policy);
    PermutedCollectIsTheSame(w => ChargesOf(w, period, policy), a, b);
  }

  /**
   Read in another order, workloads whose charges do not tie give the same invoice, to the last digit of the digest.
   */
  lemma ReadingOrderDoesNotMatter(hash: HashFunction, stamp: Stamp, division: string, period: Period, policy: Policy,
                                  a: seq<WorkloadRequest>, b: seq<WorkloadRequest>, unallocated: Money, now: int)
    requires multiset(a) == multiset(b) && NoTies(ByLabel, ChargesForAll(a, period, policy))
    ensures InvoiceFor(hash, stamp, division, period, policy, ChargesForAll(a, period, policy), unallocated, now)
         == InvoiceFor(hash, stamp, division, period, policy, ChargesForAll(b, period, policy), unallocated, now)
  {
    ByLabelIsStrictWeak();
    PermutedChargesAreTheSame(a, b, period, policy);
    SortForgetsOrder(ByLabel, ChargesForAll(a, period, policy), ChargesForAll(b, period, policy));
  }

  // ----- with ties it decides the order of their lines -----

  /** All that is printed of a charge agrees. */
  predicate PrintAlike(x: Chargeable, y: Chargeable) {
    SameLine(ItemFor(x, 1), ItemFor(y, 1))
  }

  const Alike: (Chargeable, Chargeable) -> bool := (x, y) => PrintAlike(x, y)

  predicate ChargePrintable(x: Chargeable) {
    '\n' !in x.workloadLabel && '\n' !in x.resource && '|' !in x.resource && '\n' !in x.unit && '|' !in x.unit
  }

  ghost predicate Additive<T(!new)>(f: seq<T> -> real) {
    forall a, b :: f(a + b) == f(a) + f(b)
  }

  lemma SumWithoutOne<T(!new)>(f: seq<T> -> real, s: seq<T>, k: nat)
    requires Additive(f) && k < |s|
    ensures f(s) == f(Dropped(s, k)) + f([s[k]])
  {
    var front, one, back := s[..k], [s[k]], s[k + 1..];
    assert s == (front + one) + back && Dropped(s, k) == front + back;
  }

  lemma {:induction false} PermutedSumIsTheSame<T(!new)>(f: seq<T> -> real, a: seq<T>, b: seq<T>)
    requires Additive(f) && multiset(a) == multiset(b)
    ensures f(a) == f(b)
    decreases |a|
  {
    assert |a| == |multiset(a)| && |b| == |multiset(b)|;
    if |a| > 0 {
      var k := |a| - 1;
      var j := SameElements(a, b, k);
      DroppedOne(a, k);
      DroppedOne(b, j);
      PermutedSumIsTheSame(f, Dropped(a, k), Dropped(b, j));
      SumWithoutOne(f, a, k);
      SumWithoutOne(f, b, j);
    } else {
      assert a == b;
    }
  }

  lemma PermutedCostIsTheSame(a: seq<Chargeable>, b: seq<Chargeable>)
    requires multiset(a) == multiset(b)
    ensures Cost(a) == Cost(b)
  {
    var f: seq<Chargeable> -> real := s => Cost(s);
    forall x: seq<Chargeable>, y: seq<Chargeable> ensures f(x + y) == f(x) + f(y) {
      CostOfConcat(x, y);
    }
    PermutedSumIsTheSame(f, a, b);
  }

  lemma TotalsAgree(hash: HashFunction, stamp: Stamp, division: string, period: Period, policy: Policy,
                    a: seq<Chargeable>, b: seq<Chargeable>, unallocated: Money, now: int)
    requires multiset(a) == multiset(b)
    ensures InvoiceFor(hash, stamp, division, period, policy, a, unallocated, now).total.amount
         == InvoiceFor(hash, stamp, division, period, policy, b, unallocated, now).total.amount
  {
    SumIsCost(policy.currency, Sort(ByLabel, a));
    SumIsCost(policy.currency, Sort(ByLabel, b));
    PermutedCostIsTheSame(Sort(ByLabel, a), Sort(ByLabel, b));
  }

  /** The lines print the same, place by place. */
  predicate LinesMatch(a: seq<InvoiceItem>, b: seq<InvoiceItem>) {
    |a| == |b| && forall k :: 0 <= k < |a| ==> SameLine(a[k], b[k])
  }

  lemma NumbersDoNotMatter(x: Chargeable, y: Chargeable, number: int)
    ensures SameLine(ItemFor(x, number), ItemFor(y, number)) <==> PrintAlike(x, y)
  {
  }

  lemma ItemAgreesIff(s: seq<Chargeable>, t: seq<Chargeable>, k: nat)
    requires k < |s| == |t|
    ensures SameLine(Items(s)[k], Items(t)[k]) <==> Alike(s[k], t[k])
  {
    ItemsInOrder(s, k);
    ItemsInOrder(t, k);
    NumbersDoNotMatter(s[k], t[k], k + 1);
  }

  lemma ItemsAgreeIff(s: seq<Chargeable>, t: seq<Chargeable>)
    requires |s| == |t|
    ensures LinesMatch(Items(s), Items(t)) <==> OneByOne(Alike, s, t)
  {
    forall k | 0 <= k < |s| ensures SameLine(Items(s)[k], Items(t)[k]) <==> Alike(s[k], t[k]) {
      ItemAgreesIff(s, t, k);
    }
  }

  lemma LinesAreItems(hash: HashFunction, stamp: Stamp, division: string, period: Period, policy: Policy,
                      charges: seq<Chargeable>, unallocated: Money, now: int)
    ensures InvoiceFor(hash, stamp, division, period, policy, charges, unallocated, now).lines
         == Items(Sort(ByLabel, charges))
  {
  }

  lemma LinesMatchIff(hash: HashFunction, stamp: Stamp, division: string, period: Period, policy: Policy,
                      a: seq<Chargeable>, b: seq<Chargeable>, unallocated: Money, now: int)
    requires |a| == |b|
    ensures LinesMatch(InvoiceFor(hash, stamp, division, period, policy, a, unallocated, now).lines,
                       InvoiceFor(hash, stamp, division, period, policy, b, unallocated, now).lines)
        <==> OneByOne(Alike, Sort(ByLabel, a), Sort(ByLabel, b))
  {
    LinesAreItems(hash, stamp, division, period, policy, a, unallocated, now);
    LinesAreItems(hash, stamp, division, period, policy, b, unallocated, now);
    ItemsAgreeIff(Sort(ByLabel, a), Sort(ByLabel, b));
  }

  lemma MatchingLinesPrintTheSame(a: seq<InvoiceItem>, b: seq<InvoiceItem>)
    requires LinesMatch(a, b)
    ensures LineTexts(a) == LineTexts(b)
  {
    forall k | 0 <= k < |a| ensures LineTexts(a)[k] == LineTexts(b)[k] {
      FloatStringTellsCentsApart(a[k].rate.amount, b[k].rate.amount);
      FloatStringTellsCentsApart(a[k].amount.amount, b[k].amount.amount);
    }
  }

  /** The names on the invoice hold no newline. */
  predicate NamesPrintable(division: string, policy: Policy, charges: seq<Chargeable>) {
    && '\n' !in division && '\n' !in policy.name && '\n' !in policy.currency
    && forall k :: 0 <= k < |charges| ==> ChargePrintable(charges[k])
  }

  lemma InvoiceIsPrintable(hash: HashFunction, stamp: Stamp, division: string, period: Period, policy: Policy,
                           charges: seq<Chargeable>, unallocated: Money, now: int)
    requires NamesPrintable(division, policy, charges)
    ensures Printable(InvoiceFor(hash, stamp, division, period, policy, charges, unallocated, now))
  {
    var s := Sort(ByLabel, charges);
    forall k | 0 <= k < |s| ensures LinePrintable(Items(s)[k]) {
      ItemsInOrder(s, k);
      var _ := SameElements(s, charges, k);
    }
  }

  lemma PermutedNamesArePrintable(division: string, policy: Policy, a: seq<Chargeable>, b: seq<Chargeable>)
    requires multiset(a) == multiset(b) && NamesPrintable(division, policy, a)
    ensures NamesPrintable(division, policy, b)
  {
    forall k | 0 <= k < |b| ensures ChargePrintable(b[k]) {
      var _ := SameElements(b, a, k);
    }
  }

  ghost predicate SameDigestText(stamp: Stamp, a: Invoice, b: Invoice) {
    DigestText(stamp, a) == DigestText(stamp, b)
  }

  lemma AgreeingInvoicesPrintTheSame(stamp: Stamp, a: Invoice, b: Invoice)
    requires Header(stamp, a) == Header(stamp, b) && Footer(a) == Footer(b) && LinesMatch(a.lines, b.lines)
    ensures SameDigestText(stamp, a, b)
  {
    MatchingLinesPrintTheSame(a.lines, b.lines);
    DigestLinesInParts(stamp, a, b);
  }

  /** Everything printed but the lines. */
  predicate SameAround(i: Invoice, j: Invoice) {
    && i.division == j.division && i.period == j.period && i.policyName == j.policyName
    && i.policyRevision == j.policyRevision && i.currency == j.currency
    && i.unallocatedShare == j.unallocatedShare && i.total.amount == j.total.amount
  }

  lemma OnlyLinesDiffer(i: Invoice, j: Invoice)
    requires SameAround(i, j)
    ensures SamePrinted(i, j) <==> LinesMatch(i.lines, j.lines)
  {
  }

  lemma OnlyTheLinesMatter(hash: HashFunction, stamp: Stamp, division: string, period: Period, policy: Policy,
                           a: seq<Chargeable>, b: seq<Chargeable>, unallocated: Money, now: int)
    requires multiset(a) == multiset(b)
    ensures var i := InvoiceFor(hash, stamp, division, period, policy, a, unallocated, now);
            var j := InvoiceFor(hash, stamp, division, period, policy, b, unallocated, now);
            SamePrinted(i, j) <==> LinesMatch(i.lines, j.lines)
  {
    TotalsAgree(hash, stamp, division, period, policy, a, b, unallocated, now);
    OnlyLinesDiffer(InvoiceFor(hash, stamp, division, period, policy, a, unallocated, now),
                    InvoiceFor(hash, stamp, division, period, policy, b, unallocated, now));
  }

  /**
   The order of the charges leaves the lines as they were if and only if the ties came in an order that prints the
   same.
   */
  lemma LinesMatchIffTiesAlike(hash: HashFunction, stamp: Stamp, division: string, period: Period, policy: Policy,
                               a: seq<Chargeable>, b: seq<Chargeable>, unallocated: Money, now: int)
    requires multiset(a) == multiset(b)
    ensures LinesMatch(InvoiceFor(hash, stamp, division, period, policy, a, unallocated, now).lines,
                       InvoiceFor(hash, stamp, division, period, policy, b, unallocated, now).lines)
        <==> forall y :: TiesAlike(ByLabel, Alike, a, b, y)
  {
    assert |a| == |multiset(a)| && |b| == |multiset(b)|;
    ByLabelIsStrictWeak();
    SortedAlikeIff(ByLabel, Alike, a, b);
    LinesMatchIff(hash, stamp, division, period, policy, a, b, unallocated, now);
  }

  /**
   The same charges in another order: the digest text stays the same if and only if the charges of each label and
   resource came in an order that prints the same.
   */
  lemma DigestStaysIffTiesPrintAlike(hash: HashFunction, stamp: Stamp, division: string, period: Period, policy: Policy,
                                     a: seq<Chargeable>, b: seq<Chargeable>, unallocated: Money, now: int)
    requires multiset(a) == multiset(b) && Faithful(stamp) && NamesPrintable(division, policy, a)
    ensures SameDigestText(stamp, InvoiceFor(hash, stamp, division, period, policy, a, unallocated, now),
                           InvoiceFor(hash, stamp, division, period, policy, b, unallocated, now))
        <==> forall y :: TiesAlike(ByLabel, Alike, a, b, y)
  {
    var i := InvoiceFor(hash, stamp, division, period, policy, a, unallocated, now);
    var j := InvoiceFor(hash, stamp, division, period, policy, b, unallocated, now);
    PermutedNamesArePrintable(division, policy, a, b);
    InvoiceIsPrintable(hash, stamp, division, period, policy, a, unallocated, now);
    InvoiceIsPrintable(hash, stamp, division, period, policy, b, unallocated, now);
    DigestTextIsExact(stamp, i, j);
    OnlyTheLinesMatter(hash, stamp, division, period, policy, a, b, unallocated, now);
    LinesMatchIffTiesAlike(hash, stamp, division, period, policy, a, b, unallocated, now);
  }

  // ----- in terms of the workloads -----

  /** What the workloads of one label request of one resource, in reading order, as far as it is charged. */
  function Requests(amount: WorkloadRequest -> int, requested: seq<WorkloadRequest>, name: string): seq<int> {
    if |requested| == 0 then []
    else
      var w := requested[|requested| - 1];
      Requests(amount, requested[..|requested| - 1], name)
      + if w.Label() == name && amount(w) > 0 then [amount(w)] else []
  }

  const OfCPU: WorkloadRequest -> int := (w: WorkloadRequest) => w.cpuMillicores
  const OfMemory: WorkloadRequest -> int := (w: WorkloadRequest) => w.memoryBytes

  /** Workloads that share a label request the same amounts in the same order, those that request nothing left out. */
  ghost predicate ReadAlike(a: seq<WorkloadRequest>, b: seq<WorkloadRequest>) {
    forall name: string :: Requests(OfCPU, a, name) == Requests(OfCPU, b, name)
                           && Requests(OfMemory, a, name) == Requests(OfMemory, b, name)
  }

  function ChargeFor(resource: string, name: string, amount: int, period: Period, policy: Policy): Chargeable {
    if resource == CPU then
      Chargeable("", name, CPU, Mul(Ratio(amount, 1000), period.Hours()), CORE_HOUR,
                 policy.cpuCore.Times(Ratio(1, HOURS_PER_MONTH)))
    else
      Chargeable("", name, MEMORY, Mul(Ratio(amount, GIBIBYTE), period.Hours()), GIBIBYTE_HOUR,
                 policy.memoryGi.Times(Ratio(1, HOURS_PER_MONTH)))
  }

  function AmountOf(resource: string): WorkloadRequest -> int {
    if resource == CPU then OfCPU else OfMemory
  }

  /** The charges are the amounts, each charged to one label for one resource. */
  ghost predicate AreCharges(charges: seq<Chargeable>, resource: string, name: string, amounts: seq<int>,
      period: Period, policy: Policy)
  {
    && |charges| == |amounts|
    && forall k :: 0 <= k < |charges| ==>
         charges[k].(workloadUid := "") == ChargeFor(resource, name, amounts[k], period, policy)
  }

  lemma TiesHaveTheSameKey(x: Chargeable, y: Chargeable)
    ensures TiesWith(ByLabel, y)(x) <==> x.workloadLabel == y.workloadLabel && x.resource == y.resource
  {
    ChargedBeforeIsTotal(x, y);
  }

  lemma FilterOfOne(keep: Chargeable -> bool, x: Chargeable)
    ensures Filter(keep, [x]) == if keep(x) then [x] else []
  {
    assert [x] == [] + [x] && Filter(keep, []) == [];
    FilterOfAppend(keep, [], x);
  }

  /** What one workload adds to the ties with `y`: its charge for that resource, if it has that label and one is due. */
  lemma TiesOfOne(w: WorkloadRequest, y: Chargeable, period: Period, policy: Policy)
    requires y.resource == CPU || y.resource == MEMORY
    ensures Filter(TiesWith(ByLabel, y), ChargesOf(w, period, policy)) ==
      if w.Label() != y.workloadLabel || AmountOf(y.resource)(w) <= 0 then []
      else if y.resource == CPU then [CPUCharge(w, period, policy)] else [MemoryCharge(w, period, policy)]
  {
    var keep := TiesWith(ByLabel, y);
    var cpu, memory := CPUCharge(w, period, policy), MemoryCharge(w, period, policy);
    TiesHaveTheSameKey(cpu, y);
    TiesHaveTheSameKey(memory, y);
    var first := if w.cpuMillicores > 0 then [cpu] else [];
    var second := if w.memoryBytes > 0 then [memory] else [];
    FilterConcat(keep, first, second);
    FilterOfOne(keep, cpu);
    FilterOfOne(keep, memory);
  }

  lemma OneMoreCharge(charges: seq<Chargeable>, x: Chargeable, resource: string, name: string, amounts: seq<int>,
      amount: int, period: Period, policy: Policy)
    requires AreCharges(charges, resource, name, amounts, period, policy)
    requires x.(workloadUid := "") == ChargeFor(resource, name, amount, period, policy)
    ensures AreCharges(charges + [x], resource, name, amounts + [amount], period, policy)
  {
  }

  lemma {:induction false} TiesAreTheRequests(requested: seq<WorkloadRequest>, y: Chargeable, period: Period,
      policy: Policy)
    requires y.resource == CPU || y.resource == MEMORY
    ensures AreCharges(Filter(TiesWith(ByLabel, y), ChargesForAll(requested, period, policy)), y.resource,
                       y.workloadLabel, Requests(AmountOf(y.resource), requested, y.workloadLabel), period, policy)
  {
    if |requested| > 0 {
      var rest, w := requested[..|requested| - 1], requested[|requested| - 1];
      var keep, amount := TiesWith(ByLabel, y), AmountOf(y.resource);
      TiesAreTheRequests(rest, y, period, policy);
      TiesOfOne(w, y, period, policy);
      FilterConcat(keep, ChargesForAll(rest, period, policy), ChargesOf(w, period, policy));
      if w.Label() == y.workloadLabel && amount(w) > 0 {
        OneMoreCharge(Filter(keep, ChargesForAll(rest, period, policy)),
                      if y.resource == CPU then CPUCharge(w, period, policy) else MemoryCharge(w, period, policy),
                      y.resource, y.workloadLabel, Requests(amount, rest, y.workloadLabel), amount(w), period, policy);
      } else {
        assert Requests(amount, requested, y.workloadLabel) == Requests(amount, rest, y.workloadLabel);
      }
    }
  }

  lemma QuantitiesTellAmountsApart(per: nat, m: int, n: int, period: Period)
    requires per != 0
    ensures Mul(Ratio(m, per), period.Hours()) == Mul(Ratio(n, per), period.Hours())
        <==> period.start == period.end || m == n
  {
    RatioIsQuotient(m, per);
    RatioIsQuotient(n, per);
    RatioIsQuotient(period.end - period.start, 3600);
  }

  lemma ChargesPrintAlikeIff(resource: string, name: string, m: int, n: int, period: Period, policy: Policy)
    ensures PrintAlike(ChargeFor(resource, name, m, period, policy), ChargeFor(resource, name, n, period, policy))
        <==> period.start == period.end || m == n
  {
    QuantitiesTellAmountsApart(if resource == CPU then 1000 else GIBIBYTE, m, n, period);
  }

  lemma AlikeIffSameAmounts(x: seq<Chargeable>, y: seq<Chargeable>, resource: string, name: string, m: seq<int>,
      n: seq<int>, period: Period, policy: Policy)
    requires AreCharges(x, resource, name, m, period, policy) && AreCharges(y, resource, name, n, period, policy)
    requires |m| == |n|
    ensures OneByOne(Alike, x, y) <==> period.start == period.end || m == n
  {
    forall k | 0 <= k < |x| ensures Alike(x[k], y[k]) <==> period.start == period.end || m[k] == n[k] {
      ChargesPrintAlikeIff(resource, name, m[k], n[k], period, policy);
      assert PrintAlike(x[k], y[k]) <==> PrintAlike(x[k].(workloadUid := ""), y[k].(workloadUid := ""));
    }
  }

  lemma TiesAlikeIffSameRequests(a: seq<WorkloadRequest>, b: seq<WorkloadRequest>, y: Chargeable, period: Period,
      policy: Policy)
    requires multiset(a) == multiset(b) && (y.resource == CPU || y.resource == MEMORY)
    ensures TiesAlike(ByLabel, Alike, ChargesForAll(a, period, policy), ChargesForAll(b, period, policy), y)
        <==> period.start == period.end || Requests(AmountOf(y.resource), a, y.workloadLabel)
                                           == Requests(AmountOf(y.resource), b, y.workloadLabel)
  {
    TiesAreTheRequests(a, y, period, policy);
    TiesAreTheRequests(b, y, period, policy);
    PermutedChargesAreTheSame(a, b, period, policy);
    PermutedFilterHasAsMany(TiesWith(ByLabel, y), ChargesForAll(a, period, policy), ChargesForAll(b, period, policy));
    AlikeIffSameAmounts(Filter(TiesWith(ByLabel, y), ChargesForAll(a, period, policy)),
                        Filter(TiesWith(ByLabel, y), ChargesForAll(b, period, policy)), y.resource, y.workloadLabel,
                        Requests(AmountOf(y.resource), a, y.workloadLabel),
                        Requests(AmountOf(y.resource), b, y.workloadLabel), period, policy);
  }

  lemma NothingElseTies(requested: seq<WorkloadRequest>, y: Chargeable, period: Period, policy: Policy)
    requires y.resource != CPU && y.resource != MEMORY
    ensures Filter(TiesWith(ByLabel, y), ChargesForAll(requested, period, policy)) == []
  {
    var charges := ChargesForAll(requested, period, policy);
    forall k | 0 <= k < |charges| ensures !TiesWith(ByLabel, y)(charges[k]) {
      var _ := EveryChargeHasAWorkload(requested, period, policy, k);
      TiesHaveTheSameKey(charges[k], y);
    }
    FilterIsPrefix(TiesWith(ByLabel, y), charges, 0);
  }

  lemma TiesAlikeIffReadAlike(a: seq<WorkloadRequest>, b: seq<WorkloadRequest>, period: Period, policy: Policy)
    requires multiset(a) == multiset(b)
    ensures (forall y ::
              TiesAlike(ByLabel, Alike, ChargesForAll(a, period, policy), ChargesForAll(b, period, policy), y))
        <==> period.start == period.end || ReadAlike(a, b)
  {
    var x, z := ChargesForAll(a, period, policy), ChargesForAll(b, period, policy);
    if period.start == period.end || ReadAlike(a, b) {
      forall y ensures TiesAlike(ByLabel, Alike, x, z, y) {
        if y.resource == CPU || y.resource == MEMORY {
          TiesAlikeIffSameRequests(a, b, y, period, policy);
        } else {
          NothingElseTies(a, y, period, policy);
          NothingElseTies(b, y, period, policy);
        }
      }
    } else {
      var name: string :| Requests(OfCPU, a, name) != Requests(OfCPU, b, name)
        || Requests(OfMemory, a, name) != Requests(OfMemory, b, name);
      var resource := if Requests(OfCPU, a, name) != Requests(OfCPU, b, name) then CPU else MEMORY;
      TiesAlikeIffSameRequests(a, b, ChargeFor(resource, name, 0, period, policy), period, policy);
    }
  }

  /** Workloads of which no two share a namespace and a name are read alike in every order. */
  lemma DistinctNamesReadAlike(a: seq<WorkloadRequest>, b: seq<WorkloadRequest>)
    requires multiset(a) == multiset(b) && DistinctLabels(a)
    ensures ReadAlike(a, b)
  {
    var period, policy := Period(0, 1), Policy("", 0, "", NewMoney("", Zero()), NewMoney("", Zero()));
    var x, z := ChargesForAll(a, period, policy), ChargesForAll(b, period, policy);
    ByLabelIsStrictWeak();
    ChargesDoNotTie(a, period, policy);
    PermutedChargesAreTheSame(a, b, period, policy);
    SortForgetsOrder(ByLabel, x, z);
    SortedAlikeIff(ByLabel, Alike, x, z);
    TiesAlikeIffReadAlike(a, b, period, policy);
  }

  lemma ChargeIsPrintable(w: WorkloadRequest, period: Period, policy: Policy)
    requires '\n' !in w.Label()
    ensures ChargePrintable(CPUCharge(w, period, policy)) && ChargePrintable(MemoryCharge(w, period, policy))
  {
  }

  lemma ChargesArePrintable(requested: seq<WorkloadRequest>, division: string, period: Period, policy: Policy)
    requires PlainNames(division, policy, requested)
    ensures NamesPrintable(division, policy, ChargesForAll(requested, period, policy))
  {
    var charges := ChargesForAll(requested, period, policy);
    forall k | 0 <= k < |charges| ensures ChargePrintable(charges[k]) {
      var i := EveryChargeHasAWorkload(requested, period, policy, k);
      ChargeIsPrintable(requested[i], period, policy);
    }
  }

  predicate PlainNames(division: string, policy: Policy, requested: seq<WorkloadRequest>) {
    && '\n' !in division && '\n' !in policy.name && '\n' !in policy.currency
    && forall k :: 0 <= k < |requested| ==> '\n' !in requested[k].Label()
  }

  /**
   The same workloads read in another order: what the digest is taken of stays the same if and only if those that
   share a namespace and a name request the same amounts in the same order, or the period is empty.
   */
  lemma DigestStaysIffReadAlike(hash: HashFunction, stamp: Stamp, division: string, period: Period, policy: Policy,
                                a: seq<WorkloadRequest>, b: seq<WorkloadRequest>, unallocated: Money, now: int)
    requires multiset(a) == multiset(b) && Faithful(stamp) && PlainNames(division, policy, a)
    ensures SameDigestText(stamp,
              InvoiceFor(hash, stamp, division, period, policy, ChargesForAll(a, period, policy), unallocated, now),
              InvoiceFor(hash, stamp, division, period, policy, ChargesForAll(b, period, policy), unallocated, now))
        <==> period.start == period.end || ReadAlike(a, b)
  {
    PermutedChargesAreTheSame(a, b, period, policy);
    ChargesArePrintable(a, division, period, policy);
    TiesAlikeIffReadAlike(a, b, period, policy);
    DigestStaysIffTiesPrintAlike(hash, stamp, division, period, policy, ChargesForAll(a, period, policy),
                                 ChargesForAll(b, period, policy), unallocated, now);
  }

  /** Whatever the names hold, reading alike is enough. */
  lemma ReadAlikePrintsTheSame(hash: HashFunction, stamp: Stamp, division: string, period: Period, policy: Policy,
                               a: seq<WorkloadRequest>, b: seq<WorkloadRequest>, unallocated: Money, now: int)
    requires multiset(a) == multiset(b) && ReadAlike(a, b)
    ensures SameDigestText(stamp,
              InvoiceFor(hash, stamp, division, period, policy, ChargesForAll(a, period, policy), unallocated, now),
              InvoiceFor(hash, stamp, division, period, policy, ChargesForAll(b, period, policy), unallocated, now))
  {
    var x, z := ChargesForAll(a, period, policy), ChargesForAll(b, period, policy);
    PermutedChargesAreTheSame(a, b, period, policy);
    TiesAlikeIffReadAlike(a, b, period, policy);
    LinesMatchIffTiesAlike(hash, stamp, division, period, policy, x, z, unallocated, now);
    TotalsAgree(hash, stamp, division, period, policy, x, z, unallocated, now);
    AgreeingInvoicesPrintTheSame(stamp, InvoiceFor(hash, stamp, division, period, policy, x, unallocated, now),
                                 InvoiceFor(hash, stamp, division, period, policy, z, unallocated, now));
  }

  /**
   A Deployment and a StatefulSet of one name and of different size: which is read first can be read off the digest.
   */
  lemma TwoKindsOfOneNameTie(hash: HashFunction, stamp: Stamp, division: string, period: Period, policy: Policy,
                             deployment: WorkloadRequest, stateful: WorkloadRequest, unallocated: Money, now: int)
    requires Faithful(stamp) && period.start != period.end && PlainNames(division, policy, [deployment, stateful])
    requires deployment.namespace == stateful.namespace && deployment.name == stateful.name
    requires deployment.cpuMillicores > 0 && stateful.cpuMillicores > 0
      && deployment.cpuMillicores != stateful.cpuMillicores
    ensures !SameDigestText(stamp,
              InvoiceFor(hash, stamp, division, period, policy,
                         ChargesForAll([deployment, stateful], period, policy), unallocated, now),
              InvoiceFor(hash, stamp, division, period, policy,
                         ChargesForAll([stateful, deployment], period, policy), unallocated, now))
  {
    RequestsOfTwo(deployment, stateful);
    RequestsOfTwo(stateful, deployment);
    DigestStaysIffReadAlike(hash, stamp, division, period, policy, [deployment, stateful], [stateful, deployment],
                            unallocated, now);
  }

  lemma RequestsOfTwo(first: WorkloadRequest, second: WorkloadRequest)
    requires first.Label() == second.Label() && first.cpuMillicores > 0 && second.cpuMillicores > 0
    ensures Requests(OfCPU, [first, second], first.Label()) == [first.cpuMillicores, second.cpuMillicores]
  {
    var one, two := [first], [first, second];
    assert two[..1] == one && one[..0] == [];
    assert Requests(OfCPU, one, first.Label()) == [OfCPU(first)];
    assert Requests(OfCPU, two, first.Label()) == Requests(OfCPU, one, first.Label()) + [OfCPU(second)];
  }
}
