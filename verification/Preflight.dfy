/**
 The check run before a request is put to an approver (internal/requests/preflight.go): what the cluster would be
 committed to if the target were granted, against what its nodes can give.
 */
module Preflight {
  import opened Text
  import opened StableSort
  import opened Packing
  import opened Simulator
  import opened Requests

  datatype Division = Division(name: string, quota: Quota)

  /** A node's allocatable resources; either may be unreported. */
  datatype Capacity = Capacity(unschedulable: bool, cpuMillicores: Option<int>, memoryBytes: Option<int>)

  const WARN_COMMITMENT_PERCENT := 85
  const MAX_INT32 := 0x7fff_ffff

  function ComputeOf(q: Quota): Compute {
    Compute(q.cpuMillicores, q.memoryBytes)
  }

  function Total(divisions: seq<Division>): Compute {
    if |divisions| == 0 then Compute(0, 0)
    else Plus(Total(divisions[..|divisions| - 1]), ComputeOf(divisions[|divisions| - 1].quota))
  }

  /** The quota of the last division of this name, or nothing. */
  function CurrentOf(divisions: seq<Division>, name: string): Compute {
    if |divisions| == 0 then Compute(0, 0)
    else if divisions[|divisions| - 1].name == name then ComputeOf(divisions[|divisions| - 1].quota)
    else CurrentOf(divisions[..|divisions| - 1], name)
  }

  /** The sums of the divisions' cpu and memory quotas. */
  function CPUQuotas(divisions: seq<Division>): int {
    if divisions == [] then 0
    else CPUQuotas(divisions[..|divisions| - 1]) + divisions[|divisions| - 1].quota.cpuMillicores
  }

  function MemoryQuotas(divisions: seq<Division>): int {
    if divisions == [] then 0
    else MemoryQuotas(divisions[..|divisions| - 1]) + divisions[|divisions| - 1].quota.memoryBytes
  }

  /** What is committed is the sum of the quotas of all divisions, each resource for itself. */
  lemma {:induction false} TotalIsTheSum(divisions: seq<Division>)
    ensures Total(divisions) == Compute(CPUQuotas(divisions), MemoryQuotas(divisions))
  {
    if divisions != [] {
      TotalIsTheSum(divisions[..|divisions| - 1]);
    }
  }

  method Committed(divisions: seq<Division>, division: string) returns (total: Compute, current: Compute)
    ensures total == Total(divisions)
    ensures current == CurrentOf(divisions, division)
  {
    total, current := Compute(0, 0), Compute(0, 0);
    for i := 0 to |divisions|
      invariant total == Total(divisions[..i])
      invariant current == CurrentOf(divisions[..i], division)
    {
      assert divisions[..i + 1][..i] == divisions[..i];
      total := Plus(total, ComputeOf(divisions[i].quota));
      if divisions[i].name == division {
        current := ComputeOf(divisions[i].quota);
      }
    }
    assert divisions[..|divisions|] == divisions;
  }

  function OrZero(amount: Option<int>): int {
    match amount
    case None => 0
    case Some(value) => value
  }

  function Gives(node: Capacity): Compute {
    if node.unschedulable then Compute(0, 0) else Compute(OrZero(node.cpuMillicores), OrZero(node.memoryBytes))
  }

  function AllocatableOf(nodes: seq<Capacity>): Compute {
    if |nodes| == 0 then Compute(0, 0) else Plus(AllocatableOf(nodes[..|nodes| - 1]), Gives(nodes[|nodes| - 1]))
  }

  /** A node gives what it reports, nothing for what it does not report, and nothing at all when it is cordoned. */
  lemma CordonedNodesGiveNothing(before: seq<Capacity>, node: Capacity, after: seq<Capacity>)
    ensures var with, without := AllocatableOf(before + [node] + after), AllocatableOf(before + after);
      && with.cpuMillicores == without.cpuMillicores
         + (if node.unschedulable || node.cpuMillicores.None? then 0 else node.cpuMillicores.value)
      && with.memoryBytes == without.memoryBytes
         + (if node.unschedulable || node.memoryBytes.None? then 0 else node.memoryBytes.value)
    ensures AllocatableOf([]) == Compute(0, 0)
  {
    AllocatableOfBoth(before + [node], after);
    AllocatableOfBoth(before, after);
    AllocatableOfAppend(before, node);
  }

  lemma AllocatableOfAppend(nodes: seq<Capacity>, node: Capacity)
    ensures AllocatableOf(nodes + [node]) == Plus(AllocatableOf(nodes), Gives(node))
  {
    assert (nodes + [node])[..|nodes|] == nodes;
  }

  lemma Regrouped(a: seq<Capacity>, b: seq<Capacity>)
    requires b != []
    ensures a + b == a + b[..|b| - 1] + [b[|b| - 1]]
  {
  }

  lemma {:induction false} AllocatableOfBoth(a: seq<Capacity>, b: seq<Capacity>)
    ensures AllocatableOf(a + b) == Plus(AllocatableOf(a), AllocatableOf(b))
  {
    if b == [] {
      assert a + b == a;
    } else {
      AllocatableOfBoth(a, b[..|b| - 1]);
      AllocatableOfAppend(a + b[..|b| - 1], b[|b| - 1]);
      Regrouped(a, b);
    }
  }

  method Allocatable(nodes: seq<Capacity>) returns (total: Compute)
    ensures total == AllocatableOf(nodes)
  {
    total := Compute(0, 0);
    for i := 0 to |nodes|
      invariant total == AllocatableOf(nodes[..i])
    {
      assert nodes[..i + 1][..i] == nodes[..i];
      if nodes[i].unschedulable {
        continue;
      }
      if nodes[i].cpuMillicores.Some? {
        total := total.(cpuMillicores := total.cpuMillicores + nodes[i].cpuMillicores.value);
      }
      if nodes[i].memoryBytes.Some? {
        total := total.(memoryBytes := total.memoryBytes + nodes[i].memoryBytes.value);
      }
    }
    assert nodes[..|nodes|] == nodes;
  }

  /** percentOf: the nearest whole percentage, halves away from zero, and never more than a 32-bit integer holds. */
  function PercentOf(part: int, whole: int): (percent: int)
    ensures whole > 0 && percent < MAX_INT32 ==> -whole <= 200 * part - 2 * percent * whole <= whole
    ensures percent <= MAX_INT32
    ensures whole <= 0 ==> percent == 0
  {
    if whole <= 0 then 0
    else
      var value := if part >= 0 then (200 * part + whole) / (2 * whole) else -((200 * -part + whole) / (2 * whole));
      if value > MAX_INT32 then MAX_INT32 else value
  }

  datatype Check = QuotaShrinks | ClusterCPU | ClusterMemory | ClusterHeadroom {
    predicate Blocks() {
      ClusterCPU? || ClusterMemory?
    }
  }

  datatype PreflightResult = PreflightResult(admitted: bool, commitmentPercent: int, findings: seq<Check>)

  /** Within what the nodes give, for a resource they report at all. */
  predicate Within(commitment: int, allocatable: int) {
    allocatable > 0 ==> commitment <= allocatable
  }

  /** What every verdict says of the commitment it was reached on. */
  ghost predicate Judges(result: PreflightResult, after: Compute, allocatable: Compute, current: Compute,
      target: Compute) {
    && (result.admitted <==>
          Within(after.cpuMillicores, allocatable.cpuMillicores) && Within(after.memoryBytes, allocatable.memoryBytes))
    && (result.admitted <==> forall check <- result.findings :: !check.Blocks())
    && (QuotaShrinks in result.findings <==> target.cpuMillicores < current.cpuMillicores)
    && (ClusterCPU in result.findings <==> !Within(after.cpuMillicores, allocatable.cpuMillicores))
    && (ClusterMemory in result.findings <==> !Within(after.memoryBytes, allocatable.memoryBytes))
    && (ClusterHeadroom in result.findings <==> result.admitted && result.commitmentPercent >= WARN_COMMITMENT_PERCENT)
    && result.commitmentPercent == PercentOf(after.cpuMillicores, allocatable.cpuMillicores)
    && (forall i, j :: 0 <= i < j < |result.findings| ==> result.findings[i] != result.findings[j])
  }

  /**
   The verdict in figures: the quotas of all divisions, less this one's and with the target instead, are admitted if
   and only if they are within what the nodes give of each resource they give any of. The findings say which is
   exceeded, and that the target is below the quota, and that 85 percent or more would be committed of an admitted
   cpu.
   */
  lemma VerdictInFigures(result: PreflightResult, nodes: seq<Capacity>, divisions: seq<Division>, current: Compute,
      target: Compute)
    requires Judges(result, Predicted(Total(divisions), current, target), AllocatableOf(nodes), current, target)
    ensures var cpu := CPUQuotas(divisions) - current.cpuMillicores + target.cpuMillicores;
      var memory := MemoryQuotas(divisions) - current.memoryBytes + target.memoryBytes;
      var gives := AllocatableOf(nodes);
      && (result.admitted <==>
            (gives.cpuMillicores <= 0 || cpu <= gives.cpuMillicores)
                && (gives.memoryBytes <= 0 || memory <= gives.memoryBytes))
      && (ClusterCPU in result.findings <==> 0 < gives.cpuMillicores < cpu)
      && (ClusterMemory in result.findings <==> 0 < gives.memoryBytes < memory)
      && (QuotaShrinks in result.findings <==> target.cpuMillicores < current.cpuMillicores)
      && (ClusterHeadroom in result.findings <==> result.admitted && result.commitmentPercent >= 85)
      && (gives.cpuMillicores <= 0 ==> result.commitmentPercent == 0)
      && (gives.cpuMillicores > 0 && result.commitmentPercent < 2_147_483_647 ==>
            -gives.cpuMillicores <= 200 * cpu - 2 * result.commitmentPercent * gives.cpuMillicores
            <= gives.cpuMillicores)
  {
    TotalIsTheSum(divisions);
  }

  method Evaluate(nodes: seq<Capacity>, divisions: seq<Division>, division: string, target: Compute)
    returns (result: PreflightResult)
    ensures var current := CurrentOf(divisions, division);
      Judges(result, Predicted(Total(divisions), current, target), AllocatableOf(nodes), current, target)
  {
    var allocatable := Allocatable(nodes);
    var total, current := Committed(divisions, division);
    var after := Plus(Minus(total, current), target);
    result := Judge(after, allocatable, current, target);
  }

  method Judge(after: Compute, allocatable: Compute, current: Compute, target: Compute)
      returns (result: PreflightResult)
    ensures Judges(result, after, allocatable, current, target)
  {
    var findings := [];
    var admitted := true;
    if target.cpuMillicores < current.cpuMillicores {
      findings := findings + [QuotaShrinks];
    }
    var percent := PercentOf(after.cpuMillicores, allocatable.cpuMillicores);
    if allocatable.cpuMillicores > 0 && after.cpuMillicores > allocatable.cpuMillicores {
      admitted := false;
      findings := findings + [ClusterCPU];
    }
    if allocatable.memoryBytes > 0 && after.memoryBytes > allocatable.memoryBytes {
      admitted := false;
      findings := findings + [ClusterMemory];
    }
    if admitted && percent >= WARN_COMMITMENT_PERCENT {
      findings := findings + [ClusterHeadroom];
    }
    assert !admitted ==> ClusterCPU in findings || ClusterMemory in findings;
    result := PreflightResult(admitted, percent, findings);
  }

  // ----- the prediction against what applying the quota leads to -----

  /** The stored divisions in some order. */
  ghost predicate Lists(divisions: seq<Division>, stored: map<string, Quota>) {
    && (forall i :: 0 <= i < |divisions| ==>
        divisions[i].name in stored && divisions[i].quota == stored[divisions[i].name])
    && (forall i, j :: 0 <= i < j < |divisions| ==> divisions[i].name != divisions[j].name)
    && (forall name <- stored :: exists i :: 0 <= i < |divisions| && divisions[i].name == name)
  }

  lemma TotalOfAppend(divisions: seq<Division>, d: Division)
    ensures Total(divisions + [d]) == Plus(Total(divisions), ComputeOf(d.quota))
  {
    assert (divisions + [d])[..|divisions|] == divisions;
  }

  lemma {:induction false} TotalOfConcat(a: seq<Division>, b: seq<Division>)
    ensures Total(a + b) == Plus(Total(a), Total(b))
  {
    if |b| == 0 {
      assert a + b == a;
    } else {
      var front, d := b[..|b| - 1], b[|b| - 1];
      TotalOfConcat(a, front);
      TotalOfAppend(a + front, d);
      ConcatAppend(a, b, front, d);
    }
  }

  lemma ConcatAppend(a: seq<Division>, b: seq<Division>, front: seq<Division>, d: Division)
    requires |b| > 0 && front == b[..|b| - 1] && d == b[|b| - 1]
    ensures a + b == a + front + [d]
  {
  }

  lemma TotalOfMiddle(front: seq<Division>, d: Division, back: seq<Division>)
    ensures Total(front + [d] + back) == Plus(Total(front + back), ComputeOf(d.quota))
  {
    TotalOfConcat(front + [d], back);
    TotalOfAppend(front, d);
    TotalOfConcat(front, back);
  }

  lemma TotalWithout(divisions: seq<Division>, k: nat)
    requires k < |divisions|
    ensures Total(divisions) == Plus(Total(Dropped(divisions, k)), ComputeOf(divisions[k].quota))
  {
    TotalOfMiddle(divisions[..k], divisions[k], divisions[k + 1..]);
    CutInThree(divisions, k);
  }

  lemma CutInThree(divisions: seq<Division>, k: nat)
    requires k < |divisions|
    ensures divisions == divisions[..k] + [divisions[k]] + divisions[k + 1..]
  {
  }

  /** Where the remaining divisions came from. */
  lemma WithoutAt(divisions: seq<Division>, k: nat)
    requires k < |divisions|
    ensures forall i :: 0 <= i < k ==> Dropped(divisions, k)[i] == divisions[i]
    ensures forall i :: k <= i < |divisions| - 1 ==> Dropped(divisions, k)[i] == divisions[i + 1]
  {
  }

  lemma ListsWithout(divisions: seq<Division>, stored: map<string, Quota>, k: nat)
    requires k < |divisions| && Lists(divisions, stored)
    ensures Lists(Dropped(divisions, k), stored - {divisions[k].name})
  {
    var rest := Dropped(divisions, k);
    var fewer := stored - {divisions[k].name};
    WithoutAt(divisions, k);
    forall name <- fewer ensures exists i :: 0 <= i < |rest| && rest[i].name == name {
      var i :| 0 <= i < |divisions| && divisions[i].name == name;
      if i < k {
        assert rest[i].name == name;
      } else {
        assert rest[i - 1] == divisions[i];
      }
    }
  }

  lemma ListingsAreAsLong(a: seq<Division>, b: seq<Division>, stored: map<string, Quota>)
    requires Lists(a, stored) && Lists(b, stored) && |a| > 0
    ensures |b| > 0
  {
    assert a[0].name in stored;
  }

  /** The order the divisions are listed in does not matter to their total. */
  lemma {:induction false} ListingsAgree(a: seq<Division>, b: seq<Division>, stored: map<string, Quota>)
    requires Lists(a, stored) && Lists(b, stored)
    ensures Total(a) == Total(b)
    decreases |a|
  {
    if |b| > 0 {
      ListingsAreAsLong(b, a, stored);
    }
    if |a| > 0 {
      var k := |a| - 1;
      assert a[k].name in stored;
      var j :| 0 <= j < |b| && b[j].name == a[k].name;
      TotalWithout(a, k);
      TotalWithout(b, j);
      ListsWithout(a, stored, k);
      ListsWithout(b, stored, j);
      ListingsAgree(Dropped(a, k), Dropped(b, j), stored - {a[k].name});
    }
  }

  lemma ReplacedLists(before: seq<Division>, stored: map<string, Quota>, k: nat, quota: Quota)
    requires Lists(before, stored) && k < |before|
    ensures Lists(before[k := Division(before[k].name, quota)], stored[before[k].name := quota])
  {
    var name := before[k].name;
    var changed := before[k := Division(name, quota)];
    assert forall i :: 0 <= i < |before| ==> changed[i].name == before[i].name;
    forall n | n in stored ensures exists i :: 0 <= i < |changed| && changed[i].name == n {
      var i :| 0 <= i < |before| && before[i].name == n;
      assert changed[i].name == n;
    }
  }

  lemma ReplacedTotal(before: seq<Division>, k: nat, quota: Quota)
    requires k < |before|
    ensures Total(before[k := Division(before[k].name, quota)])
      == Predicted(Total(before), ComputeOf(before[k].quota), ComputeOf(quota))
  {
    var changed := before[k := Division(before[k].name, quota)];
    TotalWithout(before, k);
    TotalWithout(changed, k);
    assert Dropped(before, k) == Dropped(changed, k);
  }

  lemma {:induction false} CurrentIsAt(divisions: seq<Division>, k: nat)
    requires k < |divisions| && forall i, j :: 0 <= i < j < |divisions| ==> divisions[i].name != divisions[j].name
    ensures CurrentOf(divisions, divisions[k].name) == ComputeOf(divisions[k].quota)
  {
    if k < |divisions| - 1 {
      CurrentIsAt(divisions[..|divisions| - 1], k);
    }
  }

  lemma {:induction false} CurrentOfNone(divisions: seq<Division>, name: string)
    requires forall i :: 0 <= i < |divisions| ==> divisions[i].name != name
    ensures CurrentOf(divisions, name) == Compute(0, 0)
  {
    if |divisions| > 0 {
      CurrentOfNone(divisions[..|divisions| - 1], name);
    }
  }

  /**
   The commitment preflight and the simulation predict is the one recomputed from the divisions once the quota has
   been applied, in whatever order they are listed before and after.
   */
  lemma PredictionIsTheTotalAfterApplying(c: Cluster, r: Request, before: seq<Division>, after: seq<Division>)
    requires PatchQuota(c, r).Some? && Lists(before, c.divisions) && Lists(after, PatchQuota(c, r).value.divisions)
    ensures Predicted(Total(before), CurrentOf(before, r.division), ComputeOf(r.target)) == Total(after)
    ensures CurrentOf(before, r.division) == ComputeOf(c.divisions[r.division])
  {
    var k: nat :| k < |before| && before[k].name == r.division;
    CurrentIsAt(before, k);
    ReplacedLists(before, c.divisions, k, r.target);
    ReplacedTotal(before, k, r.target);
    ListingsAgree(before[k := Division(r.division, r.target)], after, PatchQuota(c, r).value.divisions);
  }

  /** A division nobody stores counts as having nothing: its whole target is added to the commitment. */
  lemma PredictionForAMissingDivision(c: Cluster, r: Request, before: seq<Division>)
    requires PatchQuota(c, r).None? && Lists(before, c.divisions)
    ensures Predicted(Total(before), CurrentOf(before, r.division), ComputeOf(r.target))
      == Plus(Total(before), ComputeOf(r.target))
  {
    assert forall i :: 0 <= i < |before| ==> before[i].name in c.divisions;
    CurrentOfNone(before, r.division);
  }

  /** What the request reconciler adds up: the quotas of all divisions. */
  method CommittedByAll(divisions: seq<Division>) returns (total: Compute)
    ensures total == Total(divisions)
  {
    total := Compute(0, 0);
    for i := 0 to |divisions|
      invariant total == Total(divisions[..i])
    {
      assert divisions[..i + 1][..i] == divisions[..i];
      total := Plus(total, ComputeOf(divisions[i].quota));
    }
    assert divisions[..|divisions|] == divisions;
  }

  /**
   The simulation of a request (internal/requests/controller.go): total and current quota as they are read there. The
   commitment it shows is the one predicted above.
   */
  method SimulateRequest(nodes: seq<Node>, sizes: seq<Pod>, divisions: seq<Division>, current: Quota, target: Quota)
    returns (impact: Impact)
    ensures impact.committed == Predicted(Total(divisions), ComputeOf(current), ComputeOf(target))
    ensures impact.committed.cpuMillicores == CPUQuotas(divisions) - current.cpuMillicores + target.cpuMillicores
    ensures impact.committed.memoryBytes == MemoryQuotas(divisions) - current.memoryBytes + target.memoryBytes
    ensures impact.quotaBefore == Compute(current.cpuMillicores, current.memoryBytes)
    ensures impact.quotaAfter == Compute(target.cpuMillicores, target.memoryBytes)
    ensures impact.typicalPod.cpu >= 1 && impact.typicalPod.mem >= 1
    ensures impact.headroomPods == FillCount(Headroom(ComputeOf(current), ComputeOf(target)), impact.typicalPod)
    ensures impact.placedPods + impact.unplacedPods == impact.headroomPods
    ensures impact.schedulable <==> RoomFor(nodes, impact.typicalPod, impact.headroomPods)
  {
    TotalIsTheSum(divisions);
    var total := CommittedByAll(divisions);
    impact := SimulateImpact(nodes, sizes, ComputeOf(current), ComputeOf(target), total);
  }
}
