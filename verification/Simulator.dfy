/**
 The impact simulation shown to an approver (internal/simulate/simulator.go): turn the quota headroom into
 pods of the division's typical size and see whether the nodes can take them.
 */
module Simulator {
  import opened Text
  import opened StableSort
  import opened Packing
  import opened PackingLaws
  import opened SchedulableNodes

  datatype Compute = Compute(cpuMillicores: int, memoryBytes: int)

  function Plus(a: Compute, b: Compute): Compute {
    Compute(a.cpuMillicores + b.cpuMillicores, a.memoryBytes + b.memoryBytes)
  }

  function Minus(a: Compute, b: Compute): Compute {
    Compute(a.cpuMillicores - b.cpuMillicores, a.memoryBytes - b.memoryBytes)
  }

  /** Committed, less what the division has now, plus what it would get. */
  function Predicted(total: Compute, current: Compute, target: Compute): Compute {
    Plus(Minus(total, current), target)
  }

  const FALLBACK_POD_CPU := 250
  const FALLBACK_POD_MEM := 512 * 1024 * 1024
  const MAX_SIMULATED := 500

  const ByCPU: (Pod, Pod) -> bool := (a: Pod, b: Pod) => a.cpu < b.cpu

  /** The median of the division's pod sizes, floored at one millicore and one byte. */
  ghost predicate IsMedian(sizes: seq<Pod>, typical: Pod) {
    exists sorted: seq<Pod> ::
      && multiset(sorted) == multiset(sizes)
      && (forall i, j :: 0 <= i < j < |sorted| ==> sorted[i].cpu <= sorted[j].cpu)
      && |sorted| > 0
      && typical.cpu == (if sorted[|sorted| / 2].cpu < 1 then 1 else sorted[|sorted| / 2].cpu)
      && typical.mem == (if sorted[|sorted| / 2].mem < 1 then 1 else sorted[|sorted| / 2].mem)
  }

  method TypicalPod(sizes: seq<Pod>) returns (typical: Pod)
    ensures typical.cpu >= 1 && typical.mem >= 1
    ensures sizes == [] ==> typical == Pod("typical", FALLBACK_POD_CPU, FALLBACK_POD_MEM)
    ensures sizes == [] ==> typical.cpu == 250 && typical.mem == 536_870_912
    ensures sizes != [] ==> IsMedian(sizes, typical)
  {
    if |sizes| == 0 {
      return Pod("typical", FALLBACK_POD_CPU, FALLBACK_POD_MEM);
    }
    var sorted := Sort(ByCPU, sizes);
    SortOrders(ByCPU, sizes);
    assert forall i, j :: 0 <= i < j < |sorted| ==> !ByCPU(sorted[j], sorted[i]);
    var median := sorted[|sorted| / 2];
    typical := Pod("typical", Max64(median.cpu, 1), Max64(median.mem, 1));
  }

  // ----- fill -----

  function Portions(headroom: int, size: int): int {
    if size > 0 && headroom > 0 then headroom / size else 0
  }

  function FillCount(headroom: Compute, typical: Pod): (count: nat)
    ensures count <= MAX_SIMULATED
    ensures count == 0 <==> headroom.cpuMillicores <= 0 && headroom.memoryBytes <= 0
  {
    if headroom.cpuMillicores <= 0 && headroom.memoryBytes <= 0 then 0
    else
      var byCPU, byMemory := Portions(headroom.cpuMillicores, typical.cpu), Portions(headroom.memoryBytes, typical.mem);
      var count := if byMemory < byCPU || byCPU == 0 then byMemory else byCPU;
      if count <= 0 then 1 else Min(count, MAX_SIMULATED)
  }

  function FilledPods(headroom: Compute, typical: Pod): seq<Pod> {
    seq(FillCount(headroom, typical), (i: nat) => Pod(typical.name + "-" + Digits(i + 1), typical.cpu, typical.mem))
  }

  method Fill(headroom: Compute, typical: Pod) returns (pods: seq<Pod>)
    ensures |pods| == FillCount(headroom, typical)
    ensures Identical(pods, typical.cpu, typical.mem)
    ensures pods == FilledPods(headroom, typical)
  {
    if headroom.cpuMillicores <= 0 && headroom.memoryBytes <= 0 {
      return [];
    }
    var byCPU := 0;
    if typical.cpu > 0 && headroom.cpuMillicores > 0 {
      byCPU := headroom.cpuMillicores / typical.cpu;
    }
    var byMemory := 0;
    if typical.mem > 0 && headroom.memoryBytes > 0 {
      byMemory := headroom.memoryBytes / typical.mem;
    }
    var count := byCPU;
    if byMemory < count || count == 0 {
      count := byMemory;
    }
    if count <= 0 {
      count := 1;
    }
    if count > MAX_SIMULATED {
      count := MAX_SIMULATED;
    }
    pods := [];
    for i := 0 to count
      invariant |pods| == i
      invariant Identical(pods, typical.cpu, typical.mem)
      invariant forall j | 0 <= j < i :: pods[j].name == typical.name + "-" + Digits(j + 1)
    {
      pods := pods + [Pod(typical.name + "-" + Digits(i + 1), typical.cpu, typical.mem)];
    }
  }

  ghost predicate WithinHeadroom(count: int, headroom: Compute, typical: Pod) {
    count * typical.cpu <= headroom.cpuMillicores && count * typical.mem <= headroom.memoryBytes
  }

  lemma PortionsAreMaximal(headroom: int, size: int, count: int)
    requires size >= 1 && count >= 1
    ensures count <= Portions(headroom, size) <==> count * size <= headroom
  {
    if headroom > 0 {
      var q := headroom / size;
      assert headroom == q * size + headroom % size;
      if count * size <= headroom {
        MultipleFits(count, size, headroom);
      }
      assert q * size - count * size == (q - count) * size;
      assert count <= q ==> (q - count) * size >= 0;
    } else {
      assert count * size >= size by {
        assert (count - 1) * size >= 0;
      }
    }
  }

  /**
   Whenever one pod does not fit on both resources the number is not what the headroom holds: with no cpu to speak of it
   is what the memory alone holds, up to the cap, and otherwise it is one.
   */
  lemma FillWhenOneResourceIsShort(headroom: Compute, typical: Pod)
    requires typical.cpu >= 1 && typical.mem >= 1
    requires headroom.cpuMillicores > 0 || headroom.memoryBytes > 0
    requires !WithinHeadroom(1, headroom, typical)
    ensures FillCount(headroom, typical)
         == if headroom.memoryBytes >= typical.mem then Min(headroom.memoryBytes / typical.mem, MAX_SIMULATED) else 1
    ensures headroom.memoryBytes >= typical.mem ==> headroom.cpuMillicores < typical.cpu
  {
    PortionsAreMaximal(headroom.cpuMillicores, typical.cpu, 1);
    PortionsAreMaximal(headroom.memoryBytes, typical.mem, 1);
  }

  /**
   The simulated pods fit the new headroom exactly when one of them does on both resources; then no larger
   number up to the cap would. The other cases are FillWhenOneResourceIsShort.
   */
  lemma FillIsTheLargestThatFits(headroom: Compute, typical: Pod)
    requires typical.cpu >= 1 && typical.mem >= 1
    requires headroom.cpuMillicores > 0 || headroom.memoryBytes > 0
    ensures var count := FillCount(headroom, typical);
            && count >= 1
            && (WithinHeadroom(count, headroom, typical) <==> WithinHeadroom(1, headroom, typical))
            && (WithinHeadroom(1, headroom, typical) ==>
                  forall more | count < more <= MAX_SIMULATED :: !WithinHeadroom(more, headroom, typical))
  {
    var count := FillCount(headroom, typical);
    PortionsAreMaximal(headroom.cpuMillicores, typical.cpu, 1);
    PortionsAreMaximal(headroom.memoryBytes, typical.mem, 1);
    PortionsAreMaximal(headroom.cpuMillicores, typical.cpu, count);
    PortionsAreMaximal(headroom.memoryBytes, typical.mem, count);
    forall more | count < more <= MAX_SIMULATED && WithinHeadroom(1, headroom, typical)
      ensures !WithinHeadroom(more, headroom, typical)
    {
      PortionsAreMaximal(headroom.cpuMillicores, typical.cpu, more);
      PortionsAreMaximal(headroom.memoryBytes, typical.mem, more);
    }
  }

  // ----- Impact -----

  datatype Impact = Impact(
    quotaBefore: Compute, quotaAfter: Compute, committed: Compute,
    typicalPod: Pod, headroomPods: int, placedPods: int, unplacedPods: int,
    nodesExhausted: seq<string>, schedulable: bool)

  function Headroom(before: Compute, after: Compute): Compute {
    Minus(after, before)
  }

  /** The names Place reports as exhausted. */
  function ExhaustedBy(nodes: seq<Node>, pods: seq<Pod>): seq<string> {
    var packed := Pack(Schedulable(nodes), Decreasing(pods));
    Sort(ByName, ExhaustedNames(packed.nodes, packed.exhausted))
  }

  /**
   Room for `count` pods of the typical size, as an approver understands the verdict: each sent to some schedulable
   node of the list, and no node sent more than it has left.
   */
  ghost predicate RoomFor(nodes: seq<Node>, typical: Pod, count: nat) {
    CanArrange(nodes, seq(count, _ => typical))
  }

  /** What Place returns for the pods of one size: the most any arrangement could place. */
  lemma VerdictIsExact(nodes: seq<Node>, pods: seq<Pod>, typical: Pod)
    requires typical.cpu >= 1 && typical.mem >= 1 && Identical(pods, typical.cpu, typical.mem)
    ensures var packed := Pack(Schedulable(nodes), Decreasing(pods));
            && packed.placed == Min(|pods|, RoomOnTheList(nodes, typical.cpu, typical.mem))
            && packed.placed + |packed.unplaced| == |pods|
            && (packed.unplaced == [] <==> RoomFor(nodes, typical, |pods|))
  {
    IdenticalStayInOrder(pods, typical.cpu, typical.mem);
    GreedyFillsAllRoom(Schedulable(nodes), pods, typical.cpu, typical.mem);
    NothingLeftIffPlaceable(Schedulable(nodes), pods, typical.cpu, typical.mem);
    NamesDoNotMatter(Schedulable(nodes), pods, seq(|pods|, _ => typical));
    PlaceableOnTheList(nodes, seq(|pods|, _ => typical));
    RoomIsOnTheList(nodes, typical.cpu, typical.mem);
  }

  /**
   The verdict is exact: Schedulable is true if and only if the nodes could take every one of the pods in
   some arrangement, and otherwise the number placed is the most any arrangement could place.
   */
  method SimulateImpact(nodes: seq<Node>, sizes: seq<Pod>, before: Compute, after: Compute, committed: Compute)
    returns (impact: Impact)
    ensures sizes == [] ==> impact.typicalPod == Pod("typical", FALLBACK_POD_CPU, FALLBACK_POD_MEM)
    ensures sizes != [] ==> IsMedian(sizes, impact.typicalPod)
    ensures impact.typicalPod.cpu >= 1 && impact.typicalPod.mem >= 1
    ensures impact.headroomPods == FillCount(Headroom(before, after), impact.typicalPod)
    ensures impact.placedPods + impact.unplacedPods == impact.headroomPods
    ensures impact.placedPods
         == Min(impact.headroomPods, RoomOnTheList(nodes, impact.typicalPod.cpu, impact.typicalPod.mem))
    ensures impact.schedulable <==> RoomFor(nodes, impact.typicalPod, impact.headroomPods)
    ensures impact.nodesExhausted == ExhaustedBy(nodes, FilledPods(Headroom(before, after), impact.typicalPod))
    ensures impact.committed == Predicted(committed, before, after)
    ensures impact.committed.cpuMillicores == committed.cpuMillicores - before.cpuMillicores + after.cpuMillicores
    ensures impact.committed.memoryBytes == committed.memoryBytes - before.memoryBytes + after.memoryBytes
    ensures impact.quotaBefore == before && impact.quotaAfter == after
  {
    var typical := TypicalPod(sizes);
    var pods := Fill(Headroom(before, after), typical);
    var placement := Place(nodes, pods);

    VerdictIsExact(nodes, pods, typical);

    var committedAfter := Plus(Minus(committed, before), after);
    impact := Impact(before, after, committedAfter, typical, |pods|, placement.placed, |placement.unplaced|,
                     placement.nodesExhausted, |placement.unplaced| == 0);
  }

  /**
   A cordoned node, put in or taken out, changes nothing of the impact: not its figures, its verdict or its node
   names.
   */
  lemma CordonedNodesChangeNothing(before: seq<Node>, cordoned: Node, after: seq<Node>, typical: Pod, count: nat,
      pods: seq<Pod>)
    requires !cordoned.schedulable && typical.cpu >= 1 && typical.mem >= 1
    ensures var nodes, others := before + [cordoned] + after, before + after;
      && RoomOnTheList(nodes, typical.cpu, typical.mem) == RoomOnTheList(others, typical.cpu, typical.mem)
      && (RoomFor(nodes, typical, count) <==> RoomFor(others, typical, count))
      && ExhaustedBy(nodes, pods) == ExhaustedBy(others, pods)
  {
    var nodes, others := before + [cordoned] + after, before + after;
    CordonedNodesDoNotCount(before, cordoned, after);
    RoomIsOnTheList(nodes, typical.cpu, typical.mem);
    RoomIsOnTheList(others, typical.cpu, typical.mem);
    PlaceableOnTheList(nodes, seq(count, _ => typical));
    PlaceableOnTheList(others, seq(count, _ => typical));
  }

  /** Nodes of which none is schedulable have room for nothing. */
  lemma {:induction false} OnlyCordonedNodesHaveNoRoom(nodes: seq<Node>, cpu: int, mem: int)
    requires cpu >= 1 && mem >= 1 && forall i :: 0 <= i < |nodes| ==> !nodes[i].schedulable
    ensures RoomOnTheList(nodes, cpu, mem) == 0
  {
    if nodes != [] {
      OnlyCordonedNodesHaveNoRoom(nodes[..|nodes| - 1], cpu, mem);
    }
  }

  /** No more than 500 pods are simulated, however large the headroom. */
  lemma TheCapIsFiveHundred(headroom: Compute, typical: Pod)
    requires typical.cpu >= 1 && typical.mem >= 1
    requires headroom.cpuMillicores >= 500 * typical.cpu && headroom.memoryBytes >= 500 * typical.mem
    ensures FillCount(headroom, typical) == 500
  {
    PortionsAreMaximal(headroom.cpuMillicores, typical.cpu, 500);
    PortionsAreMaximal(headroom.memoryBytes, typical.mem, 500);
  }

  lemma IdenticalStayInOrder(pods: seq<Pod>, cpu: int, mem: int)
    requires Identical(pods, cpu, mem)
    ensures Decreasing(pods) == pods
  {
    assert Ordered(ByDecreasingSize, pods);
    SortKeepsOrdered(ByDecreasingSize, pods);
  }

  ghost predicate SameSizes(a: seq<Pod>, b: seq<Pod>) {
    |a| == |b| && forall i | 0 <= i < |a| :: a[i].cpu == b[i].cpu && a[i].mem == b[i].mem
  }

  lemma {:induction false} LoadsIgnoreNames(a: seq<Pod>, b: seq<Pod>, where: seq<int>, n: int)
    requires SameSizes(a, b) && |where| == |a|
    ensures LoadCPU(a, where, n) == LoadCPU(b, where, n)
    ensures LoadMem(a, where, n) == LoadMem(b, where, n)
  {
    if a != [] {
      LoadsIgnoreNames(a[..|a| - 1], b[..|b| - 1], where[..|a| - 1], n);
    }
  }

  lemma NamesDoNotMatter(nodes: seq<Node>, a: seq<Pod>, b: seq<Pod>)
    requires SameSizes(a, b)
    ensures Placeable(nodes, a) <==> Placeable(nodes, b)
  {
    forall where: seq<int> | |where| == |a|
      ensures Respects(nodes, a, where) <==> Respects(nodes, b, where)
    {
      forall n | 0 <= n < |nodes|
        ensures LoadCPU(a, where, n) == LoadCPU(b, where, n) && LoadMem(a, where, n) == LoadMem(b, where, n)
      {
        LoadsIgnoreNames(a, b, where, n);
      }
    }
  }
}
