/**
 The packer's results said of the list of nodes it is given, cordoned ones and all: those never take a pod, and might as
 well not be there.
 */
module SchedulableNodes {
  import opened Text
  import opened StableSort
  import opened Packing
  import opened PackingLaws

  // ----- where the schedulable nodes are -----

  /** The positions of the schedulable nodes, in order. */
  ghost function Positions(nodes: seq<Node>): seq<int> {
    if nodes == [] then []
    else Positions(nodes[..|nodes| - 1]) + if nodes[|nodes| - 1].schedulable then [|nodes| - 1] else []
  }

  /** How many schedulable nodes come before the ith. */
  ghost function Rank(nodes: seq<Node>, i: nat): nat
    requires i <= |nodes|
  {
    |Positions(nodes[..i])|
  }

  lemma {:induction false} SchedulableAt(nodes: seq<Node>)
    ensures |Schedulable(nodes)| == |Positions(nodes)|
    ensures forall j :: 0 <= j < |Positions(nodes)| ==>
      && 0 <= Positions(nodes)[j] < |nodes| && nodes[Positions(nodes)[j]].schedulable
      && Schedulable(nodes)[j] == nodes[Positions(nodes)[j]]
    ensures forall j, k :: 0 <= j < k < |Positions(nodes)| ==> Positions(nodes)[j] < Positions(nodes)[k]
  {
    if nodes != [] {
      SchedulableAt(nodes[..|nodes| - 1]);
    }
  }

  lemma {:induction false} RankIsThePlace(nodes: seq<Node>, i: nat)
    requires i < |nodes| && nodes[i].schedulable
    ensures Rank(nodes, i) < |Positions(nodes)| && Positions(nodes)[Rank(nodes, i)] == i
  {
    var last := |nodes| - 1;
    if i < last {
      RankIsThePlace(nodes[..last], i);
      assert nodes[..last][..i] == nodes[..i];
    }
  }

  // ----- arrangements on the list itself -----

  function RoomLeft(capacity: int, used: int): int {
    if used < capacity then capacity - used else 0
  }

  /**
   Every pod goes to some node of the list that is schedulable, and no node gets more than it has left: what is
   allocatable less what is allocated.
   */
  ghost predicate Arranged(nodes: seq<Node>, pods: seq<Pod>, where: seq<int>) {
    && |where| == |pods|
    && (forall k :: 0 <= k < |where| ==> 0 <= where[k] < |nodes| && nodes[where[k]].schedulable)
    && (forall n :: 0 <= n < |nodes| ==>
          && LoadCPU(pods, where, n) <= RoomLeft(nodes[n].allocatableCPU, nodes[n].allocatedCPU)
          && LoadMem(pods, where, n) <= RoomLeft(nodes[n].allocatableMem, nodes[n].allocatedMem))
  }

  lemma {:induction false} LoadsAgree(pods: seq<Pod>, a: seq<int>, n: int, b: seq<int>, m: int)
    requires |a| == |b| == |pods| && forall k :: 0 <= k < |pods| ==> (a[k] == n <==> b[k] == m)
    ensures LoadCPU(pods, a, n) == LoadCPU(pods, b, m) && LoadMem(pods, a, n) == LoadMem(pods, b, m)
  {
    if pods != [] {
      var last := |pods| - 1;
      LoadsAgree(pods[..last], a[..last], n, b[..last], m);
    }
  }

  lemma {:induction false} NoLoad(pods: seq<Pod>, where: seq<int>, n: int)
    requires |where| == |pods| && forall k :: 0 <= k < |pods| ==> where[k] != n
    ensures LoadCPU(pods, where, n) == 0 && LoadMem(pods, where, n) == 0
  {
    if pods != [] {
      NoLoad(pods[..|pods| - 1], where[..|pods| - 1], n);
    }
  }

  /** An assignment to the schedulable nodes, as one to the list: those left out stay left out. */
  ghost function OnTheList(nodes: seq<Node>, where: seq<int>): (there: seq<int>)
    requires forall k :: 0 <= k < |where| ==> -1 <= where[k] < |Positions(nodes)|
    ensures |there| == |where|
  {
    seq(|where|, k requires 0 <= k < |where| => if where[k] < 0 then -1 else Positions(nodes)[where[k]])
  }

  /** The load of a node of the list is that of its place among the schedulable ones, and a cordoned node has none. */
  lemma LoadOnTheList(nodes: seq<Node>, pods: seq<Pod>, where: seq<int>, n: nat)
    requires |where| == |pods| && n < |nodes|
    requires forall k :: 0 <= k < |where| ==> -1 <= where[k] < |Positions(nodes)|
    ensures var there := OnTheList(nodes, where);
      && (nodes[n].schedulable ==>
            && LoadCPU(pods, there, n) == LoadCPU(pods, where, Rank(nodes, n))
            && LoadMem(pods, there, n) == LoadMem(pods, where, Rank(nodes, n)))
      && (!nodes[n].schedulable ==> LoadCPU(pods, there, n) == 0 && LoadMem(pods, there, n) == 0)
  {
    var there := OnTheList(nodes, where);
    SchedulableAt(nodes);
    if nodes[n].schedulable {
      RankIsThePlace(nodes, n);
      LoadsAgree(pods, there, n, where, Rank(nodes, n));
    } else {
      NoLoad(pods, there, n);
    }
  }

  lemma ArrangedOnTheList(nodes: seq<Node>, pods: seq<Pod>, where: seq<int>)
    requires Respects(Schedulable(nodes), pods, where) && Full(where)
    ensures |Schedulable(nodes)| == |Positions(nodes)| && Arranged(nodes, pods, OnTheList(nodes, where))
  {
    SchedulableAt(nodes);
    var there := OnTheList(nodes, where);
    forall n: nat | n < |nodes|
      ensures LoadCPU(pods, there, n) <= RoomLeft(nodes[n].allocatableCPU, nodes[n].allocatedCPU)
      ensures LoadMem(pods, there, n) <= RoomLeft(nodes[n].allocatableMem, nodes[n].allocatedMem)
    {
      LoadOnTheList(nodes, pods, where, n);
      if nodes[n].schedulable {
        RankIsThePlace(nodes, n);
      }
    }
  }

  /** And back. */
  ghost function AmongSchedulable(nodes: seq<Node>, there: seq<int>): (where: seq<int>)
    requires forall k :: 0 <= k < |there| ==> 0 <= there[k] < |nodes|
    ensures |where| == |there|
  {
    seq(|there|, k requires 0 <= k < |there| => Rank(nodes, there[k]))
  }

  lemma RespectedAmongSchedulable(nodes: seq<Node>, pods: seq<Pod>, there: seq<int>)
    requires Arranged(nodes, pods, there)
    ensures Respects(Schedulable(nodes), pods, AmongSchedulable(nodes, there)) && Full(AmongSchedulable(nodes, there))
  {
    SchedulableAt(nodes);
    var where := AmongSchedulable(nodes, there);
    forall k | 0 <= k < |there| ensures where[k] < |Positions(nodes)| && Positions(nodes)[where[k]] == there[k] {
      RankIsThePlace(nodes, there[k]);
    }
    forall j | 0 <= j < |Positions(nodes)|
      ensures LoadCPU(pods, where, j) <= Schedulable(nodes)[j].FreeCPU()
      ensures LoadMem(pods, where, j) <= Schedulable(nodes)[j].FreeMem()
    {
      LoadsAgree(pods, where, j, there, Positions(nodes)[j]);
    }
  }

  ghost predicate CanArrange(nodes: seq<Node>, pods: seq<Pod>) {
    exists where :: Arranged(nodes, pods, where)
  }

  /** The schedulable nodes can take the pods if and only if the list can, by its schedulable nodes alone. */
  lemma PlaceableOnTheList(nodes: seq<Node>, pods: seq<Pod>)
    ensures Placeable(Schedulable(nodes), pods) <==> CanArrange(nodes, pods)
  {
    if where :| Respects(Schedulable(nodes), pods, where) && Full(where) {
      ArrangedOnTheList(nodes, pods, where);
    }
    if there :| Arranged(nodes, pods, there) {
      RespectedAmongSchedulable(nodes, pods, there);
    }
  }

  // ----- room -----

  /**
   How many pods of a size a node has room for, by what is allocatable and not allocated yet; a cordoned one for none.
   */
  ghost function RoomOn(node: Node, cpu: int, mem: int): int
    requires cpu >= 1 && mem >= 1
  {
    var byCPU := RoomLeft(node.allocatableCPU, node.allocatedCPU) / cpu;
    var byMemory := RoomLeft(node.allocatableMem, node.allocatedMem) / mem;
    if !node.schedulable then 0 else if byCPU < byMemory then byCPU else byMemory
  }

  /** The sum of that over the list. */
  ghost function RoomOnTheList(nodes: seq<Node>, cpu: int, mem: int): int
    requires cpu >= 1 && mem >= 1
  {
    if nodes == [] then 0
    else RoomOnTheList(nodes[..|nodes| - 1], cpu, mem) + RoomOn(nodes[|nodes| - 1], cpu, mem)
  }

  lemma RoomOnOne(node: Node, cpu: int, mem: int)
    requires cpu >= 1 && mem >= 1
    ensures RoomOn(node, cpu, mem) == if node.schedulable then Room(node, cpu, mem) else 0
  {
  }

  lemma TotalRoomOfAppend(nodes: seq<Node>, node: Node, cpu: int, mem: int)
    requires cpu >= 1 && mem >= 1
    ensures TotalRoom(nodes + [node], cpu, mem) == TotalRoom(nodes, cpu, mem) + Room(node, cpu, mem)
  {
    assert (nodes + [node])[..|nodes|] == nodes;
  }

  lemma SchedulableOneMore(nodes: seq<Node>)
    requires nodes != []
    ensures var front, last := Schedulable(nodes[..|nodes| - 1]), nodes[|nodes| - 1];
      Schedulable(nodes) == if last.schedulable then front + [last] else front
  {
    FilterOfAppend(BySchedulable, nodes[..|nodes| - 1], nodes[|nodes| - 1]);
    assert nodes == nodes[..|nodes| - 1] + [nodes[|nodes| - 1]];
  }

  lemma {:induction false} RoomIsOnTheList(nodes: seq<Node>, cpu: int, mem: int)
    requires cpu >= 1 && mem >= 1
    ensures TotalRoom(Schedulable(nodes), cpu, mem) == RoomOnTheList(nodes, cpu, mem)
  {
    if nodes != [] {
      var front, last := nodes[..|nodes| - 1], nodes[|nodes| - 1];
      RoomIsOnTheList(front, cpu, mem);
      RoomOnOne(last, cpu, mem);
      SchedulableOneMore(nodes);
      TotalRoomOfAppend(Schedulable(front), last, cpu, mem);
    }
  }

  // ----- what Place does to each node of the list -----

  /** The node with the pods that were sent to it. */
  ghost function Charged(node: Node, cpu: int, mem: int): Node {
    node.(allocatedCPU := node.allocatedCPU + cpu, allocatedMem := node.allocatedMem + mem)
  }

  /**
   Where each of the pods goes: into the list, and only to schedulable nodes. Of each of these the result holds what
   it had and what was sent to it; the pods sent nowhere are those that come back.
   */
  lemma PackedOnTheList(nodes: seq<Node>, pods: seq<Pod>) returns (there: seq<int>)
    ensures |there| == |pods| && |Pack(Schedulable(nodes), pods).nodes| == |Positions(nodes)|
    ensures forall k :: 0 <= k < |there| && there[k] >= 0 ==> there[k] < |nodes| && nodes[there[k]].schedulable
    ensures forall n :: 0 <= n < |nodes| && nodes[n].schedulable ==>
      && Rank(nodes, n) < |Positions(nodes)|
      && Pack(Schedulable(nodes), pods).nodes[Rank(nodes, n)]
         == Charged(nodes[n], LoadCPU(pods, there, n), LoadMem(pods, there, n))
    ensures Pack(Schedulable(nodes), pods).unplaced == Left(pods, there)
  {
    var packed := Pack(Schedulable(nodes), pods);
    SchedulableAt(nodes);
    PackKeepsTheLedger(Schedulable(nodes), pods);
    there := OnTheList(nodes, packed.where);
    forall n | 0 <= n < |nodes| && nodes[n].schedulable
      ensures Rank(nodes, n) < |Positions(nodes)|
      ensures packed.nodes[Rank(nodes, n)] == Charged(nodes[n], LoadCPU(pods, there, n), LoadMem(pods, there, n))
    {
      RankIsThePlace(nodes, n);
      LoadOnTheList(nodes, pods, packed.where, n);
    }
    LeftAgrees(pods, packed.where, there);
  }

  lemma {:induction false} LeftAgrees(pods: seq<Pod>, a: seq<int>, b: seq<int>)
    requires |a| == |b| == |pods| && forall k :: 0 <= k < |pods| ==> (a[k] < 0 <==> b[k] < 0)
    ensures Left(pods, a) == Left(pods, b)
  {
    if pods != [] {
      LeftAgrees(pods[..|pods| - 1], a[..|pods| - 1], b[..|pods| - 1]);
    }
  }

  /** A cordoned node might as well not be there. */
  lemma CordonedNodesDoNotCount(before: seq<Node>, cordoned: Node, after: seq<Node>)
    requires !cordoned.schedulable
    ensures Schedulable(before + [cordoned] + after) == Schedulable(before + after)
  {
    FilterConcat(BySchedulable, before + [cordoned], after);
    FilterOfAppend(BySchedulable, before, cordoned);
    FilterConcat(BySchedulable, before, after);
  }

  // ----- what Place reports -----

  /** The pods from the largest cpu request to the smallest, and of one cpu request from the largest memory request. */
  lemma DecreasingIs(pods: seq<Pod>)
    ensures multiset(Decreasing(pods)) == multiset(pods)
    ensures var d := Decreasing(pods);
      forall i, j :: 0 <= i < j < |d| ==> d[i].cpu > d[j].cpu || (d[i].cpu == d[j].cpu && d[i].mem >= d[j].mem)
  {
    SortOrders(ByDecreasingSize, pods);
    var d := Decreasing(pods);
    forall i, j | 0 <= i < j < |d|
      ensures d[i].cpu > d[j].cpu || (d[i].cpu == d[j].cpu && d[i].mem >= d[j].mem)
    {
      assert !ByDecreasingSize(d[j], d[i]);
    }
  }

  /** And pods of one size in the order they came in. */
  lemma EqualPodsKeepTheirOrder(pods: seq<Pod>, cpu: int, mem: int)
    ensures Filter((p: Pod) => p.cpu == cpu && p.mem == mem, Decreasing(pods))
         == Filter((p: Pod) => p.cpu == cpu && p.mem == mem, pods)
  {
    SortIsStable(ByDecreasingSize, pods, (p: Pod) => p.cpu == cpu && p.mem == mem);
  }

  ghost predicate DistinctNames(nodes: seq<Node>) {
    forall i, j :: 0 <= i < j < |nodes| ==> nodes[i].name != nodes[j].name
  }

  lemma {:induction false} NamesOfNodes(nodes: seq<Node>, name: string)
    ensures name in NodesByName(nodes) <==> exists i :: 0 <= i < |nodes| && nodes[i].name == name
  {
    if nodes != [] {
      var front := nodes[..|nodes| - 1];
      NamesOfNodes(front, name);
      if i :| 0 <= i < |nodes| && nodes[i].name == name {
        assert i < |front| ==> front[i] == nodes[i];
      }
    }
  }

  /** Each node under its name, if no two have the same. */
  lemma {:induction false} NodesByNameIs(nodes: seq<Node>, i: nat)
    requires DistinctNames(nodes) && i < |nodes|
    ensures nodes[i].name in NodesByName(nodes) && NodesByName(nodes)[nodes[i].name] == nodes[i]
  {
    var front := nodes[..|nodes| - 1];
    if i < |front| {
      NodesByNameIs(front, i);
    }
  }

  lemma {:induction false} ExhaustedNamesAre(nodes: seq<Node>, exhausted: set<string>, name: string)
    ensures name in ExhaustedNames(nodes, exhausted) <==>
      name in exhausted && exists i :: 0 <= i < |nodes| && nodes[i].name == name
  {
    if nodes != [] {
      var front := nodes[..|nodes| - 1];
      ExhaustedNamesAre(front, exhausted, name);
      if i :| 0 <= i < |nodes| && nodes[i].name == name {
        assert i < |front| ==> front[i] == nodes[i];
      }
    }
  }

  /**
   What Place reports of nodes whose names differ: each schedulable one under its name, with what it had and what was
   sent to it, and no other.
   */
  lemma PlaceReports(nodes: seq<Node>, pods: seq<Pod>) returns (there: seq<int>)
    requires DistinctNames(nodes)
    ensures |there| == |pods|
    ensures forall k :: 0 <= k < |there| && there[k] >= 0 ==> there[k] < |nodes| && nodes[there[k]].schedulable
    ensures var free := NodesByName(Pack(Schedulable(nodes), pods).nodes);
      && (forall name ::
            name in free <==> exists n :: 0 <= n < |nodes| && nodes[n].schedulable && nodes[n].name == name)
      && (forall n :: 0 <= n < |nodes| && nodes[n].schedulable ==>
            nodes[n].name in free && free[nodes[n].name]
               == Charged(nodes[n], LoadCPU(pods, there, n), LoadMem(pods, there, n)))
  {
    var packed := Pack(Schedulable(nodes), pods);
    SchedulableAt(nodes);
    there := PackedOnTheList(nodes, pods);
    NamesStay(nodes, pods);
    forall name
      ensures name in NodesByName(packed.nodes) <==>
        exists n :: 0 <= n < |nodes| && nodes[n].schedulable && nodes[n].name == name
    {
      NamesOfSchedulable(nodes, pods, name);
    }
    forall n | 0 <= n < |nodes| && nodes[n].schedulable
      ensures nodes[n].name in NodesByName(packed.nodes)
        && NodesByName(packed.nodes)[nodes[n].name]
           == Charged(nodes[n], LoadCPU(pods, there, n), LoadMem(pods, there, n))
    {
      NodesByNameIs(packed.nodes, Rank(nodes, n));
    }
  }

  lemma NamesOfSchedulable(nodes: seq<Node>, pods: seq<Pod>, name: string)
    ensures name in NodesByName(Pack(Schedulable(nodes), pods).nodes) <==>
      exists n :: 0 <= n < |nodes| && nodes[n].schedulable && nodes[n].name == name
  {
    var packed := Pack(Schedulable(nodes), pods);
    SchedulableAt(nodes);
    NamesStay(nodes, pods);
    NamesOfNodes(packed.nodes, name);
    if n :| 0 <= n < |nodes| && nodes[n].schedulable && nodes[n].name == name {
      RankIsThePlace(nodes, n);
      assert packed.nodes[Rank(nodes, n)].name == name;
    }
    if i :| 0 <= i < |packed.nodes| && packed.nodes[i].name == name {
      assert nodes[Positions(nodes)[i]].name == name;
    }
  }

  // ----- the node that takes a pod -----

  /** What is left of a resource; of one that is given away twice, nothing. */
  function Spare(total: int, taken: int): int {
    if taken >= total then 0 else total - taken
  }

  /** As much cpu and as much memory is left as the pod asks for. */
  predicate CanTake(node: Node, pod: Pod) {
    && Spare(node.allocatableCPU, node.allocatedCPU) >= pod.cpu
    && Spare(node.allocatableMem, node.allocatedMem) >= pod.mem
  }

  /** A pod goes to the node with the least cpu left of those that can take it, to the first if there are several. */
  lemma TheTightestNodeTakesIt(nodes: seq<Node>, pod: Pod)
    ensures var best := BestFitIndex(nodes, pod);
      && (best == -1 <==> forall i :: 0 <= i < |nodes| ==> !CanTake(nodes[i], pod))
      && (best != -1 ==>
            && 0 <= best < |nodes| && CanTake(nodes[best], pod)
            && var cpu := Spare(nodes[best].allocatableCPU, nodes[best].allocatedCPU);
               forall i :: 0 <= i < |nodes| && CanTake(nodes[i], pod) ==>
                 cpu <= Spare(nodes[i].allocatableCPU, nodes[i].allocatedCPU)
                 && (i < best ==> cpu < Spare(nodes[i].allocatableCPU, nodes[i].allocatedCPU)))
  {
    assert forall i :: 0 <= i < |nodes| ==> (CanTake(nodes[i], pod) <==> Fits(nodes[i], pod));
  }

  /** No cpu or no memory is left of what is allocatable. */
  predicate FilledUp(node: Node) {
    node.allocatedCPU >= node.allocatableCPU || node.allocatedMem >= node.allocatableMem
  }

  lemma {:induction false} LoadIsAPod(pods: seq<Pod>, where: seq<int>, n: int)
    requires |where| == |pods| && forall k :: 0 <= k < |pods| ==> pods[k].cpu >= 1
    ensures LoadCPU(pods, where, n) >= 0 && (LoadCPU(pods, where, n) > 0 <==> n in where)
  {
    if pods != [] {
      var last := |pods| - 1;
      LoadIsAPod(pods[..last], where[..last], n);
      assert where == where[..last] + [where[last]];
    }
  }

  /**
   The nodes Place reports as exhausted: by name each schedulable node that got a pod and has no cpu or no memory left.
   (Pods that ask for something, nodes whose names differ.)
   */
  lemma ExhaustedOnTheList(nodes: seq<Node>, pods: seq<Pod>, there: seq<int>, n: nat)
    requires DistinctNames(nodes) && n < |nodes| && nodes[n].schedulable
    requires forall k :: 0 <= k < |pods| ==> pods[k].cpu >= 1 && pods[k].mem >= 1
    requires |there| == |pods| && |Pack(Schedulable(nodes), pods).nodes| == |Positions(nodes)|
    requires Rank(nodes, n) < |Positions(nodes)|
    requires Pack(Schedulable(nodes), pods).nodes[Rank(nodes, n)]
      == Charged(nodes[n], LoadCPU(pods, there, n), LoadMem(pods, there, n))
    ensures var packed := Pack(Schedulable(nodes), pods);
      nodes[n].name in Sort(ByName, ExhaustedNames(packed.nodes, packed.exhausted)) <==>
        n in there && FilledUp(Charged(nodes[n], LoadCPU(pods, there, n), LoadMem(pods, there, n)))
  {
    var packed, name := Pack(Schedulable(nodes), pods), nodes[n].name;
    var names := ExhaustedNames(packed.nodes, packed.exhausted);
    SchedulableAt(nodes);
    RankIsThePlace(nodes, n);
    NamesStay(nodes, pods);
    NamesOfSchedulableDiffer(nodes);
    ExhaustedMeansFilledUp(Schedulable(nodes), pods, Rank(nodes, n));
    ExhaustedNamesAre(packed.nodes, packed.exhausted, name);
    LoadIsAPod(pods, there, n);
    assert packed.nodes[Rank(nodes, n)].name == name;
    assert name in Sort(ByName, names) <==> name in multiset(Sort(ByName, names));
    assert name in names <==> name in multiset(names);
  }

  lemma NamesOfSchedulableDiffer(nodes: seq<Node>)
    requires DistinctNames(nodes)
    ensures DistinctNames(Schedulable(nodes))
  {
    SchedulableAt(nodes);
  }

  lemma NamesStay(nodes: seq<Node>, pods: seq<Pod>)
    ensures var packed := Pack(Schedulable(nodes), pods);
      && |packed.nodes| == |Positions(nodes)|
      && (forall i :: 0 <= i < |packed.nodes| ==>
            0 <= Positions(nodes)[i] < |nodes| && packed.nodes[i].name == nodes[Positions(nodes)[i]].name)
      && (DistinctNames(nodes) ==> DistinctNames(packed.nodes))
  {
    SchedulableAt(nodes);
    PackKeepsTheLedger(Schedulable(nodes), pods);
  }

  lemma ByNameIsStrictWeak()
    ensures StrictWeak(ByName)
  {
    forall x ensures !ByName(x, x) {
      LessIsIrreflexive(x);
    }
    forall x, y, z | ByName(x, y) && ByName(y, z) ensures ByName(x, z) {
      LessIsTransitive(x, y, z);
    }
    forall x, y, z | !ByName(x, y) && !ByName(y, z) ensures !ByName(x, z) {
      LessIsTotal(x, y);
      LessIsTotal(y, z);
      if ByName(x, z) && y != z {
        LessIsTransitive(x, z, y);
      }
    }
  }

  /** And they are reported in the order of their names. */
  lemma ExhaustedInOrder(nodes: seq<Node>, exhausted: set<string>, i: nat, j: nat)
    requires i < j < |Sort(ByName, ExhaustedNames(nodes, exhausted))|
    ensures var names := Sort(ByName, ExhaustedNames(nodes, exhausted));
      names[i] == names[j] || Less(names[i], names[j])
  {
    var names := Sort(ByName, ExhaustedNames(nodes, exhausted));
    ByNameIsStrictWeak();
    SortOrders(ByName, ExhaustedNames(nodes, exhausted));
    assert !ByName(names[j], names[i]);
    LessIsTotal(names[i], names[j]);
  }
}
