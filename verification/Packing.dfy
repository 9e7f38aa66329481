/**
 The best-fit-decreasing packer behind the scheduler simulation (internal/simulate/packing.go).
 */
module Packing {
  import opened Text
  import opened StableSort

  function Max64(a: int, b: int): int {
    if a > b then a else b
  }

  function Min(a: int, b: int): int {
    if a < b then a else b
  }

  datatype Node = Node(
    name: string,
    allocatableCPU: int, allocatableMem: int,
    allocatedCPU: int, allocatedMem: int,
    schedulable: bool, unschedulableBy: string)
  {
    function FreeCPU(): (free: int)
      ensures 0 <= free
    {
      Max64(allocatableCPU - allocatedCPU, 0)
    }

    function FreeMem(): (free: int)
      ensures 0 <= free
    {
      Max64(allocatableMem - allocatedMem, 0)
    }

    function Charge(pod: Pod): Node {
      this.(allocatedCPU := allocatedCPU + pod.cpu, allocatedMem := allocatedMem + pod.mem)
    }

    predicate Spent() {
      FreeCPU() == 0 || FreeMem() == 0
    }
  }

  datatype Pod = Pod(name: string, cpu: int, mem: int)

  datatype Placement = Placement(
    placed: int, unplaced: seq<Pod>, nodesExhausted: seq<string>, freeAfter: map<string, Node>)

  // ----- bestFit -----

  predicate Fits(node: Node, pod: Pod) {
    !(node.FreeCPU() < pod.cpu || node.FreeMem() < pod.mem)
  }

  function Slack(node: Node, pod: Pod): int {
    node.FreeCPU() - pod.cpu
  }

  /** `best` is the first of the tightest nodes the pod fits on, or -1 when it fits on none. */
  ghost predicate IsBestFit(nodes: seq<Node>, pod: Pod, best: int) {
    && -1 <= best < |nodes|
    && (best == -1 ==> forall i | 0 <= i < |nodes| :: !Fits(nodes[i], pod))
    && (best >= 0 ==> Fits(nodes[best], pod))
    && (best >= 0 ==> forall i | 0 <= i < |nodes| && Fits(nodes[i], pod) ::
          Slack(nodes[best], pod) < Slack(nodes[i], pod)
          || (Slack(nodes[best], pod) == Slack(nodes[i], pod) && best <= i))
  }

  function BestFitIndex(nodes: seq<Node>, pod: Pod): (best: int)
    ensures IsBestFit(nodes, pod, best)
  {
    if nodes == [] then -1
    else
      var last := |nodes| - 1;
      var best := BestFitIndex(nodes[..last], pod);
      if Fits(nodes[last], pod) && (best < 0 || Slack(nodes[last], pod) < Slack(nodes[best], pod)) then last else best
  }

  lemma BestFitIsUnique(nodes: seq<Node>, pod: Pod, a: int, b: int)
    requires IsBestFit(nodes, pod, a) && IsBestFit(nodes, pod, b)
    ensures a == b
  {
    assert a >= 0 ==> Fits(nodes[a], pod);
    assert b >= 0 ==> Fits(nodes[b], pod);
  }

  method BestFit(nodes: seq<Node>, pod: Pod) returns (best: int)
    ensures IsBestFit(nodes, pod, best)
    ensures best == BestFitIndex(nodes, pod)
  {
    best := -1;
    var bestSlack := 0;
    for i := 0 to |nodes|
      invariant IsBestFit(nodes[..i], pod, best)
      invariant best >= 0 ==> bestSlack == Slack(nodes[best], pod)
    {
      var node := nodes[i];
      if node.FreeCPU() < pod.cpu || node.FreeMem() < pod.mem {
        continue;
      }
      var slack := node.FreeCPU() - pod.cpu;
      if best < 0 || slack < bestSlack {
        best, bestSlack := i, slack;
      }
    }
    assert nodes[..|nodes|] == nodes;
    BestFitIsUnique(nodes, pod, best, BestFitIndex(nodes, pod));
  }

  // ----- the packing loop -----

  /** What the loop of Place has done: the nodes it charged, where each pod went (-1: nowhere), and the rest. */
  datatype Packed = Packed(nodes: seq<Node>, where: seq<int>, placed: int, unplaced: seq<Pod>, exhausted: set<string>)

  function PackOne(before: Packed, pod: Pod): Packed {
    var at := BestFitIndex(before.nodes, pod);
    if at < 0 then before.(where := before.where + [-1], unplaced := before.unplaced + [pod])
    else
      var node := before.nodes[at].Charge(pod);
      before.(nodes := before.nodes[at := node], where := before.where + [at], placed := before.placed + 1,
              exhausted := before.exhausted + if node.Spent() then {node.name} else {})
  }

  function Pack(nodes: seq<Node>, pods: seq<Pod>): (r: Packed)
    ensures |r.nodes| == |nodes| && |r.where| == |pods|
    ensures r.placed + |r.unplaced| == |pods|
    ensures forall i | 0 <= i < |pods| :: -1 <= r.where[i] < |nodes|
  {
    if pods == [] then Packed(nodes, [], 0, [], {})
    else PackOne(Pack(nodes, pods[..|pods| - 1]), pods[|pods| - 1])
  }

  lemma PackStep(nodes: seq<Node>, pods: seq<Pod>, k: nat)
    requires k < |pods|
    ensures Pack(nodes, pods[..k + 1]) == PackOne(Pack(nodes, pods[..k]), pods[k])
  {
    assert pods[..k + 1][..k] == pods[..k];
  }

  predicate PodBefore(a: Pod, b: Pod) {
    if a.cpu != b.cpu then a.cpu > b.cpu else a.mem > b.mem
  }

  const ByDecreasingSize: (Pod, Pod) -> bool := (a, b) => PodBefore(a, b)
  const BySchedulable: Node -> bool := (node: Node) => node.schedulable

  function Schedulable(nodes: seq<Node>): seq<Node> {
    Filter(BySchedulable, nodes)
  }

  function Decreasing(pods: seq<Pod>): seq<Pod> {
    Sort(ByDecreasingSize, pods)
  }

  const ByName: (string, string) -> bool := (a, b) => Less(a, b)

  function ExhaustedNames(nodes: seq<Node>, exhausted: set<string>): seq<string> {
    if nodes == [] then []
    else
      var last := nodes[|nodes| - 1];
      ExhaustedNames(nodes[..|nodes| - 1], exhausted) + if last.name in exhausted then [last.name] else []
  }

  function NodesByName(nodes: seq<Node>): map<string, Node> {
    if nodes == [] then map[]
    else NodesByName(nodes[..|nodes| - 1])[nodes[|nodes| - 1].name := nodes[|nodes| - 1]]
  }

  /** The first loop of Place: the nodes that take pods. */
  method Uncordoned(nodes: seq<Node>) returns (remaining: seq<Node>)
    ensures remaining == Schedulable(nodes)
  {
    remaining := [];
    for i := 0 to |nodes|
      invariant remaining == Schedulable(nodes[..i])
    {
      assert nodes[..i + 1][..i] == nodes[..i];
      if !nodes[i].schedulable {
        continue;
      }
      remaining := remaining + [nodes[i]];
    }
    assert nodes[..|nodes|] == nodes;
  }

  /** Its last loop: what is left on the nodes, and the names of the exhausted ones. */
  method Report(remaining: seq<Node>, exhausted: set<string>) returns (freeAfter: map<string, Node>, names: seq<string>)
    ensures freeAfter == NodesByName(remaining) && names == ExhaustedNames(remaining, exhausted)
  {
    freeAfter, names := map[], [];
    for i := 0 to |remaining|
      invariant freeAfter == NodesByName(remaining[..i])
      invariant names == ExhaustedNames(remaining[..i], exhausted)
    {
      assert remaining[..i + 1][..i] == remaining[..i];
      freeAfter := freeAfter[remaining[i].name := remaining[i]];
      if remaining[i].name in exhausted {
        names := names + [remaining[i].name];
      }
    }
    assert remaining[..|remaining|] == remaining;
  }

  method Place(nodes: seq<Node>, pods: seq<Pod>) returns (placement: Placement)
    ensures var packed := Pack(Schedulable(nodes), Decreasing(pods));
            && placement.placed == packed.placed
            && placement.unplaced == packed.unplaced
            && placement.nodesExhausted == Sort(ByName, ExhaustedNames(packed.nodes, packed.exhausted))
            && placement.freeAfter == NodesByName(packed.nodes)
  {
    var remaining := Uncordoned(nodes);
    var ordered := Decreasing(pods);
    var placed, unplaced, exhausted := 0, [], {};
    ghost var where: seq<int> := [];
    ghost var start := remaining;

    for k := 0 to |ordered|
      invariant Packed(remaining, where, placed, unplaced, exhausted) == Pack(start, ordered[..k])
    {
      PackStep(start, ordered, k);
      var pod := ordered[k];
      var index := BestFit(remaining, pod);
      if index < 0 {
        unplaced := unplaced + [pod];
        where := where + [-1];
        continue;
      }
      remaining := remaining[index := remaining[index].Charge(pod)];
      placed := placed + 1;
      where := where + [index];
      if remaining[index].FreeCPU() == 0 || remaining[index].FreeMem() == 0 {
        exhausted := exhausted + {remaining[index].name};
      }
    }
    assert ordered[..|ordered|] == ordered;

    var freeAfter, names := Report(remaining, exhausted);
    placement := Placement(placed, unplaced, Sort(ByName, names), freeAfter);
  }
}
