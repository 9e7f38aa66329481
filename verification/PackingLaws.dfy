/**
 What the packer guarantees: it accounts for every pod, it never overfills a node, it gives up on a pod
 only when no node has room, and on pods of one size no other placement does better.
 */
module PackingLaws {
  import opened Text
  import opened StableSort
  import opened Packing

  // ----- assignments -----

  ghost function LoadCPU(pods: seq<Pod>, where: seq<int>, n: int): int
    requires |where| == |pods|
  {
    if pods == [] then 0
    else
      var last := |pods| - 1;
      LoadCPU(pods[..last], where[..last], n) + if where[last] == n then pods[last].cpu else 0
  }

  ghost function LoadMem(pods: seq<Pod>, where: seq<int>, n: int): int
    requires |where| == |pods|
  {
    if pods == [] then 0
    else
      var last := |pods| - 1;
      LoadMem(pods[..last], where[..last], n) + if where[last] == n then pods[last].mem else 0
  }

  /** The pods an assignment sends nowhere, in order. */
  ghost function Left(pods: seq<Pod>, where: seq<int>): seq<Pod>
    requires |where| == |pods|
  {
    if pods == [] then []
    else
      var last := |pods| - 1;
      Left(pods[..last], where[..last]) + if where[last] < 0 then [pods[last]] else []
  }

  /** An assignment of pods to nodes (-1: left out) that no node's free capacity contradicts. */
  ghost predicate Respects(nodes: seq<Node>, pods: seq<Pod>, where: seq<int>) {
    && |where| == |pods|
    && (forall i | 0 <= i < |where| :: -1 <= where[i] < |nodes|)
    && (forall n | 0 <= n < |nodes| ::
          LoadCPU(pods, where, n) <= nodes[n].FreeCPU() && LoadMem(pods, where, n) <= nodes[n].FreeMem())
  }

  ghost predicate Full(where: seq<int>) {
    forall i | 0 <= i < |where| :: where[i] >= 0
  }

  ghost function PlacedCount(where: seq<int>): nat {
    if where == [] then 0
    else PlacedCount(where[..|where| - 1]) + if where[|where| - 1] >= 0 then 1 else 0
  }

  ghost predicate NonNegative(pods: seq<Pod>) {
    forall i | 0 <= i < |pods| :: pods[i].cpu >= 0 && pods[i].mem >= 0
  }

  // ----- bookkeeping on any pods -----

  ghost predicate Ledger(nodes: seq<Node>, pods: seq<Pod>, r: Packed) {
    && |r.nodes| == |nodes| && |r.where| == |pods|
    && (forall n | 0 <= n < |nodes| :: r.nodes[n] == nodes[n].(
          allocatedCPU := nodes[n].allocatedCPU + LoadCPU(pods, r.where, n),
          allocatedMem := nodes[n].allocatedMem + LoadMem(pods, r.where, n)))
    && r.unplaced == Left(pods, r.where)
    && r.placed == PlacedCount(r.where)
  }

  lemma LoadsOfAppend(pods: seq<Pod>, pod: Pod, where: seq<int>, at: int, n: int)
    requires |where| == |pods|
    ensures LoadCPU(pods + [pod], where + [at], n) == LoadCPU(pods, where, n) + if at == n then pod.cpu else 0
    ensures LoadMem(pods + [pod], where + [at], n) == LoadMem(pods, where, n) + if at == n then pod.mem else 0
  {
    assert (pods + [pod])[..|pods|] == pods && (where + [at])[..|where|] == where;
  }

  lemma LeftOfAppend(pods: seq<Pod>, pod: Pod, where: seq<int>, at: int)
    requires |where| == |pods|
    ensures Left(pods + [pod], where + [at]) == Left(pods, where) + if at < 0 then [pod] else []
    ensures PlacedCount(where + [at]) == PlacedCount(where) + if at >= 0 then 1 else 0
  {
    assert (pods + [pod])[..|pods|] == pods && (where + [at])[..|where|] == where;
  }

  lemma PackOneKeepsTheLedger(nodes: seq<Node>, pods: seq<Pod>, r: Packed, pod: Pod)
    requires Ledger(nodes, pods, r)
    ensures Ledger(nodes, pods + [pod], PackOne(r, pod))
  {
    var at := BestFitIndex(r.nodes, pod);
    LeftOfAppend(pods, pod, r.where, at);
    LeftOfAppend(pods, pod, r.where, -1);
    forall n | 0 <= n < |nodes|
      ensures LoadCPU(pods + [pod], r.where + [at], n) == LoadCPU(pods, r.where, n) + if at == n then pod.cpu else 0
      ensures LoadMem(pods + [pod], r.where + [at], n) == LoadMem(pods, r.where, n) + if at == n then pod.mem else 0
      ensures LoadCPU(pods + [pod], r.where + [-1], n) == LoadCPU(pods, r.where, n)
      ensures LoadMem(pods + [pod], r.where + [-1], n) == LoadMem(pods, r.where, n)
    {
      LoadsOfAppend(pods, pod, r.where, at, n);
      LoadsOfAppend(pods, pod, r.where, -1, n);
    }
  }

  /** A node ends up exactly as charged with the pods sent to it; the rest come back in order. */
  lemma {:induction false} PackKeepsTheLedger(nodes: seq<Node>, pods: seq<Pod>)
    ensures Ledger(nodes, pods, Pack(nodes, pods))
  {
    if pods != [] {
      PackKeepsTheLedger(nodes, pods[..|pods| - 1]);
      PackOneKeepsTheLedger(nodes, pods[..|pods| - 1], Pack(nodes, pods[..|pods| - 1]), pods[|pods| - 1]);
      assert pods == pods[..|pods| - 1] + [pods[|pods| - 1]];
    }
  }

  ghost function SumCPU(pods: seq<Pod>): int {
    if pods == [] then 0 else SumCPU(pods[..|pods| - 1]) + pods[|pods| - 1].cpu
  }

  ghost function SumMem(pods: seq<Pod>): int {
    if pods == [] then 0 else SumMem(pods[..|pods| - 1]) + pods[|pods| - 1].mem
  }

  ghost function Allocated(nodes: seq<Node>): (int, int) {
    if nodes == [] then (0, 0)
    else
      var rest, last := Allocated(nodes[..|nodes| - 1]), nodes[|nodes| - 1];
      (rest.0 + last.allocatedCPU, rest.1 + last.allocatedMem)
  }

  lemma {:induction false} AllocatedAfterCharge(nodes: seq<Node>, at: nat, pod: Pod)
    requires at < |nodes|
    ensures var charged := nodes[at := nodes[at].Charge(pod)];
            && Allocated(charged).0 == Allocated(nodes).0 + pod.cpu
            && Allocated(charged).1 == Allocated(nodes).1 + pod.mem
  {
    var last := |nodes| - 1;
    var charged := nodes[at := nodes[at].Charge(pod)];
    if at < last {
      AllocatedAfterCharge(nodes[..last], at, pod);
      assert charged[..last] == nodes[..last][at := nodes[at].Charge(pod)];
    } else {
      assert charged[..last] == nodes[..last];
    }
  }

  /** Nothing is lost: what the nodes gained plus what came back unplaced is what was asked for. */
  lemma {:induction false} PackConserves(nodes: seq<Node>, pods: seq<Pod>)
    ensures var r := Pack(nodes, pods);
            && Allocated(r.nodes).0 + SumCPU(r.unplaced) == Allocated(nodes).0 + SumCPU(pods)
            && Allocated(r.nodes).1 + SumMem(r.unplaced) == Allocated(nodes).1 + SumMem(pods)
  {
    if pods != [] {
      var last := |pods| - 1;
      PackConserves(nodes, pods[..last]);
      var before := Pack(nodes, pods[..last]);
      var at := BestFitIndex(before.nodes, pods[last]);
      if at >= 0 {
        AllocatedAfterCharge(before.nodes, at, pods[last]);
      } else {
        assert (before.unplaced + [pods[last]])[..|before.unplaced|] == before.unplaced;
      }
    }
  }

  /** No allocation shrinks, and none grows past what the node had or may have. */
  ghost predicate Grown(before: Node, after: Node) {
    && before.allocatedCPU <= after.allocatedCPU <= Max64(before.allocatedCPU, before.allocatableCPU)
    && before.allocatedMem <= after.allocatedMem <= Max64(before.allocatedMem, before.allocatableMem)
  }

  /** As the node was, only with more on it. */
  ghost predicate Filled(before: Node, after: Node) {
    && Grown(before, after)
    && after.allocatableCPU == before.allocatableCPU && after.allocatableMem == before.allocatableMem
  }

  lemma OneMoreFilled(nodes: seq<Node>, before: Packed, pod: Pod)
    requires pod.cpu >= 0 && pod.mem >= 0 && |before.nodes| == |nodes|
    requires forall n | 0 <= n < |nodes| :: Filled(nodes[n], before.nodes[n])
    ensures forall n | 0 <= n < |nodes| :: Filled(nodes[n], PackOne(before, pod).nodes[n])
  {
    var at := BestFitIndex(before.nodes, pod);
    if at >= 0 {
      assert Filled(nodes[at], before.nodes[at].Charge(pod));
    }
  }

  lemma {:induction false} PackFills(nodes: seq<Node>, pods: seq<Pod>)
    requires NonNegative(pods)
    ensures forall n | 0 <= n < |nodes| :: Filled(nodes[n], Pack(nodes, pods).nodes[n])
  {
    if pods != [] {
      PackFills(nodes, pods[..|pods| - 1]);
      OneMoreFilled(nodes, Pack(nodes, pods[..|pods| - 1]), pods[|pods| - 1]);
    }
  }

  lemma PackNeverOverfills(nodes: seq<Node>, pods: seq<Pod>)
    requires NonNegative(pods)
    ensures forall n | 0 <= n < |nodes| :: Filled(nodes[n], Pack(nodes, pods).nodes[n])
    ensures Respects(nodes, pods, Pack(nodes, pods).where)
  {
    PackKeepsTheLedger(nodes, pods);
    PackFills(nodes, pods);
  }

  /** A pod comes back only if, even at the end, it fits on no node. */
  lemma {:induction false} UnplacedFitsNowhere(nodes: seq<Node>, pods: seq<Pod>, u: nat, n: nat)
    requires NonNegative(pods)
    requires u < |Pack(nodes, pods).unplaced| && n < |nodes|
    ensures !Fits(Pack(nodes, pods).nodes[n], Pack(nodes, pods).unplaced[u])
  {
    var last := |pods| - 1;
    var before := Pack(nodes, pods[..last]);
    if u < |before.unplaced| {
      UnplacedFitsNowhere(nodes, pods[..last], u, n);
      var at := BestFitIndex(before.nodes, pods[last]);
      assert at < 0 || pods[last].cpu >= 0;
    }
  }

  // ----- pods of one size -----

  ghost predicate Identical(pods: seq<Pod>, cpu: int, mem: int) {
    forall i | 0 <= i < |pods| :: pods[i].cpu == cpu && pods[i].mem == mem
  }

  /** How many pods of one size a node still has room for. */
  ghost function Room(node: Node, cpu: int, mem: int): int
    requires cpu >= 1 && mem >= 1
  {
    Min(node.FreeCPU() / cpu, node.FreeMem() / mem)
  }

  ghost function TotalRoom(nodes: seq<Node>, cpu: int, mem: int): int
    requires cpu >= 1 && mem >= 1
  {
    if nodes == [] then 0
    else TotalRoom(nodes[..|nodes| - 1], cpu, mem) + Room(nodes[|nodes| - 1], cpu, mem)
  }

  lemma Quotient(f: int, c: int, q: int, r: int)
    requires c >= 1 && 0 <= r < c && f == q * c + r
    ensures f / c == q
  {
    var d := f / c - q;
    assert f == (f / c) * c + f % c;
    assert d * c == r - f % c by {
      assert (f / c) * c == q * c + d * c;
    }
    assert -1 < d < 1 by {
      assert d >= 1 ==> d * c >= c;
      assert d <= -1 ==> d * c <= -c;
    }
  }

  lemma DivideStep(f: int, c: int)
    requires f >= 0 && c >= 1
    ensures f / c >= 0
    ensures f < c <==> f / c == 0
    ensures f >= c ==> (f - c) / c == f / c - 1
  {
    var q, r := f / c, f % c;
    assert (q - 1) * c == q * c - c;
    Quotient(f - c, c, q - 1, r);
    if f < c {
      Quotient(f, c, 0, f);
    }
  }

  lemma MultipleFits(k: int, c: int, f: int)
    requires k >= 0 && c >= 1 && k * c <= f
    ensures k <= f / c
  {
    var d := k - f / c;
    assert f == (f / c) * c + f % c;
    assert k * c == (f / c) * c + d * c;
    assert d >= 1 ==> d * c >= c;
  }

  lemma RoomOfOne(node: Node, pod: Pod)
    requires pod.cpu >= 1 && pod.mem >= 1
    ensures Room(node, pod.cpu, pod.mem) >= 0
    ensures Fits(node, pod) <==> Room(node, pod.cpu, pod.mem) >= 1
    ensures Fits(node, pod) ==> Room(node.Charge(pod), pod.cpu, pod.mem) == Room(node, pod.cpu, pod.mem) - 1
  {
    DivideStep(node.FreeCPU(), pod.cpu);
    DivideStep(node.FreeMem(), pod.mem);
  }

  lemma {:induction false} RoomAfterCharge(nodes: seq<Node>, at: nat, pod: Pod)
    requires at < |nodes| && pod.cpu >= 1 && pod.mem >= 1 && Fits(nodes[at], pod)
    ensures TotalRoom(nodes[at := nodes[at].Charge(pod)], pod.cpu, pod.mem) == TotalRoom(nodes, pod.cpu, pod.mem) - 1
  {
    var last := |nodes| - 1;
    var charged := nodes[at := nodes[at].Charge(pod)];
    RoomOfOne(nodes[at], pod);
    if at < last {
      RoomAfterCharge(nodes[..last], at, pod);
      assert charged[..last] == nodes[..last][at := nodes[at].Charge(pod)];
    } else {
      assert charged[..last] == nodes[..last];
    }
  }

  lemma {:induction false} NoRoomAnywhere(nodes: seq<Node>, pod: Pod)
    requires pod.cpu >= 1 && pod.mem >= 1
    ensures TotalRoom(nodes, pod.cpu, pod.mem) >= 0
    ensures (forall i | 0 <= i < |nodes| :: !Fits(nodes[i], pod)) ==> TotalRoom(nodes, pod.cpu, pod.mem) == 0
  {
    if nodes != [] {
      NoRoomAnywhere(nodes[..|nodes| - 1], pod);
      RoomOfOne(nodes[|nodes| - 1], pod);
    }
  }

  /** The greedy loop places as many pods as there is room for, node by node. */
  lemma {:induction false} GreedyFillsAllRoom(nodes: seq<Node>, pods: seq<Pod>, cpu: int, mem: int)
    requires cpu >= 1 && mem >= 1 && Identical(pods, cpu, mem)
    ensures Pack(nodes, pods).placed == Min(|pods|, TotalRoom(nodes, cpu, mem))
    ensures TotalRoom(Pack(nodes, pods).nodes, cpu, mem) == TotalRoom(nodes, cpu, mem) - Pack(nodes, pods).placed
  {
    NoRoomAnywhere(nodes, Pod("", cpu, mem));
    if pods != [] {
      var last := |pods| - 1;
      var before, pod := Pack(nodes, pods[..last]), pods[last];
      GreedyFillsAllRoom(nodes, pods[..last], cpu, mem);
      var at := BestFitIndex(before.nodes, pod);
      NoRoomAnywhere(before.nodes, pod);
      if at >= 0 {
        RoomAfterCharge(before.nodes, at, pod);
        NoRoomAnywhere(before.nodes[at := before.nodes[at].Charge(pod)], pod);
      }
    }
  }

  ghost function CountAt(where: seq<int>, n: int): nat {
    if where == [] then 0
    else CountAt(where[..|where| - 1], n) + if where[|where| - 1] == n then 1 else 0
  }

  ghost function CountBelow(where: seq<int>, k: nat): nat {
    if k == 0 then 0 else CountBelow(where, k - 1) + CountAt(where, k - 1)
  }

  lemma {:induction false} LoadOfIdentical(pods: seq<Pod>, where: seq<int>, n: int, cpu: int, mem: int)
    requires |where| == |pods| && Identical(pods, cpu, mem)
    ensures LoadCPU(pods, where, n) == CountAt(where, n) * cpu
    ensures LoadMem(pods, where, n) == CountAt(where, n) * mem
  {
    if pods != [] {
      var last := |pods| - 1;
      LoadOfIdentical(pods[..last], where[..last], n, cpu, mem);
    }
  }

  lemma {:induction false} CountBelowStep(where: seq<int>, k: nat)
    requires where != []
    ensures CountBelow(where, k) == CountBelow(where[..|where| - 1], k) + if 0 <= where[|where| - 1] < k then 1 else 0
  {
    if k > 0 {
      CountBelowStep(where, k - 1);
    }
  }

  lemma {:induction false} CountBelowNothing(k: nat)
    ensures CountBelow([], k) == 0
  {
    if k > 0 {
      CountBelowNothing(k - 1);
    }
  }

  lemma {:induction false} CountsAddUp(where: seq<int>, k: nat)
    requires forall i | 0 <= i < |where| :: where[i] < k
    ensures PlacedCount(where) == CountBelow(where, k)
  {
    if where == [] {
      CountBelowNothing(k);
    } else {
      CountsAddUp(where[..|where| - 1], k);
      CountBelowStep(where, k);
    }
  }

  lemma {:induction false} CountsFitRoom(nodes: seq<Node>, pods: seq<Pod>, where: seq<int>, k: nat, cpu: int, mem: int)
    requires cpu >= 1 && mem >= 1 && Identical(pods, cpu, mem) && Respects(nodes, pods, where) && k <= |nodes|
    ensures CountBelow(where, k) <= TotalRoom(nodes[..k], cpu, mem)
  {
    if k > 0 {
      CountsFitRoom(nodes, pods, where, k - 1, cpu, mem);
      LoadOfIdentical(pods, where, k - 1, cpu, mem);
      MultipleFits(CountAt(where, k - 1), cpu, nodes[k - 1].FreeCPU());
      MultipleFits(CountAt(where, k - 1), mem, nodes[k - 1].FreeMem());
      assert nodes[..k][..k - 1] == nodes[..k - 1];
    }
  }

  /** No placement that respects the nodes puts more pods of one size down than the greedy loop. */
  lemma GreedyIsOptimal(nodes: seq<Node>, pods: seq<Pod>, where: seq<int>, cpu: int, mem: int)
    requires cpu >= 1 && mem >= 1 && Identical(pods, cpu, mem) && Respects(nodes, pods, where)
    ensures PlacedCount(where) <= Pack(nodes, pods).placed
  {
    CountsAddUp(where, |nodes|);
    CountsFitRoom(nodes, pods, where, |nodes|, cpu, mem);
    assert nodes[..|nodes|] == nodes;
    GreedyFillsAllRoom(nodes, pods, cpu, mem);
    PlacedAtMostAll(where);
  }

  lemma {:induction false} PlacedAtMostAll(where: seq<int>)
    ensures PlacedCount(where) <= |where|
    ensures PlacedCount(where) == |where| <==> Full(where)
  {
    if where != [] {
      var rest := where[..|where| - 1];
      PlacedAtMostAll(rest);
      assert Full(where) <==> Full(rest) && where[|where| - 1] >= 0 by {
        assert forall i | 0 <= i < |rest| :: rest[i] == where[i];
      }
    }
  }

  ghost predicate Placeable(nodes: seq<Node>, pods: seq<Pod>) {
    exists where :: Respects(nodes, pods, where) && Full(where)
  }

  /** Nothing is left over exactly when some placement of all the pods exists. */
  lemma NothingLeftIffPlaceable(nodes: seq<Node>, pods: seq<Pod>, cpu: int, mem: int)
    requires cpu >= 1 && mem >= 1 && Identical(pods, cpu, mem)
    ensures Pack(nodes, pods).unplaced == [] <==> Placeable(nodes, pods)
  {
    var r := Pack(nodes, pods);
    PackNeverOverfills(nodes, pods);
    PackKeepsTheLedger(nodes, pods);
    PlacedAtMostAll(r.where);
    if where :| Respects(nodes, pods, where) && Full(where) {
      GreedyIsOptimal(nodes, pods, where, cpu, mem);
      PlacedAtMostAll(where);
    }
  }

  /** A node is reported exhausted exactly when it took a pod and ran out of cpu or memory. */
  lemma {:induction false} ExhaustedMeansFilledUp(nodes: seq<Node>, pods: seq<Pod>, n: nat)
    requires forall i | 0 <= i < |pods| :: pods[i].cpu >= 1 && pods[i].mem >= 1
    requires forall i, j | 0 <= i < j < |nodes| :: nodes[i].name != nodes[j].name
    requires n < |nodes|
    ensures var after := Pack(nodes, pods).nodes[n];
            && after.name == nodes[n].name
            && nodes[n].allocatedCPU <= after.allocatedCPU
            && (nodes[n].name in Pack(nodes, pods).exhausted <==>
                  after.Spent() && after.allocatedCPU > nodes[n].allocatedCPU)
  {
    if pods != [] {
      var last := |pods| - 1;
      var before := Pack(nodes, pods[..last]);
      ExhaustedMeansFilledUp(nodes, pods[..last], n);
      var at := BestFitIndex(before.nodes, pods[last]);
      if at >= 0 {
        ExhaustedMeansFilledUp(nodes, pods[..last], at);
      }
    }
  }

  /**
   On pods of different sizes the greedy answer can miss a full placement: four pods of 4, 3, 3 and 3
   on nodes with 7 and 6 free. This is why the guarantee above is about pods of one size.
   */
  lemma GreedyCanMissAPlacement()
    ensures var nodes := [Node("a", 7, 0, 0, 0, true, ""), Node("b", 6, 0, 0, 0, true, "")];
            var pods := [Pod("w", 4, 0), Pod("x", 3, 0), Pod("y", 3, 0), Pod("z", 3, 0)];
            && Ordered(ByDecreasingSize, pods)
            && |Pack(nodes, pods).unplaced| == 1
            && Placeable(nodes, pods)
  {
    var a, b := Node("a", 7, 0, 0, 0, true, ""), Node("b", 6, 0, 0, 0, true, "");
    var pods := [Pod("w", 4, 0), Pod("x", 3, 0), Pod("y", 3, 0), Pod("z", 3, 0)];
    FourPacked(a, b, pods);
    ItAllFits(a, b, pods);
  }

  lemma FourPacked(a: Node, b: Node, pods: seq<Pod>)
    requires a.FreeCPU() == a.allocatableCPU - a.allocatedCPU == 7
      && b.FreeCPU() == b.allocatableCPU - b.allocatedCPU == 6
    requires a.FreeMem() == b.FreeMem() == 0
    requires |pods| == 4 && pods[0].cpu == 4 && pods[1].cpu == pods[2].cpu == pods[3].cpu == 3
    requires pods[0].mem == pods[1].mem == pods[2].mem == pods[3].mem == 0
    ensures |Pack([a, b], pods).unplaced| == 1
  {
    var b1, a1 := b.Charge(pods[0]), a.Charge(pods[1]);
    var a2 := a1.Charge(pods[2]);
    assert pods[..0] == [] && pods[..4] == pods;
    PlacedOnTwo([a, b], pods, 0, a, b, 1);
    PlacedOnTwo([a, b], pods, 1, a, b1, 0);
    PlacedOnTwo([a, b], pods, 2, a1, b1, 0);
    PlacedOnTwo([a, b], pods, 3, a2, b1, -1);
  }

  /** One pod, with two nodes to choose from. */
  lemma PlacedOnTwo(nodes: seq<Node>, pods: seq<Pod>, k: nat, a: Node, b: Node, best: int)
    requires k < |pods| && Pack(nodes, pods[..k]).nodes == [a, b]
    requires best == (if Fits(a, pods[k]) && (!Fits(b, pods[k]) || Slack(a, pods[k]) <= Slack(b, pods[k])) then 0
                      else if Fits(b, pods[k]) then 1 else -1)
    ensures Pack(nodes, pods[..k + 1]).nodes
         == [if best == 0 then a.Charge(pods[k]) else a, if best == 1 then b.Charge(pods[k]) else b]
    ensures |Pack(nodes, pods[..k + 1]).unplaced| == |Pack(nodes, pods[..k]).unplaced| + if best < 0 then 1 else 0
  {
    TightOfTwo(a, b, pods[k], best);
    var _ := PackStepAt(nodes, pods, k, [a, b], best);
  }

  lemma TightOfTwo(a: Node, b: Node, pod: Pod, best: int)
    requires best == (if Fits(a, pod) && (!Fits(b, pod) || Slack(a, pod) <= Slack(b, pod)) then 0
                      else if Fits(b, pod) then 1 else -1)
    ensures IsBestFit([a, b], pod, best)
  {
    assert [a, b][0] == a && [a, b][1] == b;
  }

  /** One step of the loop, told which node is the best fit. */
  lemma PackStepAt(nodes: seq<Node>, pods: seq<Pod>, k: nat, now: seq<Node>, best: int) returns (next: seq<Node>)
    requires k < |pods| && Pack(nodes, pods[..k]).nodes == now
    requires IsBestFit(now, pods[k], best)
    ensures next == if best < 0 then now else now[best := now[best].Charge(pods[k])]
    ensures Pack(nodes, pods[..k + 1]).nodes == next
    ensures |Pack(nodes, pods[..k + 1]).unplaced| == |Pack(nodes, pods[..k]).unplaced| + if best < 0 then 1 else 0
  {
    PackStep(nodes, pods, k);
    BestFitIs(now, pods[k], best);
    next := Pack(nodes, pods[..k + 1]).nodes;
  }

  lemma ItAllFits(a: Node, b: Node, pods: seq<Pod>)
    requires a == Node("a", 7, 0, 0, 0, true, "") && b == Node("b", 6, 0, 0, 0, true, "")
    requires pods == [Pod("w", 4, 0), Pod("x", 3, 0), Pod("y", 3, 0), Pod("z", 3, 0)]
    ensures Placeable([a, b], pods)
  {
    var where := [0, 0, 1, 1];
    LoadOfFour(pods, where, 0);
    LoadOfFour(pods, where, 1);
    assert Respects([a, b], pods, where) && Full(where);
  }

  lemma LoadOfFour(pods: seq<Pod>, where: seq<int>, n: int)
    requires |pods| == |where| == 4
    ensures LoadCPU(pods, where, n)
         == (if where[0] == n then pods[0].cpu else 0) + (if where[1] == n then pods[1].cpu else 0)
          + (if where[2] == n then pods[2].cpu else 0) + (if where[3] == n then pods[3].cpu else 0)
    ensures LoadMem(pods, where, n)
         == (if where[0] == n then pods[0].mem else 0) + (if where[1] == n then pods[1].mem else 0)
          + (if where[2] == n then pods[2].mem else 0) + (if where[3] == n then pods[3].mem else 0)
  {
    LoadStep(pods, where, 0, n);
    LoadStep(pods, where, 1, n);
    LoadStep(pods, where, 2, n);
    LoadStep(pods, where, 3, n);
    assert pods[..4] == pods && where[..4] == where;
  }

  lemma LoadStep(pods: seq<Pod>, where: seq<int>, k: nat, n: int)
    requires |where| == |pods| && k < |pods|
    ensures LoadCPU(pods[..k + 1], where[..k + 1], n)
         == LoadCPU(pods[..k], where[..k], n) + if where[k] == n then pods[k].cpu else 0
    ensures LoadMem(pods[..k + 1], where[..k + 1], n)
         == LoadMem(pods[..k], where[..k], n) + if where[k] == n then pods[k].mem else 0
  {
    assert pods[..k + 1][..k] == pods[..k] && where[..k + 1][..k] == where[..k];
  }

  lemma BestFitIs(nodes: seq<Node>, pod: Pod, best: int)
    requires IsBestFit(nodes, pod, best)
    ensures BestFitIndex(nodes, pod) == best
  {
    BestFitIsUnique(nodes, pod, best, BestFitIndex(nodes, pod));
  }
}
