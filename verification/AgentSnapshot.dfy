/** The agent's cluster snapshot collector: the selected nodes with the GPUs that running pods on them request. */
module AgentSnapshot {
  import opened GoInt
  import opened Seqs
  import Ordering
  import opened Folds
  import Grouping
  import opened GroupTotals
  import opened Telemetry
  import opened FirstErrors
  import opened Kubernetes

  /** The GPU limit of a container: absent, an int64, or a quantity that does not fit one. */
  datatype Limit = NoLimit | Whole(count: Int64) | NotInt64

  datatype Pod = Pod(name: string, nodeName: string, running: bool, containers: seq<Limit>)

  datatype Load = Load(gpus: int, pods: int)

  const LOADS: Monoid<Load> := Monoid((a: Load, b: Load) => Load(a.gpus + b.gpus, a.pods + b.pods), Load(0, 0))

  lemma LoadsLawful()
    ensures Lawful(LOADS)
  {
  }

  // ----- nodes

  function LabelError(node: KubeNode, parse: string -> Option<Int64>): Option<Error>
  {
    if node.memoryLabel.Some? && parse(node.memoryLabel.value).None? then Some(BadMemoryLabel(node.memoryLabel.value))
    else None
  }

  function Bytes(mb: int): Int64
  {
    Wrap64(mb * 1024 * 1024)
  }

  /** The record of a node before any pod is counted. The memory label is in MB. */
  function RecordOf(node: KubeNode, parse: string -> Option<Int64>): SnapshotNode
  {
    SnapshotNode(node.name,
                 if node.gpuCapacity.Some? then Wrap32(node.gpuCapacity.value) else 0,
                 if node.memoryLabel.Some? && parse(node.memoryLabel.value).Some?
                 then Bytes(parse(node.memoryLabel.value).value) else 0,
                 Some(if node.productLabel.Some? then node.productLabel.value else "unknown"),
                 0, 0)
  }

  /** The records by node name; a later node of the same name replaces an earlier one. */
  ghost function Records(nodeList: seq<KubeNode>, parse: string -> Option<Int64>): map<string, SnapshotNode>
  {
    if nodeList == [] then map[]
    else
      var last := nodeList[|nodeList| - 1];
      Records(nodeList[..|nodeList| - 1], parse)[last.name := RecordOf(last, parse)]
  }

  /** Every node has a record under its name. */
  lemma {:induction false} NodeHasRecord(nodeList: seq<KubeNode>, parse: string -> Option<Int64>, i: nat)
    requires i < |nodeList|
    ensures nodeList[i].name in Records(nodeList, parse)
  {
    if i < |nodeList| - 1 {
      NodeHasRecord(nodeList[..|nodeList| - 1], parse, i);
    }
  }

  /** Every record is that of the last node that carries its name. */
  lemma {:induction false} RecordHasNode(nodeList: seq<KubeNode>, parse: string -> Option<Int64>, name: string)
    returns (i: nat)
    requires name in Records(nodeList, parse)
    ensures i < |nodeList| && nodeList[i].name == name
    ensures forall j :: i < j < |nodeList| ==> nodeList[j].name != name
    ensures Records(nodeList, parse)[name] == RecordOf(nodeList[i], parse)
  {
    hide RecordOf;
    if nodeList[|nodeList| - 1].name == name {
      i := |nodeList| - 1;
    } else {
      i := RecordHasNode(nodeList[..|nodeList| - 1], parse, name);
    }
  }

  method BuildNodes(nodeList: seq<KubeNode>, parse: string -> Option<Int64>)
    returns (r: Result<map<string, SnapshotNode>>)
    ensures FirstOf(n => LabelError(n, parse), nodeList) == if r.Failure? then Some(r.error) else None
    ensures r.Success? ==> r.value == Records(nodeList, parse)
  {
    var err := (n: KubeNode) => LabelError(n, parse);
    var nodesByName: map<string, SnapshotNode> := map[];
    assert nodeList[..0] == [];
    for i := 0 to |nodeList|
      invariant FirstOf(err, nodeList[..i]).None?
      invariant nodesByName == Records(nodeList[..i], parse)
    {
      var node := nodeList[i];
      FirstOfNext(err, nodeList, i);
      assert nodeList[..i + 1][..i] == nodeList[..i];
      var gpuMemory: Int64 := 0;
      if node.memoryLabel.Some? {
        var m := parse(node.memoryLabel.value);
        if m.None? {
          FirstOfPrefix(err, nodeList, i + 1);
          return Failure(BadMemoryLabel(node.memoryLabel.value));
        }
        gpuMemory := Bytes(m.value);
      }
      var gpuCapacity: Int32 := 0;
      if node.gpuCapacity.Some? {
        gpuCapacity := Wrap32(node.gpuCapacity.value);
      }
      var product := if node.productLabel.Some? then node.productLabel.value else "unknown";
      nodesByName := nodesByName[node.name := SnapshotNode(node.name, gpuCapacity, gpuMemory, Some(product), 0, 0)];
    }
    assert nodeList[..|nodeList|] == nodeList;
    r := Success(nodesByName);
  }

  // ----- pods

  function LimitSum(containers: seq<Limit>): int
  {
    if containers == [] then 0
    else
      var last := containers[|containers| - 1];
      LimitSum(containers[..|containers| - 1]) + if last.Whole? then last.count else 0
  }

  method RequestedGPUs(pod: Pod) returns (r: Result<Int64>)
    ensures r == if NotInt64 in pod.containers then Failure(BadQuantity(pod.name))
                 else Success(Wrap64(LimitSum(pod.containers)))
  {
    var total: Int64 := 0;
    for i := 0 to |pod.containers|
      invariant NotInt64 !in pod.containers[..i]
      invariant total == Wrap64(LimitSum(pod.containers[..i]))
    {
      var limit := pod.containers[i];
      assert pod.containers[..i + 1][..i] == pod.containers[..i];
      if limit.NoLimit? {
        continue;
      }
      if limit.NotInt64? {
        return Failure(BadQuantity(pod.name));
      }
      Wrap64Absorbs(LimitSum(pod.containers[..i]), limit.count);
      total := Wrap64(total + limit.count);
    }
    assert pod.containers[..|pod.containers|] == pod.containers;
    r := Success(total);
  }

  function PodError(pod: Pod): Option<Error>
  {
    if pod.running && NotInt64 in pod.containers then Some(BadQuantity(pod.name)) else None
  }

  /** A running pod with a non-zero request on a selected node. */
  predicate Counted(pod: Pod, nodes: set<string>)
  {
    pod.running && Wrap64(LimitSum(pod.containers)) != 0 && pod.nodeName in nodes
  }

  ghost function PlacementOf(pod: Pod): (string, Load)
  {
    (pod.nodeName, Load(Wrap64(LimitSum(pod.containers)), 1))
  }

  /** The counted pods, under the names of their nodes. */
  ghost function Placements(pods: seq<Pod>, nodes: set<string>): Grouping.Row<string, Load>
  {
    Map(PlacementOf, Filter(pod => Counted(pod, nodes), pods))
  }

  lemma PlacementsNext(pods: seq<Pod>, i: nat, nodes: set<string>)
    requires i < |pods|
    ensures Placements(pods[..i + 1], nodes)
            == if Counted(pods[i], nodes) then Placements(pods[..i], nodes) + [PlacementOf(pods[i])]
               else Placements(pods[..i], nodes)
  {
    hide Counted, PlacementOf;
    assert pods[..i + 1][..i] == pods[..i];
  }

  /** A node's record with the load of its counted pods. */
  ghost function Loaded(node: SnapshotNode, load: Load): SnapshotNode
  {
    node.(gpuOccupancy := Wrap32(load.gpus), podCount := Wrap32(load.pods))
  }

  ghost predicate Occupied(records: map<string, SnapshotNode>, pods: seq<Pod>, nodes: map<string, SnapshotNode>)
  {
    && nodes.Keys == records.Keys
    && forall name :: name in nodes ==>
         nodes[name] == Loaded(records[name], RowTotal(LOADS, Placements(pods, records.Keys), name))
  }

  /** The in-place update of a node by one pod. */
  function AddPod(node: SnapshotNode, v: Int64): SnapshotNode
  {
    node.(gpuOccupancy := Wrap32(node.gpuOccupancy + Wrap32(v)), podCount := Wrap32(node.podCount + 1))
  }

  method CountPods(records: map<string, SnapshotNode>, pods: seq<Pod>) returns (r: Result<map<string, SnapshotNode>>)
    requires forall name :: name in records ==> records[name].gpuOccupancy == 0 && records[name].podCount == 0
    ensures FirstOf(PodError, pods) == if r.Failure? then Some(r.error) else None
    ensures r.Success? ==> Occupied(records, pods, r.value)
  {
    var nodesByName := records;
    assert pods[..0] == [];
    NothingPlaced(records);
    hide *;
    for i := 0 to |pods|
      invariant FirstOf(PodError, pods[..i]).None?
      invariant Occupied(records, pods[..i], nodesByName)
    {
      var pod := pods[i];
      FirstOfNext(PodError, pods, i);
      PodErrorIs(pod);
      Place(records, pods, i, nodesByName);
      if !pod.running {
        continue;
      }
      var v := RequestedGPUs(pod);
      if v.Failure? {
        FirstOfPrefix(PodError, pods, i + 1);
        return Failure(v.error);
      }
      if v.value == 0 {
        continue;
      }
      if pod.nodeName !in nodesByName {
        continue;
      }
      nodesByName := nodesByName[pod.nodeName := AddPod(nodesByName[pod.nodeName], v.value)];
    }
    assert pods[..|pods|] == pods;
    r := Success(nodesByName);
  }

  lemma PodErrorIs(pod: Pod)
    ensures PodError(pod) == if pod.running && NotInt64 in pod.containers then Some(BadQuantity(pod.name)) else None
  {
  }

  lemma NothingPlaced(records: map<string, SnapshotNode>)
    requires forall name :: name in records ==> records[name].gpuOccupancy == 0 && records[name].podCount == 0
    ensures Occupied(records, [], records)
  {
  }

  /** What the next pod does to the nodes. */
  lemma Place(records: map<string, SnapshotNode>, pods: seq<Pod>, i: nat, nodes: map<string, SnapshotNode>)
    requires i < |pods| && Occupied(records, pods[..i], nodes)
    ensures var (pod, v) := (pods[i], Wrap64(LimitSum(pods[i].containers)));
            if !pod.running || v == 0 || pod.nodeName !in nodes then Occupied(records, pods[..i + 1], nodes)
            else Occupied(records, pods[..i + 1], nodes[pod.nodeName := AddPod(nodes[pod.nodeName], v)])
  {
    hide LimitSum, RowTotal, Lawful, Wrap32, Wrap64, Placements;
    PlacementsNext(pods, i, records.Keys);
    var pod, v := pods[i], Wrap64(LimitSum(pods[i].containers));
    if Counted(pod, records.Keys) {
      var before := Placements(pods[..i], records.Keys);
      LoadsLawful();
      forall name ensures RowTotal(LOADS, before + [(pod.nodeName, Load(v, 1))], name)
                          == if name == pod.nodeName
                             then Load(RowTotal(LOADS, before, name).gpus + v, RowTotal(LOADS, before, name).pods + 1)
                             else RowTotal(LOADS, before, name)
      {
        RowTotalAddEntry(LOADS, before, (pod.nodeName, Load(v, 1)), name);
      }
      var load := RowTotal(LOADS, before, pod.nodeName);
      WrapBoth(load.gpus, v);
      Wrap32Absorbs(load.pods, 1);
    }
  }

  lemma WrapBoth(a: int, b: int)
    ensures Wrap32(Wrap32(a) + Wrap32(b)) == Wrap32(a + b)
  {
    Wrap32Absorbs(a, Wrap32(b));
    Wrap32Absorbs(b, a);
  }

  // ----- the snapshot

  /** The snapshot has one record for every selected node name, loaded with its counted pods, in the order in which
      the names come; a bad label is reported before any bad pod. */
  method BuildSnapshot(nodeList: seq<KubeNode>, pods: seq<Pod>, parse: string -> Option<Int64>)
    returns (r: Result<Snapshot>, ghost names: seq<string>)
    ensures var bad := FirstOf(n => LabelError(n, parse), nodeList);
            (if bad.Some? then bad else FirstOf(PodError, pods)) == if r.Failure? then Some(r.error) else None
    ensures r.Success? ==> SnapshotOf(Records(nodeList, parse), pods, names, r.value)
  {
    names := [];
    var nodes := BuildNodes(nodeList, parse);
    if nodes.Failure? {
      return Failure(nodes.error), names;
    }
    RecordsUnloaded(nodeList, parse);
    var counted := CountPods(nodes.value, pods);
    if counted.Failure? {
      return Failure(counted.error), names;
    }
    hide RowTotal, Placements, Records, FirstOf, Loaded;
    var list := Ordering.Enumerate(counted.value.Keys);
    names := list;
    assert forall i :: 0 <= i < |list| ==> list[i] in Ordering.Elements(list);
    r := Success(Snapshot(seq(|list|, i requires 0 <= i < |list| => counted.value[list[i]])));
  }

  lemma {:induction false} RecordsUnloaded(nodeList: seq<KubeNode>, parse: string -> Option<Int64>)
    ensures forall name :: name in Records(nodeList, parse) ==>
              var n := Records(nodeList, parse)[name]; n.name == name && n.gpuOccupancy == 0 && n.podCount == 0
  {
    if nodeList != [] {
      RecordsUnloaded(nodeList[..|nodeList| - 1], parse);
    }
  }

  ghost predicate SnapshotOf(records: map<string, SnapshotNode>, pods: seq<Pod>, names: seq<string>, s: Snapshot)
  {
    && Ordering.Distinct(names) && Ordering.Elements(names) == records.Keys
    && |s.nodes| == |names|
    && forall i :: 0 <= i < |names| ==>
         names[i] in records
         && s.nodes[i] == Loaded(records[names[i]], RowTotal(LOADS, Placements(pods, records.Keys), names[i]))
  }

  // ----- conservation

  ghost function LoadOf(node: SnapshotNode): Load
  {
    Load(node.gpuOccupancy, node.podCount)
  }

  ghost function WrapLoad(load: Load): Load
  {
    Load(Wrap32(load.gpus), Wrap32(load.pods))
  }

  lemma WrapLoads(a: Load, b: Load)
    ensures WrapLoad(LOADS.plus(WrapLoad(a), WrapLoad(b))) == WrapLoad(LOADS.plus(a, b))
    ensures WrapLoad(LOADS.zero) == LOADS.zero
  {
    WrapBoth(a.gpus, b.gpus);
    WrapBoth(a.pods, b.pods);
  }

  lemma {:induction false} WrappedSum(loads: seq<Load>, wrapped: seq<Load>)
    requires |loads| == |wrapped| && forall i :: 0 <= i < |loads| ==> wrapped[i] == WrapLoad(loads[i])
    ensures WrapLoad(Sum(LOADS, wrapped)) == WrapLoad(Sum(LOADS, loads))
    decreases |loads|
  {
    hide WrapLoad;
    if loads != [] {
      var init, init' := loads[..|loads| - 1], wrapped[..|loads| - 1];
      WrappedSum(init, init');
      WrapLoads(Sum(LOADS, init), loads[|loads| - 1]);
      WrapLoads(Sum(LOADS, init'), wrapped[|loads| - 1]);
      WrapIdempotent(loads[|loads| - 1]);
    }
  }

  lemma WrapIdempotent(a: Load)
    ensures WrapLoad(WrapLoad(a)) == WrapLoad(a)
  {
  }

  lemma PlacementsOnNodes(pods: seq<Pod>, nodes: set<string>)
    ensures Grouping.RowKeys(Placements(pods, nodes)) <= nodes
  {
    hide PlacementOf, Counted;
    var counted := Filter(pod => Counted(pod, nodes), pods);
    forall j | 0 <= j < |counted| ensures Placements(pods, nodes)[j].0 in nodes {
      assert counted[j] in counted;
      CountedOnNode(counted[j], nodes);
    }
  }

  lemma CountedOnNode(pod: Pod, nodes: set<string>)
    requires Counted(pod, nodes)
    ensures PlacementOf(pod).0 in nodes
  {
  }

  /** Over all nodes of a snapshot the GPU occupancies add up to the requests of the counted pods, and the pod
      counts to their number, in int32 arithmetic; exactly so if no node's load overflows an int32. */
  lemma OccupancyConserved(records: map<string, SnapshotNode>, pods: seq<Pod>, names: seq<string>, s: Snapshot)
    requires SnapshotOf(records, pods, names, s)
    ensures WrapLoad(Sum(LOADS, Map(LoadOf, s.nodes)))
            == WrapLoad(Sum(LOADS, Map(EntryValue, Placements(pods, records.Keys))))
    ensures (forall name :: name in records ==>
               var load := RowTotal(LOADS, Placements(pods, records.Keys), name); WrapLoad(load) == load) ==>
              Sum(LOADS, Map(LoadOf, s.nodes)) == Sum(LOADS, Map(EntryValue, Placements(pods, records.Keys)))
  {
    hide Placements, RowTotal, Sum, Lawful, SumAlong, Ordering.Distinct, Ordering.Elements, Grouping.RowKeys, Wrap32;
    var row := Placements(pods, records.Keys);
    LoadsLawful();
    PlacementsOnNodes(pods, records.Keys);
    var totals := RowConservesListed(LOADS, row, names);
    WrappedSum(totals, Map(LoadOf, s.nodes));
    if forall name :: name in records ==> WrapLoad(RowTotal(LOADS, row, name)) == RowTotal(LOADS, row, name) {
      assert Map(LoadOf, s.nodes) == totals;
    }
  }

  /** The snapshot does not depend on the order of the pod list. */
  lemma PodOrderIndependent(records: map<string, SnapshotNode>, pods: seq<Pod>, pods': seq<Pod>, names: seq<string>,
                            s: Snapshot)
    requires multiset(pods) == multiset(pods')
    requires SnapshotOf(records, pods, names, s)
    ensures SnapshotOf(records, pods', names, s)
  {
    hide PlacementOf, Counted, Sum, Grouping.Of, Lawful;
    var nodes := records.Keys;
    FilterPermutes(pod => Counted(pod, nodes), pods, pods');
    MapPermutes(PlacementOf, Filter(pod => Counted(pod, nodes), pods), Filter(pod => Counted(pod, nodes), pods'));
    hide Placements;
    LoadsLawful();
    forall name
      ensures RowTotal(LOADS, Placements(pods, nodes), name) == RowTotal(LOADS, Placements(pods', nodes), name)
    {
      Grouping.OfPermutes(Placements(pods, nodes), Placements(pods', nodes), name);
      SumPermutes(LOADS, Grouping.Of(Placements(pods, nodes), name), Grouping.Of(Placements(pods', nodes), name));
    }
    hide RowTotal, Loaded;
  }

  // ----- the snapshot read off its inputs

  ghost function Requested(limit: Limit): int
  {
    if limit.Whole? then limit.count else 0
  }

  /** A pod's request is the sum of the GPU limits of its containers. */
  lemma {:induction false} LimitSumIsSum(containers: seq<Limit>)
    ensures LimitSum(containers) == SumBy(Requested, containers)
  {
    if containers != [] {
      LimitSumIsSum(containers[..|containers| - 1]);
    }
  }

  ghost function RequestOf(pod: Pod): int
  {
    Wrap64(SumBy(Requested, pod.containers))
  }

  ghost predicate RunsOn(pod: Pod, name: string)
  {
    pod.running && pod.nodeName == name
  }

  /** The load of a node: the sum of the requests of the running pods on it, and the number of those that request
      any. */
  lemma {:induction false} NodeLoad(pods: seq<Pod>, nodes: set<string>, name: string)
    requires name in nodes
    ensures var load := RowTotal(LOADS, Placements(pods, nodes), name);
            && load.gpus == SumBy(RequestOf, Filter((pod: Pod) => RunsOn(pod, name), pods))
            && load.pods == |Filter((pod: Pod) => RunsOn(pod, name) && RequestOf(pod) != 0, pods)|
    decreases |pods|
  {
    hide *;
    if pods == [] {
      NoLoad(nodes, name);
    } else {
      var init, pod := pods[..|pods| - 1], pods[|pods| - 1];
      NodeLoad(init, nodes, name);
      LoadNext(pods, nodes, name);
      RequestsNext(pods, name);
    }
  }

  lemma NoLoad(nodes: set<string>, name: string)
    ensures RowTotal(LOADS, Placements([], nodes), name) == Load(0, 0)
    ensures SumBy(RequestOf, Filter((pod: Pod) => RunsOn(pod, name), [])) == 0
    ensures Filter((pod: Pod) => RunsOn(pod, name) && RequestOf(pod) != 0, []) == []
  {
  }

  /** What the last pod adds to the load of a node. */
  lemma LoadNext(pods: seq<Pod>, nodes: set<string>, name: string)
    requires pods != [] && name in nodes
    ensures var (init, pod) := (pods[..|pods| - 1], pods[|pods| - 1]);
            var before := RowTotal(LOADS, Placements(init, nodes), name);
            RowTotal(LOADS, Placements(pods, nodes), name)
            == if RunsOn(pod, name) && RequestOf(pod) != 0
               then Load(before.gpus + RequestOf(pod), before.pods + 1) else before
  {
    hide RowTotal, Lawful, Wrap64, Placements, LimitSum, SumBy;
    var init, pod := pods[..|pods| - 1], pods[|pods| - 1];
    assert pods[..|pods| - 1 + 1] == pods;
    LimitSumIsSum(pod.containers);
    PlacementsNext(pods, |pods| - 1, nodes);
    LoadsLawful();
    RowTotalAddEntry(LOADS, Placements(init, nodes), PlacementOf(pod), name);
  }

  /** What the last pod adds to the requests and pods of a node. */
  lemma RequestsNext(pods: seq<Pod>, name: string)
    requires pods != []
    ensures var (init, pod) := (pods[..|pods| - 1], pods[|pods| - 1]);
            && SumBy(RequestOf, Filter((q: Pod) => RunsOn(q, name), pods))
               == SumBy(RequestOf, Filter((q: Pod) => RunsOn(q, name), init))
                  + (if RunsOn(pod, name) then RequestOf(pod) else 0)
            && |Filter((q: Pod) => RunsOn(q, name) && RequestOf(q) != 0, pods)|
               == |Filter((q: Pod) => RunsOn(q, name) && RequestOf(q) != 0, init)|
                  + (if RunsOn(pod, name) && RequestOf(pod) != 0 then 1 else 0)
  {
    hide RunsOn, RequestOf;
    var init, pod := pods[..|pods| - 1], pods[|pods| - 1];
    SumByMeaning(RequestOf, Filter((q: Pod) => RunsOn(q, name), init), [pod], pod);
    hide SumBy;
  }

  /** The record of a listed node: GPU capacity, memory in bytes from the label in MB, and product. */
  ghost predicate Describes(s: SnapshotNode, node: KubeNode, parse: string -> Option<Int64>)
  {
    && s.name == node.name
    && s.gpuCapacity == (match node.gpuCapacity case None => 0 case Some(c) => Wrap32(c))
    && (match node.memoryLabel
        case None => s.memoryCapacity == 0
        case Some(text) => parse(text).Some? ==> s.memoryCapacity == Wrap64(1_048_576 * (parse(text).value as int)))
    && s.product == (match node.productLabel case None => Some("unknown") case Some(p) => Some(p))
  }

  /** Every node of a snapshot is the last listed one of its name, described by its own capacity and labels, and
      occupied by the requests of the running pods on it. */
  lemma SnapshotIsOfInputs(nodeList: seq<KubeNode>, pods: seq<Pod>, parse: string -> Option<Int64>, names: seq<string>,
                           s: Snapshot, k: nat) returns (i: nat)
    requires SnapshotOf(Records(nodeList, parse), pods, names, s) && k < |s.nodes|
    ensures i < |nodeList| && forall j :: i < j < |nodeList| ==> nodeList[j].name != nodeList[i].name
    ensures names[k] == nodeList[i].name && Describes(s.nodes[k], nodeList[i], parse)
    ensures s.nodes[k].gpuOccupancy
            == Wrap32(SumBy(RequestOf, Filter((pod: Pod) => RunsOn(pod, names[k]), pods)))
    ensures s.nodes[k].podCount
            == Wrap32(|Filter((pod: Pod) => RunsOn(pod, names[k]) && RequestOf(pod) != 0, pods)|)
  {
    hide Records, RowTotal, Placements, SumBy, RunsOn, RequestOf, Wrap32, Wrap64, Ordering.Distinct, Ordering.Elements;
    i := RecordHasNode(nodeList, parse, names[k]);
    NodeLoad(pods, Records(nodeList, parse).Keys, names[k]);
  }
}
