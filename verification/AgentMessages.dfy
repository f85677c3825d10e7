/** What the GPU telemetry messages of the agent say about the samples and nodes they are made from. */
module AgentMessages {
  import opened GoInt
  import Seqs
  import opened Ordering
  import opened Folds
  import opened Telemetry
  import opened Samples
  import opened AgentGpu
  import opened Kubernetes
  import GpuTheorems
  import GpuResponses
  import GpuValues

  /** What the collector reads: the selected nodes and the samples of both metrics. */
  datatype Reading = Reading(nodeList: seq<KubeNode>, util: SamplesByKey, memory: SamplesByKey)

  /** Every pod-labelled list has samples; Prometheus returns no empty series. */
  ghost predicate NoEmptySeries(samples: SamplesByKey)
  {
    forall k :: k in samples && k.pod != "" ==> samples[k] != []
  }

  /** The node of a host in the message, read off the samples. */
  ghost function NodeFrom(r: Reading, toInt64: real -> Int64, host: string): GpuNode
  {
    var node := NodeOfHost(r.nodeList, host);
    MessageNode(if node.Some? then node.value else "", TotalsOf(r.util, host), TotalsOf(r.memory, host), toInt64)
  }

  ghost predicate Selected(r: Reading, host: string)
  {
    NodeOfHost(r.nodeList, host).Some? && (host in Hosts(r.util.Keys) || host in Hosts(r.memory.Keys))
  }

  /** `g` has exactly one node for every selected host with samples, in some order, with the figures of the
      samples: a function of the reading alone, whatever the order of map iterations. */
  ghost predicate MessageOf(r: Reading, toInt64: real -> Int64, g: GpuTelemetry)
  {
    exists hosts :: MessageAlong(r, toInt64, g, hosts)
  }

  ghost predicate MessageAlong(r: Reading, toInt64: real -> Int64, g: GpuTelemetry, hosts: seq<string>)
  {
    && Distinct(hosts)
    && (forall h :: h in Elements(hosts) <==> Selected(r, h))
    && g.nodes == Seqs.Map(h => NodeFrom(r, toInt64, h), hosts)
  }

  lemma NodeAt(r: Reading, toInt64: real -> Int64, g: GpuTelemetry, hosts: seq<string>, n: GpuNode) returns (i: nat)
    requires MessageAlong(r, toInt64, g, hosts) && n in g.nodes
    ensures i < |hosts| && n == NodeFrom(r, toInt64, hosts[i])
  {
    i :| 0 <= i < |g.nodes| && g.nodes[i] == n;
    hide NodeFrom, Selected, Distinct, Elements;
  }

  method Collect(r: Reading, toInt64: real -> Int64) returns (g: GpuTelemetry)
    requires NoEmptySeries(r.util) && NoEmptySeries(r.memory)
    ensures MessageOf(r, toInt64, g)
  {
    hide *;
    var nodesByHostname := BuildHostnameToNodes(r.nodeList);
    var gpuUtilByHost := BuildSampleMapByHost(r.util);
    var gpuMemUsedByHost := BuildSampleMapByHost(r.memory);
    TimesNotEmpty(r.util, gpuUtilByHost);
    TimesNotEmpty(r.memory, gpuMemUsedByHost);
    g := BuildGPUTelemetryMessage(gpuUtilByHost, gpuMemUsedByHost, nodesByHostname, toInt64);
    IsMessage(r, toInt64, g, gpuUtilByHost, gpuMemUsedByHost, nodesByHostname);
  }

  lemma TimesNotEmpty(samples: SamplesByKey, byHost: ByHost)
    requires NoEmptySeries(samples) && Regrouped(samples, samples.Keys, byHost)
    ensures forall h :: h in byHost ==> byHost[h] != map[]
  {
    hide SumOver, Sum, ValuesAt;
    forall h | h in byHost ensures byHost[h] != map[] {
      var k :| k in samples && k.pod != "" && k.hostname == h;
      assert k in PodKeys(samples.Keys, h) && samples[k][0] in samples[k];
      TotalDetermined(samples, byHost, h, samples[k][0].timestamp);
    }
  }

  lemma TotalsAgree(samples: SamplesByKey, byHost: ByHost, h: string)
    requires Regrouped(samples, samples.Keys, byHost)
    ensures TotalsOn(byHost, h) == TotalsOf(samples, h)
    ensures h in byHost <==> h in Hosts(samples.Keys)
  {
    TotalsDetermined(samples, byHost, h);
    hide SumOver, Sum, ValuesAt;
    assert forall k :: k in PodKeys(samples.Keys, h) ==> k.hostname in Hosts(samples.Keys);
    if h !in byHost {
      assert PodKeys(samples.Keys, h) == {};
      assert Times(samples, h) == {};
    }
  }

  lemma IsMessage(r: Reading, toInt64: real -> Int64, g: GpuTelemetry, util: ByHost, memory: ByHost,
                  nodes: map<string, string>)
    requires Regrouped(r.util, r.util.Keys, util) && Regrouped(r.memory, r.memory.Keys, memory)
    requires forall h :: NodeOfHost(r.nodeList, h) == if h in nodes then Some(nodes[h]) else None
    requires BuiltFrom(util, memory, nodes, toInt64, g)
    ensures MessageOf(r, toInt64, g)
  {
    hide TotalsOf, TotalsOn, MessageNode, Regrouped, NodeOfHost, Distinct, Elements, Hosts;
    var hosts :|
      && Distinct(hosts)
      && Elements(hosts) == (util.Keys + memory.Keys) * nodes.Keys
      && g.nodes == Seqs.Map(h => NodeOn(h, util, memory, nodes, toInt64), hosts);
    forall h ensures NodeOn(h, util, memory, nodes, toInt64) == NodeFrom(r, toInt64, h)
      ensures h in Elements(hosts) <==> Selected(r, h)
    {
      TotalsAgree(r.util, util, h);
      TotalsAgree(r.memory, memory, h);
    }
    hide NodeOn, NodeFrom, Selected;
    assert g.nodes == Seqs.Map(h => NodeFrom(r, toInt64, h), hosts);
    assert MessageAlong(r, toInt64, g, hosts);
  }

  // ----- averages and maxima

  /** The memory figures of every host, in bytes, fit an int64. */
  ghost predicate MemoryFits(r: Reading)
  {
    forall h :: var m := MaxAvg(TotalsOf(r.memory, h)); FitsInt64(m.0 * MB) && FitsInt64(m.1 * MB)
  }

  lemma TruncatedMonotone(x: real, y: real)
    requires x <= y
    ensures Truncated(x) <= Truncated(y)
  {
  }

  lemma AverageBelowMaximum(totals: map<int, real>)
    ensures MaxAvg(totals).1 <= MaxAvg(totals).0 && 0.0 <= MaxAvg(totals).0
  {
    hide Peak, Average;
    PeakMeaning(totals, if totals == map[] then 0.0 else Peak(totals));
  }

  lemma NodeConsistent(r: Reading, toInt64: real -> Int64, h: string)
    requires Conversion(toInt64) && MemoryFits(r)
    ensures GpuTheorems.Consistent(GpuValues.UsageOf(NodeFrom(r, toInt64, h)))
  {
    hide TotalsOf, MaxAvg, NodeOfHost, Truncated;
    var m := MaxAvg(TotalsOf(r.memory, h));
    assert FitsInt64(m.0 * MB) && FitsInt64(m.1 * MB);
    AverageBelowMaximum(TotalsOf(r.util, h));
    AverageBelowMaximum(TotalsOf(r.memory, h));
    TruncatedMonotone(m.1 * MB, m.0 * MB);
  }

  lemma {:induction false} DistinctAt<T>(s: seq<T>, i: nat, j: nat)
    requires Distinct(s) && i < j < |s|
    ensures s[i] != s[j]
  {
    DistinctPrefix(s, j);
    assert s[i] == s[..j][i];
  }

  lemma NameFrom(r: Reading, toInt64: real -> Int64, h: string)
    requires Selected(r, h)
    ensures NodeOfHost(r.nodeList, h) == Some(NodeFrom(r, toInt64, h).name)
  {
  }

  /** The agent's messages are well-formed: with distinct node names no node is repeated, and no average exceeds
      its maximum, through time averaging, unit conversion and truncation. */
  lemma MessagesAreWellFormed(r: Reading, toInt64: real -> Int64, g: GpuTelemetry)
    requires MessageOf(r, toInt64, g)
    requires DistinctNames(r.nodeList) && Conversion(toInt64) && MemoryFits(r)
    ensures GpuResponses.WellFormed(g)
  {
    var hosts :| MessageAlong(r, toInt64, g, hosts);
    hide *;
    forall i, j | 0 <= i < j < |g.nodes| ensures g.nodes[i].name != g.nodes[j].name {
      NamesDifferAlong(r, toInt64, g, hosts, i, j);
    }
    forall n | n in g.nodes ensures GpuTheorems.Consistent(GpuValues.UsageOf(n)) {
      var i := NodeAt(r, toInt64, g, hosts, n);
      NodeConsistent(r, toInt64, hosts[i]);
    }
    IsWellFormed(g);
  }

  lemma IsWellFormed(g: GpuTelemetry)
    requires forall i, j :: 0 <= i < j < |g.nodes| ==> g.nodes[i].name != g.nodes[j].name
    requires forall n :: n in g.nodes ==> GpuTheorems.Consistent(GpuValues.UsageOf(n))
    ensures GpuResponses.WellFormed(g)
  {
    hide GpuTheorems.Consistent;
  }

  lemma NamesDifferAlong(r: Reading, toInt64: real -> Int64, g: GpuTelemetry, hosts: seq<string>, i: nat, j: nat)
    requires MessageAlong(r, toInt64, g, hosts) && DistinctNames(r.nodeList) && i < j < |g.nodes|
    ensures g.nodes[i].name != g.nodes[j].name
  {
    hide NodeFrom, Selected, Distinct, Elements, DistinctNames;
    NamesDiffer(r, toInt64, hosts, i, j);
  }

  lemma NamesDiffer(r: Reading, toInt64: real -> Int64, hosts: seq<string>, i: nat, j: nat)
    requires Distinct(hosts) && (forall h :: h in Elements(hosts) <==> Selected(r, h))
    requires DistinctNames(r.nodeList) && i < j < |hosts|
    ensures NodeFrom(r, toInt64, hosts[i]).name != NodeFrom(r, toInt64, hosts[j]).name
  {
    hide DistinctNames, Distinct, Selected, NodeFrom, NodeOfHost;
    DistinctAt(hosts, i, j);
    assert hosts[i] in Elements(hosts) && hosts[j] in Elements(hosts);
    NameFrom(r, toInt64, hosts[i]);
    NameFrom(r, toInt64, hosts[j]);
    if NodeOfHost(r.nodeList, hosts[i]) == NodeOfHost(r.nodeList, hosts[j]) {
      SelectedHasNode(r, hosts[i]);
      HostsHaveDifferentNodes(r.nodeList, hosts[i], hosts[j]);
    }
  }

  lemma SelectedHasNode(r: Reading, h: string)
    requires Selected(r, h)
    ensures NodeOfHost(r.nodeList, h).Some?
  {
  }

  // ----- samples that are not negative

  ghost predicate NonNegativeSamples(samples: SamplesByKey)
  {
    forall k, s :: k in samples && s in samples[k] ==> s.value >= 0.0
  }

  lemma RealsClosed(p: real -> bool)
    requires forall x :: p(x) <==> x >= 0.0
    ensures Closed(REALS, p)
  {
  }

  lemma {:induction false} ValuesNonNegative(ss: seq<Sample>, t: int, x: real)
    requires forall s :: s in ss ==> s.value >= 0.0
    requires x in ValuesAt(ss, t)
    ensures x >= 0.0
    decreases |ss|
  {
    var init, last := ss[..|ss| - 1], ss[|ss| - 1];
    assert last in ss && forall s :: s in init ==> s in ss;
    if x in ValuesAt(init, t) {
      ValuesNonNegative(init, t, x);
    }
  }

  lemma TotalNonNegative(samples: SamplesByKey, host: string, t: int)
    requires NonNegativeSamples(samples)
    ensures ObservedTotal(samples, samples.Keys, host, t) >= 0.0
  {
    hide Sum, SumOver, Closed, ValuesAt;
    var p := (x: real) => x >= 0.0;
    RealsClosed(p);
    forall k | k in samples ensures p(SumsAt(samples, t)[k]) {
      forall x | x in ValuesAt(samples[k], t) ensures p(x) {
        ValuesNonNegative(samples[k], t, x);
      }
      SumSatisfies(REALS, p, ValuesAt(samples[k], t));
    }
    SumOverSatisfies(REALS, p, SumsAt(samples, t), PodKeys(samples.Keys, host));
  }

  lemma AverageNonNegative(samples: SamplesByKey, host: string)
    requires NonNegativeSamples(samples)
    ensures MaxAvg(TotalsOf(samples, host)).1 >= 0.0
  {
    hide SumOver, Closed, ObservedTotal, Peak;
    var p := (x: real) => x >= 0.0;
    var totals := TotalsOf(samples, host);
    RealsClosed(p);
    forall t | t in totals ensures p(totals[t]) {
      TotalNonNegative(samples, host, t);
    }
    SumOverSatisfies(REALS, p, totals, totals.Keys);
    if totals != map[] {
      assert |totals| as real > 0.0;
    }
  }

  /** From samples that are not negative come memory averages that are not negative. */
  lemma MessagesAreNonNegative(r: Reading, toInt64: real -> Int64, g: GpuTelemetry)
    requires MessageOf(r, toInt64, g)
    requires Conversion(toInt64) && MemoryFits(r) && NonNegativeSamples(r.memory)
    ensures forall n :: n in g.nodes ==> n.avgMemoryUsed >= 0
  {
    var hosts :| MessageAlong(r, toInt64, g, hosts);
    hide *;
    forall n | n in g.nodes ensures n.avgMemoryUsed >= 0 {
      var i := NodeAt(r, toInt64, g, hosts, n);
      NodeNonNegative(r, toInt64, hosts[i]);
    }
  }

  lemma NodeNonNegative(r: Reading, toInt64: real -> Int64, h: string)
    requires Conversion(toInt64) && MemoryFits(r) && NonNegativeSamples(r.memory)
    ensures NodeFrom(r, toInt64, h).avgMemoryUsed >= 0
  {
    hide TotalsOf, MaxAvg, NodeOfHost, Truncated, NonNegativeSamples;
    var m := MaxAvg(TotalsOf(r.memory, h));
    assert FitsInt64(m.1 * MB);
    AverageNonNegative(r.memory, h);
    TruncatedMonotone(0.0, m.1 * MB);
    TruncatedZero();
  }

  lemma TruncatedZero()
    ensures Truncated(0.0) == 0
  {
  }
}
