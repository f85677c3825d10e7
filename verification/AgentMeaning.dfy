/** The agent's GPU telemetry message read off the samples and the node list themselves. */
module AgentMeaning {
  import opened GoInt
  import opened Ordering
  import opened Folds
  import opened Telemetry
  import opened Kubernetes
  import opened Samples
  import opened AgentGpu
  import opened AgentMessages

  /** `x` times the number of the host's times is the sum of all its pod-labelled samples; zero without samples. */
  ghost predicate IsMean(x: real, samples: SamplesByKey, host: string)
  {
    if Times(samples, host) == {} then x == 0.0
    else x * |Times(samples, host)| as real == SumOver(REALS, KeyTotals(samples), PodKeys(samples.Keys, host))
  }

  /** `x` is the greatest of the host's totals per time, or zero if none is greater. */
  ghost predicate IsPeak(x: real, samples: SamplesByKey, host: string)
  {
    && x >= 0.0
    && (forall t :: t in Times(samples, host) ==> ObservedTotal(samples, samples.Keys, host, t) <= x)
    && (x == 0.0 || exists t :: t in Times(samples, host) && ObservedTotal(samples, samples.Keys, host, t) == x)
  }

  lemma TimesOfTotals(samples: SamplesByKey, host: string)
    ensures TotalsOf(samples, host).Keys == Times(samples, host)
    ensures |TotalsOf(samples, host)| == |Times(samples, host)|
    ensures TotalsOf(samples, host) == map[] <==> Times(samples, host) == {}
  {
    hide Times, ObservedTotal;
    assert |TotalsOf(samples, host)| == |TotalsOf(samples, host).Keys|;
  }

  lemma MaxAvgMeaning(samples: SamplesByKey, host: string)
    ensures IsPeak(MaxAvg(TotalsOf(samples, host)).0, samples, host)
    ensures IsMean(MaxAvg(TotalsOf(samples, host)).1, samples, host)
  {
    hide Times, ObservedTotal, SumOver, PeakOver, Average;
    var totals := TotalsOf(samples, host);
    TimesOfTotals(samples, host);
    if totals != map[] {
      PeakMeaning(totals, Peak(totals));
      PeakAttained(totals, totals.Keys);
      MeanMeaning(totals);
      HostSum(samples, host);
    }
  }

  /** `n` has the figures of a host: GPUs from percent, memory from MB to bytes. */
  ghost predicate IsNodeOf(n: GpuNode, r: Reading, toInt64: real -> Int64, host: string)
  {
    && IsPeak(n.maxGpuUsed * 100.0, r.util, host) && IsMean(n.avgGpuUsed * 100.0, r.util, host)
    && (exists peak: real :: IsPeak(peak, r.memory, host) && n.maxMemoryUsed == toInt64(peak * 1_048_576.0))
    && (exists mean: real :: IsMean(mean, r.memory, host) && n.avgMemoryUsed == toInt64(mean * 1_048_576.0))
  }

  lemma NodeMeaning(r: Reading, toInt64: real -> Int64, host: string)
    ensures IsNodeOf(NodeFrom(r, toInt64, host), r, toInt64, host)
  {
    hide IsPeak, IsMean, TotalsOf, MaxAvg, NodeOfHost;
    MaxAvgMeaning(r.util, host);
    MaxAvgMeaning(r.memory, host);
    var (u, m) := (MaxAvg(TotalsOf(r.util, host)), MaxAvg(TotalsOf(r.memory, host)));
    assert u.0 / 100.0 * 100.0 == u.0 && u.1 / 100.0 * 100.0 == u.1;
    assert IsPeak(m.0, r.memory, host) && IsMean(m.1, r.memory, host) && MB == 1_048_576.0;
  }

  /** A host with a pod-labelled key, and the last node in the list that carries it as its hostname. */
  ghost predicate HostAt(r: Reading, host: string, i: nat)
  {
    && i < |r.nodeList| && r.nodeList[i].hostname == Some(host)
    && (forall j :: i < j < |r.nodeList| ==> r.nodeList[j].hostname != Some(host))
    && ((exists k :: k in r.util && k.pod != "" && k.hostname == host)
        || exists k :: k in r.memory && k.pod != "" && k.hostname == host)
  }

  lemma SelectedMeaning(r: Reading, host: string)
    ensures Selected(r, host) <==> exists i: nat :: HostAt(r, host, i)
    ensures forall i: nat :: HostAt(r, host, i) ==> NodeOfHost(r.nodeList, host) == Some(r.nodeList[i].name)
  {
    if Selected(r, host) {
      var i := HostHasNode(r.nodeList, host);
      assert HostAt(r, host, i);
    }
    forall i: nat | HostAt(r, host, i)
      ensures Selected(r, host) && NodeOfHost(r.nodeList, host) == Some(r.nodeList[i].name)
    {
      HostIsMapped(r.nodeList, i);
      var last := HostHasNode(r.nodeList, host);
      assert last == i;
    }
  }

  /** The message has a node for every host that a listed node carries and that has pod-labelled series, under the
      name of the last such node, with the figures of the host's samples; and it has no other node. */
  lemma MessageMeaning(r: Reading, toInt64: real -> Int64, g: GpuTelemetry)
    requires MessageOf(r, toInt64, g)
    ensures forall host, i: nat :: HostAt(r, host, i) ==>
              exists n :: n in g.nodes && n.name == r.nodeList[i].name && IsNodeOf(n, r, toInt64, host)
    ensures forall n :: n in g.nodes ==>
              exists host, i: nat :: HostAt(r, host, i) && n.name == r.nodeList[i].name && IsNodeOf(n, r, toInt64, host)
  {
    var hosts :| MessageAlong(r, toInt64, g, hosts);
    hide IsNodeOf, HostAt, MessageAlong, NodeFrom, Selected;
    forall host, i: nat | HostAt(r, host, i)
      ensures exists n :: n in g.nodes && n.name == r.nodeList[i].name && IsNodeOf(n, r, toInt64, host)
    {
      SelectedMeaning(r, host);
      HasNode(r, toInt64, g, hosts, host);
      NodeMeaning(r, toInt64, host);
      NameFrom(r, toInt64, host);
    }
    forall n | n in g.nodes
      ensures exists host, i: nat ::
                HostAt(r, host, i) && n.name == r.nodeList[i].name && IsNodeOf(n, r, toInt64, host)
    {
      var j := NodeAt(r, toInt64, g, hosts, n);
      AlongSelected(r, toInt64, g, hosts, j);
      SelectedMeaning(r, hosts[j]);
      var i: nat :| HostAt(r, hosts[j], i);
      NodeMeaning(r, toInt64, hosts[j]);
      NameFrom(r, toInt64, hosts[j]);
    }
  }

  lemma AlongSelected(r: Reading, toInt64: real -> Int64, g: GpuTelemetry, hosts: seq<string>, j: nat)
    requires MessageAlong(r, toInt64, g, hosts) && j < |hosts|
    ensures Selected(r, hosts[j])
  {
    assert hosts[j] in Elements(hosts);
  }

  lemma HasNode(r: Reading, toInt64: real -> Int64, g: GpuTelemetry, hosts: seq<string>, host: string)
    requires MessageAlong(r, toInt64, g, hosts) && Selected(r, host)
    ensures NodeFrom(r, toInt64, host) in g.nodes
  {
    hide NodeFrom, Selected, Distinct;
    assert host in Elements(hosts);
    var j :| 0 <= j < |hosts| && hosts[j] == host;
    assert g.nodes[j] == NodeFrom(r, toInt64, host);
  }
}
