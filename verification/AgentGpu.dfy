/** The agent's GPU telemetry collector: per selected node, the greatest total and the mean total over time of the
    samples of its pods. Floats are modelled by exact numbers. */
module AgentGpu {
  import GoInt
  import Seqs
  import opened Ordering
  import opened Folds
  import opened Telemetry
  import opened Samples
  import opened Reals
  import opened Kubernetes

  // ----- hostnames to nodes

  /** The node a hostname stands for: the last one in the list that carries it as a label. */
  function NodeOfHost(nodeList: seq<KubeNode>, h: string): Option<string>
  {
    if nodeList == [] then None
    else if nodeList[|nodeList| - 1].hostname == Some(h) then Some(nodeList[|nodeList| - 1].name)
    else NodeOfHost(nodeList[..|nodeList| - 1], h)
  }

  method BuildHostnameToNodes(nodeList: seq<KubeNode>) returns (r: map<string, string>)
    ensures forall h :: NodeOfHost(nodeList, h) == if h in r then Some(r[h]) else None
  {
    r := map[];
    for i := 0 to |nodeList|
      invariant forall h :: NodeOfHost(nodeList[..i], h) == if h in r then Some(r[h]) else None
    {
      var node := nodeList[i];
      assert nodeList[..i + 1][..i] == nodeList[..i];
      if node.hostname.None? {
        continue;
      }
      r := r[node.hostname.value := node.name];
    }
    assert nodeList[..|nodeList|] == nodeList;
  }

  ghost predicate DistinctNames(nodeList: seq<KubeNode>)
  {
    forall i, j :: 0 <= i < j < |nodeList| ==> nodeList[i].name != nodeList[j].name
  }

  lemma {:induction false} HostHasNode(nodeList: seq<KubeNode>, h: string) returns (i: nat)
    requires NodeOfHost(nodeList, h).Some?
    ensures i < |nodeList| && nodeList[i].name == NodeOfHost(nodeList, h).value && nodeList[i].hostname == Some(h)
    ensures forall j :: i < j < |nodeList| ==> nodeList[j].hostname != Some(h)
  {
    if nodeList[|nodeList| - 1].hostname == Some(h) {
      i := |nodeList| - 1;
    } else {
      i := HostHasNode(nodeList[..|nodeList| - 1], h);
    }
  }

  /** Every hostname that some node carries stands for a node. */
  lemma {:induction false} HostIsMapped(nodeList: seq<KubeNode>, i: nat)
    requires i < |nodeList| && nodeList[i].hostname.Some?
    ensures NodeOfHost(nodeList, nodeList[i].hostname.value).Some?
  {
    if i < |nodeList| - 1 {
      HostIsMapped(nodeList[..|nodeList| - 1], i);
    }
  }

  /** With distinct node names no node stands for two hosts. */
  lemma HostsHaveDifferentNodes(nodeList: seq<KubeNode>, h: string, h': string)
    requires DistinctNames(nodeList)
    requires NodeOfHost(nodeList, h).Some? && NodeOfHost(nodeList, h) == NodeOfHost(nodeList, h')
    ensures h == h'
  {
    var i := HostHasNode(nodeList, h);
    var i' := HostHasNode(nodeList, h');
  }

  // ----- maximum and average over time

  const MAXIMA: Monoid<NonNegative> := Monoid((a: NonNegative, b: NonNegative) => MaxReal(a, b) as NonNegative, 0.0)

  lemma MaximaLawful()
    ensures Lawful(MAXIMA)
  {
  }

  ghost function Positives(totals: map<int, real>): map<int, NonNegative>
  {
    map t | t in totals :: MaxReal(0.0, totals[t])
  }

  ghost function PeakOver(totals: map<int, real>, ts: set<int>): real
    requires ts <= totals.Keys
  {
    SumOver<int, NonNegative>(MAXIMA, Positives(totals), ts)
  }

  /** The greatest of the totals, and at least zero, where the loop starts. */
  ghost function Peak(totals: map<int, real>): real
  {
    PeakOver(totals, totals.Keys)
  }

  ghost function Average(totals: map<int, real>): real
    requires totals != map[]
  {
    SumOver(REALS, totals, totals.Keys) / |totals| as real
  }

  lemma TotalsFacts(byTime: ByTime)
    ensures Totals(byTime).Keys == byTime.Keys && |Totals(byTime)| == |byTime|
    ensures byTime != map[] ==> Totals(byTime) != map[]
  {
    assert |byTime| == |byTime.Keys| && |Totals(byTime)| == |Totals(byTime).Keys|;
  }

  lemma TotalAt(byTime: ByTime, t: int)
    requires t in byTime
    ensures t in Totals(byTime) && Totals(byTime)[t] == Sum(REALS, byTime[t])
  {
  }

  /** The mean times the number of times is the sum of the totals. */
  lemma MeanMeaning(totals: map<int, real>)
    requires totals != map[]
    ensures Average(totals) * |totals| as real == SumOver(REALS, totals, totals.Keys)
  {
    assert |totals| > 0 && |totals| as real > 0.0 by {
      assert totals.Keys != {} && |totals| == |totals.Keys|;
    }
    Undivided(SumOver(REALS, totals, totals.Keys), |totals| as real);
  }

  lemma Undivided(x: real, n: real)
    requires n > 0.0
    ensures x / n * n == x
  {
  }

  method ComputeMaxAvg(samplesByTime: ByTime) returns (maxV: real, avgV: real)
    requires samplesByTime != map[]
    ensures Totals(samplesByTime) != map[]
    ensures maxV == Peak(Totals(samplesByTime))
    ensures avgV == Average(Totals(samplesByTime))
    ensures avgV * |samplesByTime| as real == HostTotal(samplesByTime)
  {
    hide SumOver, PeakOver, Lawful, Sum, MaxReal, Totals, REALS;
    ghost var totals := Totals(samplesByTime);
    TotalsFacts(samplesByTime);
    NoTimes(totals);
    maxV, avgV := 0.0, 0.0;
    var rest := samplesByTime.Keys;
    ghost var done := {};
    while rest != {}
      invariant rest !! done && rest + done == totals.Keys
      invariant maxV == PeakOver(totals, done)
      invariant avgV == SumOver(REALS, totals, done)
    {
      ghost var some := Pick(rest);
      var t :| t in rest;
      OneMoreTime(totals, done, t);
      TotalAt(samplesByTime, t);
      rest, done := rest - {t}, done + {t};
      var total := TotalOf(samplesByTime[t]);
      maxV := MaxReal(maxV, total);
      avgV := avgV + total;
    }
    assert done == totals.Keys;
    MeanMeaning(totals);
    TotalIsHostTotal(samplesByTime);
    avgV := avgV / |samplesByTime| as real;
  }

  lemma TotalIsHostTotal(byTime: ByTime)
    ensures HostTotal(byTime) == SumOver(REALS, Totals(byTime), Totals(byTime).Keys)
  {
    TotalsFacts(byTime);
  }

  method TotalOf(samples: seq<real>) returns (total: real)
    ensures total == Sum(REALS, samples)
  {
    total := 0.0;
    for i := 0 to |samples|
      invariant total == Sum(REALS, samples[..i])
    {
      assert samples[..i + 1][..i] == samples[..i];
      total := total + samples[i];
    }
    assert samples[..|samples|] == samples;
  }

  lemma NoTimes(totals: map<int, real>)
    ensures PeakOver(totals, {}) == 0.0 && SumOver(REALS, totals, {}) == 0.0
  {
  }

  lemma OneMoreTime(totals: map<int, real>, done: set<int>, t: int)
    requires done <= totals.Keys && t in totals && t !in done
    ensures PeakOver(totals, done + {t}) == MaxReal(PeakOver(totals, done), totals[t])
    ensures SumOver(REALS, totals, done + {t}) == SumOver(REALS, totals, done) + totals[t]
  {
    hide SumOver, Lawful;
    MaximaLawful();
    assert Positives(totals).Keys == totals.Keys;
    RealsLawful();
    assert done + {t} - {t} == done;
    SumOverRemove<int, NonNegative>(MAXIMA, Positives(totals), done + {t}, t);
    SumOverRemove(REALS, totals, done + {t}, t);
  }

  ghost predicate AllAtMost(totals: map<int, real>, ts: set<int>, bound: real)
    requires ts <= totals.Keys
  {
    forall t :: t in ts ==> totals[t] <= bound
  }

  lemma {:induction false} PeakAndSum(totals: map<int, real>, ts: set<int>, bound: real)
    requires ts <= totals.Keys
    ensures PeakOver(totals, ts) <= bound <==> 0.0 <= bound && AllAtMost(totals, ts, bound)
    ensures AllAtMost(totals, ts, bound) ==> SumOver(REALS, totals, ts) <= Scaled(|ts|, bound)
    decreases |ts|
  {
    if ts == {} {
      NoTimes(totals);
      OneMore(0, bound);
    } else {
      hide SumOver, PeakOver, Scaled;
      var t := Pick(ts);
      PeakAndSum(totals, ts - {t}, bound);
      OneMoreTime(totals, ts - {t}, t);
      assert ts - {t} + {t} == ts;
      assert AllAtMost(totals, ts, bound) <==> AllAtMost(totals, ts - {t}, bound) && totals[t] <= bound;
      hide *;
      OneMore(|ts - {t}|, bound);
    }
  }

  ghost function Scaled(n: nat, x: real): real
  {
    n as real * x
  }

  lemma OneMore(n: nat, x: real)
    ensures Scaled(0, x) == 0.0 && Scaled(n + 1, x) == Scaled(n, x) + x
  {
  }

  /** The peak is the least number that no total exceeds, and no less than zero; the average does not exceed it. */
  lemma PeakMeaning(totals: map<int, real>, bound: real)
    ensures Peak(totals) <= bound <==> 0.0 <= bound && forall t :: t in totals ==> totals[t] <= bound
    ensures totals != map[] ==> Average(totals) <= Peak(totals)
  {
    hide SumOver, PeakOver;
    PeakAndSum(totals, totals.Keys, bound);
    PeakAndSum(totals, totals.Keys, Peak(totals));
    if totals != map[] {
      assert totals.Keys != {};
      assert |totals.Keys| == |totals|;
      var (total, n) := (SumOver(REALS, totals, totals.Keys), |totals| as real);
      QuotientAtMost(total, n, Peak(totals));
    }
  }

  /** The peak is zero or one of the totals. */
  lemma {:induction false} PeakAttained(totals: map<int, real>, ts: set<int>)
    requires ts <= totals.Keys
    ensures PeakOver(totals, ts) == 0.0 || exists t :: t in ts && totals[t] == PeakOver(totals, ts)
    decreases |ts|
  {
    if ts == {} {
      NoTimes(totals);
    } else {
      var t := Pick(ts);
      PeakAttained(totals, ts - {t});
      OneMoreTime(totals, ts - {t}, t);
      assert ts - {t} + {t} == ts;
      hide PeakOver, SumOver;
    }
  }

  lemma {:induction false} SumAtLeast(totals: map<int, real>, ts: set<int>, bound: real)
    requires ts <= totals.Keys && forall t :: t in ts ==> bound <= totals[t]
    ensures Scaled(|ts|, bound) <= SumOver(REALS, totals, ts)
    decreases |ts|
  {
    if ts == {} {
      NoTimes(totals);
      OneMore(0, bound);
    } else {
      hide SumOver, PeakOver, Scaled;
      var t := Pick(ts);
      SumAtLeast(totals, ts - {t}, bound);
      OneMoreTime(totals, ts - {t}, t);
      assert ts - {t} + {t} == ts;
      hide *;
      OneMore(|ts - {t}|, bound);
    }
  }

  /** The mean lies between the least and the greatest total. */
  lemma MeanBetween(totals: map<int, real>, lo: real, hi: real)
    requires totals != map[] && forall t :: t in totals ==> lo <= totals[t] <= hi
    ensures lo <= Average(totals) <= hi
  {
    hide SumOver, PeakOver, Average;
    assert totals.Keys != {} && |totals| == |totals.Keys|;
    MeanMeaning(totals);
    SumAtLeast(totals, totals.Keys, lo);
    PeakAndSum(totals, totals.Keys, hi);
    Squeezed(Average(totals), |totals| as real, lo, hi);
  }

  lemma Squeezed(x: real, n: real, lo: real, hi: real)
    requires n > 0.0 && n * lo <= x * n <= n * hi
    ensures lo <= x <= hi
  {
  }

  // ----- the message

  const MB: real := 1024.0 * 1024.0

  function Truncated(x: real): int
  {
    if x >= 0.0 then x.Floor else -(-x).Floor
  }

  /** Truncation drops the fraction, toward zero. */
  lemma TruncatedMeaning(x: real)
    ensures x >= 0.0 ==> Truncated(x) as real <= x < Truncated(x) as real + 1.0
    ensures x <= 0.0 ==> Truncated(x) as real - 1.0 < x <= Truncated(x) as real
  {
  }

  ghost predicate FitsInt64(x: real)
  {
    -GoInt.TWO_63 <= Truncated(x) < GoInt.TWO_63
  }

  /** Go's conversion of a float to int64 truncates toward zero; what it gives for values out of range is up to the
      platform. */
  ghost predicate Conversion(toInt64: real -> GoInt.Int64)
  {
    forall x :: FitsInt64(x) ==> toInt64(x) == Truncated(x)
  }

  ghost function MaxAvg(totals: map<int, real>): (real, real)
  {
    if totals == map[] then (0.0, 0.0) else (Peak(totals), Average(totals))
  }

  ghost function MessageNode(name: string, util: map<int, real>, memory: map<int, real>, toInt64: real -> GoInt.Int64)
    : GpuNode
  {
    var (u, m) := (MaxAvg(util), MaxAvg(memory));
    GpuNode(name, u.0 / 100.0, u.1 / 100.0, toInt64(m.0 * MB), toInt64(m.1 * MB))
  }

  /** The totals per time of a host; none if the host has no samples. */
  ghost function TotalsOn(r: ByHost, host: string): map<int, real>
  {
    if host in r then Totals(r[host]) else map[]
  }

  ghost function NodeOn(host: string, util: ByHost, memory: ByHost, nodes: map<string, string>,
                        toInt64: real -> GoInt.Int64): GpuNode
  {
    MessageNode(if host in nodes then nodes[host] else "", TotalsOn(util, host), TotalsOn(memory, host), toInt64)
  }

  method MaxAvgOn(r: ByHost, host: string) returns (maxV: real, avgV: real)
    requires forall h :: h in r ==> r[h] != map[]
    ensures (maxV, avgV) == MaxAvg(TotalsOn(r, host))
  {
    if host in r {
      maxV, avgV := ComputeMaxAvg(r[host]);
    } else {
      maxV, avgV := 0.0, 0.0;
    }
  }

  /** `g` has one node for every selected host that has samples of either metric, in the order in which the hosts
      come. */
  ghost predicate BuiltFrom(util: ByHost, memory: ByHost, nodes: map<string, string>, toInt64: real -> GoInt.Int64,
                            g: GpuTelemetry)
  {
    exists hosts ::
      && Distinct(hosts)
      && Elements(hosts) == (util.Keys + memory.Keys) * nodes.Keys
      && g.nodes == Seqs.Map(h => NodeOn(h, util, memory, nodes, toInt64), hosts)
  }

  method BuildGPUTelemetryMessage(gpuUtilByHost: ByHost, gpuMemUsedByHost: ByHost, nodesByHostname: map<string, string>,
                                  toInt64: real -> GoInt.Int64)
    returns (g: GpuTelemetry)
    requires forall h :: h in gpuUtilByHost ==> gpuUtilByHost[h] != map[]
    requires forall h :: h in gpuMemUsedByHost ==> gpuMemUsedByHost[h] != map[]
    ensures BuiltFrom(gpuUtilByHost, gpuMemUsedByHost, nodesByHostname, toInt64, g)
  {
    hide NodeOn, MaxAvg, TotalsOn, Distinct, Elements;
    var nodes: seq<GpuNode> := [];
    ghost var hosts: seq<string> := [];
    var rest := gpuUtilByHost.Keys + gpuMemUsedByHost.Keys;
    ghost var done: set<string> := {};
    NoHosts();
    while rest != {}
      invariant rest !! done && rest + done == gpuUtilByHost.Keys + gpuMemUsedByHost.Keys
      invariant Distinct(hosts) && Elements(hosts) == done * nodesByHostname.Keys
      invariant nodes == Seqs.Map(h => NodeOn(h, gpuUtilByHost, gpuMemUsedByHost, nodesByHostname, toInt64), hosts)
    {
      var host :| host in rest;
      rest, done := rest - {host}, done + {host};
      if host !in nodesByHostname {
        continue;
      }
      var maxGPUUsed, avgGPUUsed := MaxAvgOn(gpuUtilByHost, host);
      var maxGPUMemUsed, avgGPUMemUsed := MaxAvgOn(gpuMemUsedByHost, host);
      var node := GpuNode(nodesByHostname[host], maxGPUUsed / 100.0, avgGPUUsed / 100.0,
                          toInt64(maxGPUMemUsed * 1024.0 * 1024.0), toInt64(avgGPUMemUsed * 1024.0 * 1024.0));
      NodeIs(node, host, gpuUtilByHost, gpuMemUsedByHost, nodesByHostname, toInt64, maxGPUMemUsed, avgGPUMemUsed);
      nodes := nodes + [node];
      OneMoreHost(hosts, host);
      hosts := hosts + [host];
    }
    assert done == gpuUtilByHost.Keys + gpuMemUsedByHost.Keys;
    g := GpuTelemetry(nodes);
  }

  lemma NoHosts()
    ensures Distinct<string>([]) && Elements<string>([]) == {}
  {
  }

  lemma OneMoreHost(hosts: seq<string>, host: string)
    requires Distinct(hosts) && host !in Elements(hosts)
    ensures Distinct(hosts + [host]) && Elements(hosts + [host]) == Elements(hosts) + {host}
  {
    assert (hosts + [host])[..|hosts|] == hosts;
    ElementsSnoc(hosts + [host]);
  }

  lemma NodeIs(node: GpuNode, host: string, util: ByHost, memory: ByHost, nodes: map<string, string>,
               toInt64: real -> GoInt.Int64, maxMemory: real, avgMemory: real)
    requires host in nodes && node.name == nodes[host]
    requires (node.maxGpuUsed * 100.0, node.avgGpuUsed * 100.0) == MaxAvg(TotalsOn(util, host))
    requires (maxMemory, avgMemory) == MaxAvg(TotalsOn(memory, host))
    requires node.maxMemoryUsed == toInt64(maxMemory * 1024.0 * 1024.0)
    requires node.avgMemoryUsed == toInt64(avgMemory * 1024.0 * 1024.0)
    ensures node == NodeOn(host, util, memory, nodes, toInt64)
  {
    hide MaxAvg, TotalsOn;
    assert maxMemory * 1024.0 * 1024.0 == maxMemory * MB && avgMemory * 1024.0 * 1024.0 == avgMemory * MB;
  }
}
