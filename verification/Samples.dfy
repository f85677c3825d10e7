/** `buildSampleMapByHost`: regrouping metric samples from one list per metric key to one list per host and time. */
module Samples {
  import opened Seqs
  import opened Folds

  datatype MetricKey = MetricKey(hostname: string, gpu: int, nspace: string, pod: string, container: string)

  datatype Sample = Sample(timestamp: int, value: real)

  type SamplesByKey = map<MetricKey, seq<Sample>>
  type ByTime = map<int, seq<real>>
  type ByHost = map<string, ByTime>

  const REALS: Monoid<real> := Monoid((a: real, b: real) => a + b, 0.0)

  lemma RealsLawful()
    ensures Lawful(REALS)
  {
  }

  // ----- the samples themselves

  ghost function ValueOf(s: Sample): real
  {
    s.value
  }

  /** The values a list of samples has at one time, in order. */
  ghost function ValuesAt(ss: seq<Sample>, t: int): seq<real>
  {
    if ss == [] then []
    else ValuesAt(ss[..|ss| - 1], t) + if ss[|ss| - 1].timestamp == t then [ss[|ss| - 1].value] else []
  }

  /** The pod-labelled keys of a host. */
  ghost function PodKeys(ks: set<MetricKey>, host: string): set<MetricKey>
  {
    set k | k in ks && k.pod != "" && k.hostname == host
  }

  /** The pod-labelled keys of all hosts. */
  ghost function Labelled(ks: set<MetricKey>): set<MetricKey>
  {
    set k | k in ks && k.pod != ""
  }

  ghost function Hosts(ks: set<MetricKey>): set<string>
  {
    set k | k in ks && k.pod != "" :: k.hostname
  }

  const BAGS: Monoid<multiset<real>> := Monoid((a: multiset<real>, b: multiset<real>) => a + b, multiset{})

  lemma BagsLawful()
    ensures Lawful(BAGS)
  {
    forall a: multiset<real> ensures BAGS.plus(a, BAGS.zero) == a {
      assert a + multiset{} == a;
    }
    forall a: multiset<real>, b: multiset<real> ensures BAGS.plus(a, b) == BAGS.plus(b, a) {
      assert a + b == b + a;
    }
    forall a: multiset<real>, b: multiset<real>, c: multiset<real>
      ensures BAGS.plus(BAGS.plus(a, b), c) == BAGS.plus(a, BAGS.plus(b, c))
    {
      assert a + b + c == a + (b + c);
    }
  }

  ghost function BagsAt(samples: SamplesByKey, t: int): map<MetricKey, multiset<real>>
  {
    map k | k in samples :: multiset(ValuesAt(samples[k], t))
  }

  ghost function SumsAt(samples: SamplesByKey, t: int): map<MetricKey, real>
  {
    map k | k in samples :: Sum(REALS, ValuesAt(samples[k], t))
  }

  ghost function KeyTotals(samples: SamplesByKey): map<MetricKey, real>
  {
    map k | k in samples :: Sum(REALS, Map(ValueOf, samples[k]))
  }

  /** The values of a host's pod-labelled samples at one time. */
  ghost function Observed(samples: SamplesByKey, ks: set<MetricKey>, host: string, t: int): multiset<real>
    requires ks <= samples.Keys
  {
    SumOver(BAGS, BagsAt(samples, t), PodKeys(ks, host))
  }

  /** Their total. */
  ghost function ObservedTotal(samples: SamplesByKey, ks: set<MetricKey>, host: string, t: int): real
    requires ks <= samples.Keys
  {
    SumOver(REALS, SumsAt(samples, t), PodKeys(ks, host))
  }

  // ----- the regrouped samples

  /** The list of one time. */
  function At(byTime: ByTime, t: int): seq<real>
  {
    if t in byTime then byTime[t] else []
  }

  ghost function Collected(r: ByHost, host: string, t: int): seq<real>
  {
    if host in r then At(r[host], t) else []
  }

  /** The total of every time of a host. */
  ghost function Totals(byTime: ByTime): map<int, real>
  {
    map t | t in byTime :: Sum(REALS, byTime[t])
  }

  ghost function HostTotal(byTime: ByTime): real
  {
    SumOver(REALS, Totals(byTime), byTime.Keys)
  }

  ghost function HostTotals(r: ByHost): map<string, real>
  {
    map h | h in r :: HostTotal(r[h])
  }

  /** The total over all hosts and times. */
  ghost function GrandTotal(r: ByHost): real
  {
    SumOver(REALS, HostTotals(r), r.Keys)
  }

  /** `r` holds exactly the pod-labelled samples under the keys `ks`, by host and time. */
  ghost predicate Regrouped(samples: SamplesByKey, ks: set<MetricKey>, r: ByHost)
    requires ks <= samples.Keys
  {
    && r.Keys == Hosts(ks)
    && (forall h, t :: h in r && t in r[h] ==> r[h][t] != [])
    && (forall h, t :: multiset(Collected(r, h, t)) == Observed(samples, ks, h, t))
  }

  /** What appending a value to the list of one time does to a host's total. */
  lemma AddSample(m: ByTime, s: Sample)
    ensures HostTotal(m[s.timestamp := At(m, s.timestamp) + [s.value]]) == HostTotal(m) + s.value
  {
    hide Lawful, SumOver, Sum;
    var values := At(m, s.timestamp);
    var m' := m[s.timestamp := values + [s.value]];
    SumAppend(REALS, values, s.value);
    EmptySum();
    assert Totals(m).Keys == m.Keys && Totals(m').Keys == m'.Keys;
    assert Totals(m') == Totals(m)[s.timestamp := REALS.plus(Folds.At(REALS, Totals(m), s.timestamp), s.value)];
    RealsLawful();
    SumOverUpdate(REALS, Totals(m), s.timestamp, s.value);
  }

  lemma EmptySum()
    ensures Sum(REALS, []) == 0.0
    ensures HostTotal(map[]) == 0.0
    ensures GrandTotal(map[]) == 0.0
  {
    var none: ByTime, nobody: ByHost := map[], map[];
    assert none.Keys == {} && nobody.Keys == {};
  }

  /** What replacing the lists of one host does to the grand total. */
  lemma AddHost(r: ByHost, host: string, m: ByTime)
    ensures GrandTotal(r[host := m]) == GrandTotal(r) + (HostTotal(m) - HostTotal(if host in r then r[host] else map[]))
  {
    hide Lawful, SumOver, HostTotal;
    var f, r' := HostTotals(r), r[host := m];
    assert f.Keys == r.Keys && HostTotals(r').Keys == r'.Keys;
    var x := HostTotal(m) - HostTotal(if host in r then r[host] else map[]);
    EmptySum();
    assert HostTotals(r') == f[host := REALS.plus(Folds.At(REALS, f, host), x)];
    RealsLawful();
    SumOverUpdate(REALS, f, host, x);
  }

  lemma HostLevelKey(samples: SamplesByKey, done: set<MetricKey>, k: MetricKey, r: ByHost)
    requires done + {k} <= samples.Keys && k.pod == ""
    requires Regrouped(samples, done, r)
    ensures Regrouped(samples, done + {k}, r)
    ensures Labelled(done + {k}) == Labelled(done)
  {
    hide SumOver;
    assert Hosts(done + {k}) == Hosts(done);
    forall h ensures PodKeys(done + {k}, h) == PodKeys(done, h) {
    }
  }

  lemma PodLabelledKey(samples: SamplesByKey, done: set<MetricKey>, k: MetricKey, r: ByHost, r': ByHost)
    requires done + {k} <= samples.Keys && k !in done && k.pod != ""
    requires Regrouped(samples, done, r)
    requires r'.Keys == r.Keys + {k.hostname}
    requires forall h, t :: h in r' && t in r'[h] ==> r'[h][t] != []
    requires forall h, t ::
               Collected(r', h, t) == Collected(r, h, t) + if h == k.hostname then ValuesAt(samples[k], t) else []
    ensures Regrouped(samples, done + {k}, r')
    ensures SumOver(REALS, KeyTotals(samples), Labelled(done + {k}))
            == SumOver(REALS, KeyTotals(samples), Labelled(done)) + Sum(REALS, Map(ValueOf, samples[k]))
  {
    hide SumOver, Lawful, ValuesAt, Sum, Collected;
    assert Hosts(done + {k}) == Hosts(done) + {k.hostname};
    forall h, t ensures multiset(Collected(r', h, t)) == Observed(samples, done + {k}, h, t) {
      ObservedMore(samples, done, k, h, t);
      assert h != k.hostname ==> Collected(r', h, t) == Collected(r, h, t);
    }
    RealsLawful();
    assert Labelled(done + {k}) - {k} == Labelled(done);
    SumOverRemove(REALS, KeyTotals(samples), Labelled(done + {k}), k);
  }

  lemma ObservedMore(samples: SamplesByKey, done: set<MetricKey>, k: MetricKey, h: string, t: int)
    requires done + {k} <= samples.Keys && k !in done && k.pod != ""
    ensures Observed(samples, done + {k}, h, t)
            == if h == k.hostname then Observed(samples, done, h, t) + multiset(ValuesAt(samples[k], t))
               else Observed(samples, done, h, t)
  {
    hide SumOver, Lawful, ValuesAt;
    if h == k.hostname {
      BagsLawful();
      assert PodKeys(done + {k}, h) - {k} == PodKeys(done, h);
      SumOverRemove(BAGS, BagsAt(samples, t), PodKeys(done + {k}, h), k);
    } else {
      assert PodKeys(done + {k}, h) == PodKeys(done, h);
    }
  }

  lemma NothingRegrouped(samples: SamplesByKey)
    ensures Regrouped(samples, {}, map[])
    ensures SumOver(REALS, KeyTotals(samples), Labelled({})) == 0.0
  {
    assert Hosts({}) == {};
    forall h, t ensures multiset(Collected(map[], h, t)) == Observed(samples, {}, h, t) {
      assert PodKeys({}, h) == {};
    }
  }

  lemma NoEmptyLists(samples: SamplesByKey, ks: set<MetricKey>, r: ByHost)
    requires ks <= samples.Keys && Regrouped(samples, ks, r)
    ensures forall h, t :: h in r && t in r[h] ==> r[h][t] != []
  {
  }

  method BuildSampleMapByHost(samples: SamplesByKey) returns (r: ByHost)
    ensures Regrouped(samples, samples.Keys, r)
    ensures GrandTotal(r) == SumOver(REALS, KeyTotals(samples), Labelled(samples.Keys))
  {
    hide Regrouped, GrandTotal, SumOver, Hosts;
    r := map[];
    var rest := samples.Keys;
    NothingRegrouped(samples);
    EmptySum();
    assert samples.Keys - rest == {};
    while rest != {}
      invariant rest <= samples.Keys
      invariant Regrouped(samples, samples.Keys - rest, r)
      invariant GrandTotal(r) == SumOver(REALS, KeyTotals(samples), Labelled(samples.Keys - rest))
    {
      var k :| k in rest;
      ghost var done := samples.Keys - rest;
      rest := rest - {k};
      assert samples.Keys - rest == done + {k};
      if k.pod == "" {
        HostLevelKey(samples, done, k, r);
        continue;
      }
      NoEmptyLists(samples, done, r);
      var r' := AddSamples(r, k.hostname, samples[k]);
      PodLabelledKey(samples, done, k, r, r');
      r := r';
    }
    assert samples.Keys - rest == samples.Keys;
  }

  /** Appends the samples of one key to its host's lists. */
  method AddSamples(r: ByHost, host: string, ss: seq<Sample>) returns (r': ByHost)
    requires forall h, t :: h in r && t in r[h] ==> r[h][t] != []
    ensures r'.Keys == r.Keys + {host}
    ensures forall h, t :: h in r' && t in r'[h] ==> r'[h][t] != []
    ensures forall h, t :: Collected(r', h, t) == Collected(r, h, t) + if h == host then ValuesAt(ss, t) else []
    ensures GrandTotal(r') == GrandTotal(r) + Sum(REALS, Map(ValueOf, ss))
  {
    var m := AppendSamples(if host in r then r[host] else map[], ss);
    r' := r[host := m];
    hide Sum, HostTotal, GrandTotal, ValuesAt;
    AddHost(r, host, m);
  }

  method AppendSamples(before: ByTime, ss: seq<Sample>) returns (m: ByTime)
    requires forall t :: t in before ==> before[t] != []
    ensures forall t :: t in m ==> m[t] != []
    ensures forall t :: At(m, t) == At(before, t) + ValuesAt(ss, t)
    ensures HostTotal(m) == HostTotal(before) + Sum(REALS, Map(ValueOf, ss))
  {
    hide Sum, HostTotal, ValuesAt, At;
    m := before;
    NoSamples();
    assert ss[..0] == [];
    for i := 0 to |ss|
      invariant forall t :: t in m ==> m[t] != []
      invariant forall t :: At(m, t) == At(before, t) + ValuesAt(ss[..i], t)
      invariant HostTotal(m) == HostTotal(before) + Sum(REALS, Map(ValueOf, ss[..i]))
    {
      var s := ss[i];
      AddSample(m, s);
      OneMoreSample(ss, i);
      AppendKeeps(before, m, ss, i);
      m := m[s.timestamp := At(m, s.timestamp) + [s.value]];
    }
    assert ss[..|ss|] == ss;
  }

  lemma AppendKeeps(before: ByTime, m: ByTime, ss: seq<Sample>, i: nat)
    requires i < |ss|
    requires forall t :: At(m, t) == At(before, t) + ValuesAt(ss[..i], t)
    ensures var m' := m[ss[i].timestamp := At(m, ss[i].timestamp) + [ss[i].value]];
            forall t :: At(m', t) == At(before, t) + ValuesAt(ss[..i + 1], t)
  {
    hide ValuesAt, Sum;
    OneMoreSample(ss, i);
    var m' := m[ss[i].timestamp := At(m, ss[i].timestamp) + [ss[i].value]];
    forall t ensures At(m', t) == At(before, t) + ValuesAt(ss[..i + 1], t) {
      if t != ss[i].timestamp {
        assert At(m', t) == At(m, t);
      }
    }
  }

  lemma NoSamples()
    ensures Sum(REALS, Map(ValueOf, [])) == 0.0
    ensures forall t :: ValuesAt([], t) == []
  {
  }

  lemma OneMoreSample(ss: seq<Sample>, i: nat)
    requires i < |ss|
    ensures Sum(REALS, Map(ValueOf, ss[..i + 1])) == Sum(REALS, Map(ValueOf, ss[..i])) + ss[i].value
    ensures forall t :: ValuesAt(ss[..i + 1], t) == if ss[i].timestamp == t then ValuesAt(ss[..i], t) + [ss[i].value]
                                                    else ValuesAt(ss[..i], t)
  {
    assert ss[..i + 1] == ss[..i] + [ss[i]];
    assert ss[..i + 1][..i] == ss[..i];
    MapAppend(ValueOf, ss[..i], ss[i]);
    SumAppend(REALS, Map(ValueOf, ss[..i]), ss[i].value);
  }

  // ----- what the regrouping determines

  /** The times of a host's pod-labelled samples. */
  ghost function Times(samples: SamplesByKey, host: string): set<int>
  {
    set k, s | k in PodKeys(samples.Keys, host) && s in samples[k] :: s.timestamp
  }

  /** A host's total at each of its times, read off the samples. */
  ghost function TotalsOf(samples: SamplesByKey, host: string): map<int, real>
  {
    map t | t in Times(samples, host) :: ObservedTotal(samples, samples.Keys, host, t)
  }

  lemma {:induction false} HasValuesAt(ss: seq<Sample>, t: int)
    ensures ValuesAt(ss, t) != [] <==> exists s :: s in ss && s.timestamp == t
  {
    if ss != [] {
      HasValuesAt(ss[..|ss| - 1], t);
      assert ss == ss[..|ss| - 1] + [ss[|ss| - 1]];
      assert ss[|ss| - 1] in ss;
    }
  }

  /** The observed values as a list. */
  lemma {:induction false} Listed(samples: SamplesByKey, ks: set<MetricKey>, t: int) returns (values: seq<real>)
    requires ks <= samples.Keys
    ensures multiset(values) == SumOver(BAGS, BagsAt(samples, t), ks)
    ensures Sum(REALS, values) == SumOver(REALS, SumsAt(samples, t), ks)
    ensures values != [] <==> exists k :: k in ks && ValuesAt(samples[k], t) != []
    decreases |ks|
  {
    if ks == {} {
      values := [];
    } else {
      hide Lawful, ValuesAt, SumOver, Sum, REALS, BAGS;
      var k :| k in ks;
      var rest := Listed(samples, ks - {k}, t);
      values := rest + ValuesAt(samples[k], t);
      ListedStep(samples, ks, k, t, rest);
    }
  }

  lemma ListedStep(samples: SamplesByKey, ks: set<MetricKey>, k: MetricKey, t: int, rest: seq<real>)
    requires ks <= samples.Keys && k in ks
    requires multiset(rest) == SumOver(BAGS, BagsAt(samples, t), ks - {k})
    requires Sum(REALS, rest) == SumOver(REALS, SumsAt(samples, t), ks - {k})
    ensures multiset(rest + ValuesAt(samples[k], t)) == SumOver(BAGS, BagsAt(samples, t), ks)
    ensures Sum(REALS, rest + ValuesAt(samples[k], t)) == SumOver(REALS, SumsAt(samples, t), ks)
  {
    hide Lawful, ValuesAt, SumOver, Sum;
    BagsLawful();
    RealsLawful();
    SumOverRemove(BAGS, BagsAt(samples, t), ks, k);
    SumOverRemove(REALS, SumsAt(samples, t), ks, k);
    SumConcat(REALS, rest, ValuesAt(samples[k], t));
  }

  lemma TotalDetermined(samples: SamplesByKey, r: ByHost, host: string, t: int)
    requires Regrouped(samples, samples.Keys, r)
    ensures Sum(REALS, Collected(r, host, t)) == ObservedTotal(samples, samples.Keys, host, t)
    ensures Collected(r, host, t) != [] <==> t in Times(samples, host)
  {
    hide SumOver, Lawful, Sum, ValuesAt;
    var ks := PodKeys(samples.Keys, host);
    var values := Listed(samples, ks, t);
    RealsLawful();
    SumPermutes(REALS, Collected(r, host, t), values);
    assert |multiset(values)| == |values|;
    forall k | k in ks ensures ValuesAt(samples[k], t) != [] <==> exists s :: s in samples[k] && s.timestamp == t {
      HasValuesAt(samples[k], t);
    }
  }

  /** The totals per time, and with them every maximum and average, do not depend on the order in which the keys
      are visited: any regrouping has the totals of the samples themselves. */
  lemma TotalsDetermined(samples: SamplesByKey, r: ByHost, host: string)
    requires Regrouped(samples, samples.Keys, r)
    ensures host in r ==> Totals(r[host]) == TotalsOf(samples, host)
    ensures host in r <==> host in Hosts(samples.Keys)
  {
    hide SumOver, Sum, ValuesAt, Times;
    if host in r {
      forall t ensures t in r[host] <==> t in Times(samples, host) {
        TotalDetermined(samples, r, host, t);
      }
      forall t | t in r[host] ensures Totals(r[host])[t] == TotalsOf(samples, host)[t] {
        TotalDetermined(samples, r, host, t);
      }
    }
  }

  // ----- which samples are collected

  lemma {:induction false} ValuesAtMeaning(ss: seq<Sample>, t: int, x: real)
    ensures x in ValuesAt(ss, t) <==> Sample(t, x) in ss
    decreases |ss|
  {
    if ss != [] {
      var init, last := ss[..|ss| - 1], ss[|ss| - 1];
      ValuesAtMeaning(init, t, x);
      assert ss == init + [last];
    }
  }

  lemma {:induction false} ObservedMeaning(samples: SamplesByKey, ks: set<MetricKey>, t: int, x: real)
    requires ks <= samples.Keys
    ensures x in SumOver(BAGS, BagsAt(samples, t), ks) <==> exists k :: k in ks && Sample(t, x) in samples[k]
    decreases |ks|
  {
    if ks != {} {
      var k :| k in ks;
      ObservedMeaning(samples, ks - {k}, t, x);
      ValuesAtMeaning(samples[k], t, x);
      BagsLawful();
      hide Lawful, ValuesAt;
      SumOverRemove(BAGS, BagsAt(samples, t), ks, k);
      assert x in multiset(ValuesAt(samples[k], t)) <==> x in ValuesAt(samples[k], t);
      hide SumOver;
    }
  }

  /** A value is collected for a host and time exactly if some pod-labelled key of the host has it as a sample at
      that time. */
  lemma CollectedMeaning(samples: SamplesByKey, r: ByHost, host: string, t: int, x: real)
    requires Regrouped(samples, samples.Keys, r)
    ensures (host in r && t in r[host] && x in r[host][t])
            <==> exists k :: k in samples && k.pod != "" && k.hostname == host && Sample(t, x) in samples[k]
  {
    ObservedMeaning(samples, PodKeys(samples.Keys, host), t, x);
    hide SumOver;
    assert x in Collected(r, host, t) <==> x in multiset(Collected(r, host, t));
  }

  // ----- the total of a host

  /** The total over a set of times of the values that one key has at them. */
  ghost function Column(ss: seq<Sample>, ts: set<int>): map<int, real>
  {
    map t | t in ts :: Sum(REALS, ValuesAt(ss, t))
  }

  lemma {:induction false} ColumnTotal(ss: seq<Sample>, ts: set<int>)
    requires forall s :: s in ss ==> s.timestamp in ts
    ensures SumOver(REALS, Column(ss, ts), ts) == Sum(REALS, Map(ValueOf, ss))
    decreases |ss|
  {
    if ss == [] {
      NoColumn(ts);
    } else {
      hide *;
      var init, last := ss[..|ss| - 1], ss[|ss| - 1];
      assert init + [last] == ss;
      assert last in ss && forall s :: s in init ==> s in ss;
      ColumnTotal(init, ts);
      ColumnNext(init, last, ts);
      RealsLawful();
      SumOverUpdate(REALS, Column(init, ts), last.timestamp, last.value);
      MapAppend(ValueOf, init, last);
      SumAppend(REALS, Map(ValueOf, init), ValueOf(last));
      ValueIs(last);
    }
  }

  lemma NoColumn(ts: set<int>)
    ensures SumOver(REALS, Column([], ts), ts) == 0.0 && Sum(REALS, Map(ValueOf, [])) == 0.0
  {
    RealsLawful();
    hide Lawful;
    SumOverZero(REALS, Column([], ts), ts);
  }

  lemma ValueIs(s: Sample)
    ensures ValueOf(s) == s.value
  {
  }

  lemma ColumnNext(init: seq<Sample>, last: Sample, ts: set<int>)
    requires last.timestamp in ts
    ensures Column(init, ts).Keys == ts && Column(init + [last], ts).Keys == ts
    ensures Column(init + [last], ts)
            == Column(init, ts)[last.timestamp :=
                 REALS.plus(Folds.At(REALS, Column(init, ts), last.timestamp), last.value)]
  {
    hide ValuesAt, Sum, REALS;
    ValuesNext(init, last);
    SumAppend(REALS, ValuesAt(init, last.timestamp), last.value);
  }

  lemma ValuesNext(init: seq<Sample>, last: Sample)
    ensures ValuesAt(init + [last], last.timestamp) == ValuesAt(init, last.timestamp) + [last.value]
    ensures forall t :: t != last.timestamp ==> ValuesAt(init + [last], t) == ValuesAt(init, t)
  {
    assert (init + [last])[..|init|] == init;
  }

  /** The total over a set of times of the values that some keys have at them. */
  ghost function Columns(samples: SamplesByKey, ks: set<MetricKey>, ts: set<int>): map<int, real>
    requires ks <= samples.Keys
  {
    map t | t in ts :: SumOver(REALS, SumsAt(samples, t), ks)
  }

  lemma {:induction false} ColumnsTotal(samples: SamplesByKey, ks: set<MetricKey>, ts: set<int>)
    requires ks <= samples.Keys
    requires forall k, s :: k in ks && s in samples[k] ==> s.timestamp in ts
    ensures SumOver(REALS, Columns(samples, ks, ts), ts) == SumOver(REALS, KeyTotals(samples), ks)
    decreases |ks|
  {
    if ks == {} {
      NoColumns(samples, ts);
    } else {
      hide *;
      var k :| k in ks;
      ColumnsTotal(samples, ks - {k}, ts);
      ColumnTotal(samples[k], ts);
      ColumnsNext(samples, ks, k, ts);
      RealsLawful();
      KeyTotalIs(samples, k);
      SumOverRemove(REALS, KeyTotals(samples), ks, k);
      SumOverPlus(REALS, Columns(samples, ks - {k}, ts), Column(samples[k], ts), Columns(samples, ks, ts), ts);
    }
  }

  lemma NoColumns(samples: SamplesByKey, ts: set<int>)
    ensures SumOver(REALS, Columns(samples, {}, ts), ts) == 0.0 && SumOver(REALS, KeyTotals(samples), {}) == 0.0
  {
    RealsLawful();
    hide Lawful;
    SumOverZero(REALS, Columns(samples, {}, ts), ts);
  }

  lemma KeyTotalIs(samples: SamplesByKey, k: MetricKey)
    requires k in samples
    ensures KeyTotals(samples).Keys == samples.Keys && KeyTotals(samples)[k] == Sum(REALS, Map(ValueOf, samples[k]))
  {
  }

  lemma ColumnsNext(samples: SamplesByKey, ks: set<MetricKey>, k: MetricKey, ts: set<int>)
    requires ks <= samples.Keys && k in ks
    ensures Columns(samples, ks - {k}, ts).Keys == Columns(samples, ks, ts).Keys == Column(samples[k], ts).Keys == ts
    ensures forall t :: t in ts ==>
              Columns(samples, ks, ts)[t]
              == REALS.plus(Columns(samples, ks - {k}, ts)[t], Column(samples[k], ts)[t])
  {
    hide Lawful, ValuesAt, Sum, SumOver, REALS;
    RealsLawful();
    forall t | t in ts
      ensures Columns(samples, ks, ts)[t]
              == REALS.plus(Columns(samples, ks - {k}, ts)[t], Column(samples[k], ts)[t])
    {
      SumOverRemove(REALS, SumsAt(samples, t), ks, k);
    }
  }

  /** The totals of a host over its times add up to all its pod-labelled samples. */
  lemma HostSum(samples: SamplesByKey, host: string)
    ensures SumOver(REALS, TotalsOf(samples, host), Times(samples, host))
            == SumOver(REALS, KeyTotals(samples), PodKeys(samples.Keys, host))
  {
    hide SumOver, Sum, ValuesAt, Lawful;
    ColumnsTotal(samples, PodKeys(samples.Keys, host), Times(samples, host));
    assert TotalsOf(samples, host) == Columns(samples, PodKeys(samples.Keys, host), Times(samples, host));
  }
}
