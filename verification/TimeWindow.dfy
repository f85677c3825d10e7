/** The query window of both list handlers, and the hourly buckets inside it. */
module TimeWindow {
  import opened Seqs
  import opened Telemetry

  const SECOND: int := 1_000_000_000
  const HOUR: int := 3600 * SECOND
  const WEEK: int := 7 * 24 * HOUR

  datatype RequestFilter = RequestFilter(startTimestamp: int, endTimestamp: int)

  /** `time.Time.Truncate` to the hour. Go counts from year 1, a whole number of hours before the epoch. */
  function Truncate(t: Time): (r: Time)
    ensures Aligned(r) && r <= t < r + HOUR
  {
    t - t % HOUR
  }

  function Unix(t: Time): int
  {
    t / SECOND
  }

  ghost predicate Aligned(t: Time)
  {
    t % HOUR == 0
  }

  /** The end a filter asks for: an explicit end is rounded down to its hour; the default is the hour boundary
      nearest to `now`. */
  function EndHour(f: RequestFilter, now: Time): (r: Time)
    ensures Aligned(r)
    ensures f.endTimestamp > 0 ==> r <= f.endTimestamp * SECOND < r + HOUR
    ensures f.endTimestamp <= 0 ==> now - HOUR / 2 < r <= now + HOUR / 2
  {
    Truncate(if f.endTimestamp > 0 then f.endTimestamp * SECOND else now + HOUR / 2)
  }

  /** The start a filter asks for: an explicit start is rounded down to its hour; the default is the hour that lies
      `duration` before the end. */
  function StartHour(f: RequestFilter, end: Time, duration: int): (r: Time)
    ensures Aligned(r)
    ensures f.startTimestamp > 0 ==> r <= f.startTimestamp * SECOND < r + HOUR
    ensures f.startTimestamp <= 0 ==> r <= end - duration < r + HOUR
  {
    Truncate(if f.startTimestamp > 0 then f.startTimestamp * SECOND else end - duration)
  }

  /** The window a filter asks for; no filter asks for the defaults. */
  function GetStartEndTime(filter: Option<RequestFilter>, now: Time, duration: int): (r: Result<(Time, Time)>)
    ensures r.Success? ==> Aligned(r.value.0) && Aligned(r.value.1) && r.value.0 < r.value.1
    ensures var f := if filter.Some? then filter.value else RequestFilter(0, 0);
            var end := EndHour(f, now);
            var start := StartHour(f, end, duration);
            && (r == Failure(BadEndTimestamp) <==> f.endTimestamp < 0)
            && (r == Failure(BadStartTimestamp) <==> f.endTimestamp >= 0 && f.startTimestamp < 0)
            && (r == Failure(EmptyWindow) <==> f.endTimestamp >= 0 && f.startTimestamp >= 0 && start >= end)
            && (r.Success? <==> f.endTimestamp >= 0 && f.startTimestamp >= 0 && start < end)
            && (r.Success? ==> r.value == (start, end))
    ensures r.Failure? ==> r.error in {BadEndTimestamp, BadStartTimestamp, EmptyWindow}
    ensures r.Failure? && duration >= HOUR ==>
              && filter.Some?
              && (r.error == EmptyWindow ==> filter.value.startTimestamp > 0)
  {
    var f := if filter.Some? then filter.value else RequestFilter(0, 0);
    if f.endTimestamp < 0 then Failure(BadEndTimestamp)
    else
      var end := EndHour(f, now);
      if f.startTimestamp < 0 then Failure(BadStartTimestamp)
      else
        var start := StartHour(f, end, duration);
        if start >= end then Failure(EmptyWindow) else Success((start, end))
  }

  /** The histories of one hour. */
  ghost function Slot<M(!new)>(hs: seq<History<M>>, t: Time): seq<History<M>>
  {
    Created(hs, t, t + HOUR)
  }

  ghost function Created<M(!new)>(hs: seq<History<M>>, start: Time, end: Time): seq<History<M>>
  {
    Filter((h: History<M>) => start <= h.createdAt < end, hs)
  }

  lemma CreatedSplits<M(!new)>(hs: seq<History<M>>, a: Time, b: Time, c: Time)
    requires a <= b <= c
    ensures multiset(Created(hs, a, c)) == multiset(Created(hs, a, b)) + multiset(Created(hs, b, c))
  {
    FilterSplits((h: History<M>) => a <= h.createdAt < b, (h: History<M>) => b <= h.createdAt < c,
                 (h: History<M>) => a <= h.createdAt < c, hs);
  }

  /** The histories of some clusters in a half-open time range. */
  function Window<M(!new)>(hs: seq<History<M>>, ids: set<string>, start: Time, end: Time): seq<History<M>>
  {
    Filter((h: History<M>) => h.clusterID in ids && start <= h.createdAt < end, hs)
  }

  lemma SlotPermutes<M(!new)>(hs: seq<History<M>>, hs': seq<History<M>>, t: Time)
    requires multiset(hs) == multiset(hs')
    ensures multiset(Slot(hs, t)) == multiset(Slot(hs', t))
  {
    var end := t + HOUR;
    FilterPermutes((h: History<M>) => t <= h.createdAt < end, hs, hs');
  }

  lemma SlotOfCopies<M(!new)>(hs: seq<History<M>>, n: nat, t: Time)
    ensures Slot(Copies(hs, n), t) == Copies(Slot(hs, t), n)
  {
    var end := t + HOUR;
    FilterCopies((h: History<M>) => t <= h.createdAt < end, hs, n);
  }

  function Lookup<M>(buckets: map<int, seq<History<M>>>, key: int): seq<History<M>>
  {
    if key in buckets then buckets[key] else []
  }

  lemma NextHour(start: Time, t: Time, n: nat)
    requires t == start + n * HOUR
    ensures Aligned(t) ==> Aligned(t + HOUR)
    ensures t + HOUR == start + (n + 1) * HOUR
    ensures (t - start) / HOUR == n
  {
  }

  /** The first hour that starts at or after the end of an aligned window is its end. */
  lemma LastHour(t: Time, end: Time)
    requires Aligned(t) && Aligned(end) && t < end
    ensures t + HOUR <= end
  {
  }

  lemma TruncateIsSlot(t: Time, c: Time)
    requires Aligned(t)
    ensures Unix(Truncate(c)) == Unix(t) <==> t <= c < t + HOUR
  {
  }

  /** One pass over the histories files each under the hour it was created in: for every hour, the bucket holds
      exactly the histories a direct filter by that hour selects. */
  method BucketByHour<M(!new)>(hs: seq<History<M>>) returns (buckets: map<int, seq<History<M>>>)
    ensures forall t :: Aligned(t) ==> Lookup(buckets, Unix(t)) == Slot(hs, t)
  {
    buckets := map[];
    for i := 0 to |hs|
      invariant forall t :: Aligned(t) ==> Lookup(buckets, Unix(t)) == Slot(hs[..i], t)
    {
      var key := Unix(Truncate(hs[i].createdAt));
      buckets := buckets[key := Lookup(buckets, key) + [hs[i]]];
      forall t | Aligned(t) ensures Lookup(buckets, Unix(t)) == Slot(hs[..i + 1], t) {
        TruncateIsSlot(t, hs[i].createdAt);
        assert hs[..i + 1][..i] == hs[..i];
      }
    }
    assert hs[..|hs|] == hs;
  }

  /** The contents of `n` consecutive hourly buckets together. */
  ghost function SlotUnion<M(!new)>(hs: seq<History<M>>, start: Time, n: nat): multiset<History<M>>
  {
    if n == 0 then multiset{} else SlotUnion(hs, start, n - 1) + multiset(Slot(hs, start + (n - 1) * HOUR))
  }

  lemma CreatedEmpty<M(!new)>(hs: seq<History<M>>, t: Time)
    ensures Created(hs, t, t) == []
  {
    FilterNone((h: History<M>) => t <= h.createdAt < t, hs);
  }

  lemma CreatedAll<M(!new)>(hs: seq<History<M>>, start: Time, end: Time)
    requires forall h :: h in hs ==> start <= h.createdAt < end
    ensures multiset(Created(hs, start, end)) == multiset(hs)
  {
    var p := (h: History<M>) => start <= h.createdAt < end;
    forall h ensures multiset(Filter(p, hs))[h] == multiset(hs)[h] {
      FilterCounts(p, hs, h);
    }
    Extensional(multiset(Filter(p, hs)), multiset(hs));
  }

  lemma {:induction false} SlotUnionIsRange<M(!new)>(hs: seq<History<M>>, start: Time, n: nat, end: Time)
    requires end == start + n * HOUR
    ensures SlotUnion(hs, start, n) == multiset(Created(hs, start, end))
  {
    if n == 0 {
      CreatedEmpty(hs, start);
    } else {
      var t := start + (n - 1) * HOUR;
      SlotUnionIsRange(hs, start, n - 1, t);
      SlotUnionStep(hs, start, n, t);
    }
  }

  lemma SlotUnionStep<M(!new)>(hs: seq<History<M>>, start: Time, n: nat, t: Time)
    requires n > 0 && t == start + (n - 1) * HOUR
    requires SlotUnion(hs, start, n - 1) == multiset(Created(hs, start, t))
    ensures SlotUnion(hs, start, n) == multiset(Created(hs, start, t + HOUR))
  {
    CreatedSplits(hs, start, t, t + HOUR);
  }

  /** The buckets of a window partition what the store returned for it: nothing dropped, nothing twice. */
  lemma BucketsPartition<M(!new)>(hs: seq<History<M>>, start: Time, end: Time)
    requires Aligned(start) && Aligned(end) && start <= end
    requires forall h :: h in hs ==> start <= h.createdAt < end
    ensures SlotUnion(hs, start, (end - start) / HOUR) == multiset(hs)
  {
    SlotUnionIsRange(hs, start, (end - start) / HOUR, end);
    CreatedAll(hs, start, end);
  }

  /** The hour of a window that an instant lies in. */
  function HourOf(start: Time, at: Time): nat
    requires start <= at
  {
    (at - start) / HOUR
  }

  lemma HourOfContains(start: Time, end: Time, at: Time)
    requires Aligned(start) && Aligned(end) && start <= at < end
    ensures HourOf(start, at) < (end - start) / HOUR
    ensures start + HourOf(start, at) * HOUR <= at < start + HourOf(start, at) * HOUR + HOUR
  {
  }
}
