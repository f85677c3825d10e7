/** The database tables as the server uses them. Any call may be refused by the database, which leaves the tables
    as they were and is counted; lists come back in no particular order. */
module Store {
  import Seqs
  import opened Telemetry
  import TimeWindow

  /** The cluster table after a successful create-or-update: a known cluster keeps its tenant, and its name
      becomes the new one; an unknown cluster gets the row. */
  function UpsertRow(rows: map<string, ClusterRow>, c: ClusterRow): map<string, ClusterRow>
  {
    rows[c.clusterID := if c.clusterID in rows then rows[c.clusterID].(name := c.name) else c]
  }

  /** The names of a tenant's clusters by cluster ID. */
  ghost function Names(rows: map<string, ClusterRow>, tenantID: string): map<string, string>
  {
    map id | id in rows && rows[id].tenantID == tenantID :: rows[id].name
  }

  /** The name map a handler builds from a list of rows; a later row overrides an earlier one. */
  ghost function NamesOf(cs: seq<ClusterRow>): map<string, string>
  {
    if cs == [] then map[] else NamesOf(cs[..|cs| - 1])[cs[|cs| - 1].clusterID := cs[|cs| - 1].name]
  }

  ghost predicate DistinctIDs(cs: seq<ClusterRow>)
  {
    cs == [] || (cs[|cs| - 1].clusterID !in NamesOf(cs[..|cs| - 1]) && DistinctIDs(cs[..|cs| - 1]))
  }

  lemma NamesOfAppend(cs: seq<ClusterRow>, c: ClusterRow)
    ensures NamesOf(cs + [c]) == NamesOf(cs)[c.clusterID := c.name]
    ensures DistinctIDs(cs + [c]) <==> c.clusterID !in NamesOf(cs) && DistinctIDs(cs)
  {
    assert (cs + [c])[..|cs|] == cs;
  }

  lemma {:induction false} DistinctIDsPrefix(cs: seq<ClusterRow>, n: nat)
    requires DistinctIDs(cs) && n <= |cs|
    ensures DistinctIDs(cs[..n])
    decreases |cs|
  {
    if n == |cs| {
      assert cs[..n] == cs;
    } else {
      assert cs[..|cs| - 1][..n] == cs[..n];
      DistinctIDsPrefix(cs[..|cs| - 1], n);
    }
  }

  /** `cs` lists the tenant's rows among the cluster IDs `done`. */
  ghost predicate Lists(cs: seq<ClusterRow>, rows: map<string, ClusterRow>, done: set<string>, tenantID: string)
  {
    && (forall c :: c in cs <==>
          c.clusterID in done && c.clusterID in rows && rows[c.clusterID] == c && c.tenantID == tenantID)
    && DistinctIDs(cs)
    && NamesOf(cs) == (map id | id in rows && id in done && rows[id].tenantID == tenantID :: rows[id].name)
  }

  lemma NothingListed(rows: map<string, ClusterRow>, tenantID: string)
    ensures Lists([], rows, {}, tenantID)
  {
  }

  lemma ListNext(cs: seq<ClusterRow>, rows: map<string, ClusterRow>, done: set<string>, id: string, tenantID: string)
    requires Lists(cs, rows, done, tenantID) && id in rows && id !in done && rows[id].clusterID == id
    ensures rows[id].tenantID == tenantID ==> Lists(cs + [rows[id]], rows, done + {id}, tenantID)
    ensures rows[id].tenantID != tenantID ==> Lists(cs, rows, done + {id}, tenantID)
  {
    NamesOfAppend(cs, rows[id]);
    hide NamesOf, DistinctIDs;
  }

  lemma AllListed(cs: seq<ClusterRow>, rows: map<string, ClusterRow>, tenantID: string)
    requires Lists(cs, rows, rows.Keys, tenantID)
    ensures forall c :: c in cs <==> c.clusterID in rows && rows[c.clusterID] == c && c.tenantID == tenantID
    ensures DistinctIDs(cs) && NamesOf(cs) == Names(rows, tenantID)
    ensures cs == [] <==> Names(rows, tenantID) == map[]
  {
    if cs != [] {
      assert cs[|cs| - 1].clusterID in NamesOf(cs);
    }
  }

  class Store {
    var rows: map<string, ClusterRow>
    var snapshots: seq<History<Snapshot>>
    var gpus: seq<History<GpuTelemetry>>
    ghost var refusals: nat

    ghost function View(): Tables
      reads this
    {
      Tables(rows, snapshots, gpus)
    }

    ghost predicate Valid()
      reads this
    {
      forall id :: id in rows ==> rows[id].clusterID == id
    }

    constructor ()
      ensures Valid() && View() == Tables(map[], [], [])
    {
      rows, snapshots, gpus := map[], [], [];
      refusals := 0;
    }

    /** Whether the database refuses the next call. */
    method Refused() returns (refused: bool)
      modifies this`refusals
      ensures refusals == old(refusals) + if refused then 1 else 0
    {
      refused := *;
      if refused {
        refusals := refusals + 1;
      }
    }

    method CreateOrUpdateClusterSnapshot(c: ClusterRow) returns (ok: bool)
      requires Valid()
      modifies this`rows, this`refusals
      ensures Valid()
      ensures refusals == old(refusals) + if ok then 0 else 1
      ensures rows == if ok then UpsertRow(old(rows), c) else old(rows)
    {
      var refused := Refused();
      ok := !refused;
      if !ok {
        return;
      }
      if c.clusterID !in rows {
        rows := rows[c.clusterID := c];
        return;
      }
      var existing := rows[c.clusterID];
      if existing.name == c.name {
        assert existing.(name := c.name) == existing;
        return;
      }
      rows := rows[c.clusterID := existing.(name := c.name)];
    }

    method CreateClusterSnapshotHistory(h: History<Snapshot>) returns (ok: bool)
      modifies this`snapshots, this`refusals
      ensures refusals == old(refusals) + if ok then 0 else 1
      ensures snapshots == if ok then old(snapshots) + [h] else old(snapshots)
    {
      var refused := Refused();
      ok := !refused;
      if ok {
        snapshots := snapshots + [h];
      }
    }

    method CreateGPUTelemetryHistory(h: History<GpuTelemetry>) returns (ok: bool)
      modifies this`gpus, this`refusals
      ensures refusals == old(refusals) + if ok then 0 else 1
      ensures gpus == if ok then old(gpus) + [h] else old(gpus)
    {
      var refused := Refused();
      ok := !refused;
      if ok {
        gpus := gpus + [h];
      }
    }

    /** Lists exactly the tenant's rows, each once. */
    method ListClusterSnapshotsByTenantID(tenantID: string) returns (r: Result<seq<ClusterRow>>)
      requires Valid()
      modifies this`refusals
      ensures r.Failure? ==> r.error == StoreFailure
      ensures refusals == old(refusals) + if r.Failure? then 1 else 0
      ensures r.Success? ==>
                forall c :: c in r.value <==> c.clusterID in rows && rows[c.clusterID] == c && c.tenantID == tenantID
      ensures r.Success? ==> DistinctIDs(r.value) && NamesOf(r.value) == Names(rows, tenantID)
      ensures r.Success? ==> (r.value == [] <==> Names(rows, tenantID) == map[])
    {
      var refused := Refused();
      if refused {
        return Failure(StoreFailure);
      }
      hide Lists, NamesOf, DistinctIDs;
      var cs: seq<ClusterRow> := [];
      var rest := rows.Keys;
      NothingListed(rows, tenantID);
      ghost var done: set<string> := {};
      while rest != {}
        invariant refusals == old(refusals)
        invariant rest !! done && rest + done == rows.Keys
        invariant Lists(cs, rows, done, tenantID)
      {
        var id :| id in rest;
        ListNext(cs, rows, done, id, tenantID);
        if rows[id].tenantID == tenantID {
          cs := cs + [rows[id]];
        }
        rest, done := rest - {id}, done + {id};
      }
      assert done == rows.Keys;
      AllListed(cs, rows, tenantID);
      return Success(cs);
    }

    /** Lists one cluster's snapshot histories created in a half-open time range. */
    method ListClusterSnapshotHistories(clusterID: string, start: Time, end: Time)
      returns (r: Result<seq<History<Snapshot>>>)
      modifies this`refusals
      ensures r.Failure? ==> r.error == StoreFailure
      ensures refusals == old(refusals) + if r.Failure? then 1 else 0
      ensures r.Success? ==> multiset(r.value) == multiset(TimeWindow.Window(snapshots, {clusterID}, start, end))
    {
      var refused := Refused();
      if refused {
        return Failure(StoreFailure);
      }
      r := Success(TimeWindow.Window(snapshots, {clusterID}, start, end));
    }

    /** Lists one cluster's GPU telemetry histories created in a half-open time range. */
    method ListGPUTelemetryHistories(clusterID: string, start: Time, end: Time)
      returns (r: Result<seq<History<GpuTelemetry>>>)
      modifies this`refusals
      ensures r.Failure? ==> r.error == StoreFailure
      ensures refusals == old(refusals) + if r.Failure? then 1 else 0
      ensures r.Success? ==> multiset(r.value) == multiset(TimeWindow.Window(gpus, {clusterID}, start, end))
    {
      var refused := Refused();
      if refused {
        return Failure(StoreFailure);
      }
      r := Success(TimeWindow.Window(gpus, {clusterID}, start, end));
    }
  }

  /** Querying the clusters one by one gathers exactly what one query for all of them would. */
  lemma WindowAddCluster<M(!new)>(hs: seq<History<M>>, ids: set<string>, id: string, start: Time, end: Time)
    requires id !in ids
    ensures multiset(TimeWindow.Window(hs, ids + {id}, start, end))
            == multiset(TimeWindow.Window(hs, ids, start, end)) + multiset(TimeWindow.Window(hs, {id}, start, end))
  {
    var one, all := {id}, ids + {id};
    Seqs.FilterSplits((h: History<M>) => h.clusterID in ids && start <= h.createdAt < end,
                 (h: History<M>) => h.clusterID in one && start <= h.createdAt < end,
                 (h: History<M>) => h.clusterID in all && start <= h.createdAt < end, hs);
  }

  lemma WindowNone<M(!new)>(hs: seq<History<M>>, start: Time, end: Time)
    ensures TimeWindow.Window(hs, {}, start, end) == []
  {
    var none: set<string> := {};
    Seqs.FilterNone((h: History<M>) => h.clusterID in none && start <= h.createdAt < end, hs);
  }
}
