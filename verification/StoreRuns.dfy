/** What the tables hold after any history of writes and requests. */
module StoreRuns {
  import opened Telemetry
  import opened WorkerServer

  /** The cluster rows written under one cluster ID, in order. */
  ghost function RowWrites(ws: seq<Write>, id: string): seq<ClusterRow>
  {
    if ws == [] then []
    else
      var (before, w) := (RowWrites(ws[..|ws| - 1], id), ws[|ws| - 1]);
      if w.RowWrite? && w.row.clusterID == id then before + [w.row] else before
  }

  ghost function SnapshotWrites(ws: seq<Write>): seq<History<Snapshot>>
  {
    if ws == [] then []
    else
      var (before, w) := (SnapshotWrites(ws[..|ws| - 1]), ws[|ws| - 1]);
      if w.SnapshotWrite? then before + [w.snapshot] else before
  }

  ghost function GpuWrites(ws: seq<Write>): seq<History<GpuTelemetry>>
  {
    if ws == [] then []
    else
      var (before, w) := (GpuWrites(ws[..|ws| - 1]), ws[|ws| - 1]);
      if w.GpuWrite? then before + [w.gpu] else before
  }

  /** A cluster ID has a row exactly if one was written; it holds the tenant of the first write and the name of the
      last. */
  lemma {:induction false} RowsAfterWrites(ws: seq<Write>, id: string)
    ensures var rows := Exec(EMPTY, ws).rows;
            var written := RowWrites(ws, id);
            && (id in rows <==> written != [])
            && (id in rows ==> rows[id] == ClusterRow(id, written[|written| - 1].name, written[0].tenantID))
  {
    if ws != [] {
      RowsAfterWrites(ws[..|ws| - 1], id);
    }
  }

  /** Histories only grow: every history write appends its record, and nothing else changes the history tables. */
  lemma {:induction false} HistoriesAfterWrites(t: Tables, ws: seq<Write>)
    ensures Exec(t, ws).snapshots == t.snapshots + SnapshotWrites(ws)
    ensures Exec(t, ws).gpus == t.gpus + GpuWrites(ws)
    decreases |ws|
  {
    if ws != [] {
      HistoriesAfterWrites(t, ws[..|ws| - 1]);
    }
  }

  // ----- requests

  ghost predicate SnapshotsHaveRows(t: Tables)
  {
    forall h :: h in t.snapshots ==> h.clusterID in t.rows
  }

  lemma PayloadKeepsSnapshotRows(t: Tables, info: ClusterInfo, p: Payload, now: Time, k: nat)
    requires SnapshotsHaveRows(t) && k <= |PayloadWrites(info, p, now)|
    ensures SnapshotsHaveRows(Exec(t, PayloadWrites(info, p, now)[..k]))
  {
    var ws := PayloadWrites(info, p, now)[..k];
    if k == 0 {
      assert ws == [];
    } else if k == 1 {
      assert ws[..0] == [];
      assert Exec(t, ws) == Apply(t, ws[0]);
    } else {
      assert ws[..1] == [ws[0]] && ws[..1][..0] == [];
      assert Exec(t, [ws[0]]) == Apply(t, ws[0]);
      assert Exec(t, ws) == Apply(Apply(t, ws[0]), ws[1]);
    }
  }

  lemma {:induction false} PayloadsKeepSnapshotRows(t: Tables, info: ClusterInfo, ps: seq<Payload>, clock: seq<Time>,
                                                    n: nat)
    requires |ps| <= |clock| && SnapshotsHaveRows(t) && n <= |PayloadsWrites(info, ps, clock)|
    ensures SnapshotsHaveRows(Exec(t, PayloadsWrites(info, ps, clock)[..n]))
    decreases |ps|
  {
    if ps == [] {
      assert PayloadsWrites(info, ps, clock)[..n] == [];
    } else {
      hide SnapshotsHaveRows, PayloadWrites;
      var init, last := ps[..|ps| - 1], ps[|ps| - 1];
      var before, own := PayloadsWrites(info, init, clock), PayloadWrites(info, last, clock[|ps| - 1]);
      var all := PayloadsWrites(info, ps, clock);
      assert all == before + own;
      if n <= |before| {
        assert all[..n] == before[..n];
        PayloadsKeepSnapshotRows(t, info, init, clock, n);
      } else {
        assert all[..n] == before + own[..n - |before|] && before[..|before|] == before;
        PayloadsKeepSnapshotRows(t, info, init, clock, |before|);
        ExecConcat(t, before, own[..n - |before|]);
        PayloadKeepsSnapshotRows(Exec(t, before), info, last, clock[|ps| - 1], n - |before|);
      }
    }
  }

  /** Every request, wherever the database stops it, keeps every snapshot history's cluster row in place. */
  lemma RequestKeepsSnapshotRows(t: Tables, info: ClusterInfo, ps: seq<Payload>, clock: seq<Time>, n: nat)
    requires |ps| <= |clock| && SnapshotsHaveRows(t) && n <= |RequestWrites(info, ps, clock)|
    ensures SnapshotsHaveRows(Exec(t, RequestWrites(info, ps, clock)[..n]))
  {
    SupportedIsPrefix(ps);
    PayloadsKeepSnapshotRows(t, info, Supported(ps), clock, n);
  }

  lemma {:induction false} SupportedStops(ps: seq<Payload>, i: nat)
    requires i < |ps| && ps[i].Unset? && forall j :: 0 <= j < i ==> !ps[j].Unset?
    ensures Supported(ps) == ps[..i]
    decreases i
  {
    if i > 0 {
      SupportedStops(ps[1..], i - 1);
    }
  }

  /** A request whose payload `i` is the first unsupported one has exactly the effects of the payloads before it. */
  lemma UnsupportedLeavesPayloadsBefore(info: ClusterInfo, ps: seq<Payload>, clock: seq<Time>, i: nat)
    requires i < |ps| <= |clock| && ps[i].Unset? && forall j :: 0 <= j < i ==> !ps[j].Unset?
    ensures RequestWrites(info, ps, clock) == PayloadsWrites(info, ps[..i], clock)
  {
    SupportedStops(ps, i);
  }

  /** The sender's requests carry one payload: their writes are that payload's. */
  lemma SingletonRequest(info: ClusterInfo, p: Payload, now: Time)
    ensures RequestWrites(info, [p], [now]) == PayloadWrites(info, p, now)
  {
    assert [p][1..] == [] && [p][..0] == [];
    if p.Unset? {
      assert Supported([p]) == [];
    } else {
      assert Supported([p]) == [p];
      assert PayloadsWrites(info, [], [now]) == [];
    }
  }

  // ----- visibility of GPU telemetry

  ghost predicate GpusHaveRows(t: Tables)
  {
    forall h :: h in t.gpus ==> h.clusterID in t.rows
  }

  /** The cluster ID a write is about. */
  function Subject(w: Write): string
  {
    match w
    case RowWrite(c) => c.clusterID
    case SnapshotWrite(h) => h.clusterID
    case GpuWrite(h) => h.clusterID
  }

  ghost predicate TouchesRow(ws: seq<Write>)
  {
    exists w :: w in ws && w.RowWrite?
  }

  ghost predicate TouchesGpus(ws: seq<Write>)
  {
    exists w :: w in ws && w.GpuWrite?
  }

  lemma {:induction false} WritesAboutOneCluster(t: Tables, ws: seq<Write>, id: string)
    requires forall w :: w in ws ==> Subject(w) == id
    ensures Exec(t, ws).rows.Keys == if TouchesRow(ws) then t.rows.Keys + {id} else t.rows.Keys
    ensures forall h :: h in Exec(t, ws).gpus ==> h in t.gpus || h.clusterID == id
    ensures forall h :: h in t.gpus ==> h in Exec(t, ws).gpus
    ensures TouchesGpus(ws) ==> exists h :: h in Exec(t, ws).gpus && h.clusterID == id
    ensures !TouchesGpus(ws) ==> Exec(t, ws).gpus == t.gpus
    decreases |ws|
  {
    if ws != [] {
      var init, last := ws[..|ws| - 1], ws[|ws| - 1];
      assert ws == init + [last] && last in ws;
      WritesAboutOneCluster(t, init, id);
      assert TouchesRow(ws) <==> TouchesRow(init) || last.RowWrite?;
      assert TouchesGpus(ws) <==> TouchesGpus(init) || last.GpuWrite?;
      hide TouchesRow, TouchesGpus;
      var before := Exec(t, init);
      assert Exec(t, ws) == Apply(before, last);
      if last.GpuWrite? {
        assert last.gpu in Exec(t, ws).gpus;
      }
    }
  }

  /** Writes about one cluster keep GPU telemetry visible exactly if the cluster is known, gets its row among them,
      or gets no GPU telemetry. */
  lemma WritesKeepGpuRowsIff(t: Tables, ws: seq<Write>, id: string)
    requires GpusHaveRows(t)
    requires forall w :: w in ws ==> Subject(w) == id
    ensures GpusHaveRows(Exec(t, ws)) <==> id in t.rows || TouchesRow(ws) || !TouchesGpus(ws)
  {
    WritesAboutOneCluster(t, ws, id);
    hide Exec, TouchesRow, TouchesGpus;
  }

  lemma {:induction false} KindsOfWrites(info: ClusterInfo, ps: seq<Payload>, clock: seq<Time>)
    requires |ps| <= |clock|
    ensures forall w :: w in PayloadsWrites(info, ps, clock) ==> Subject(w) == info.clusterID
    ensures TouchesRow(PayloadsWrites(info, ps, clock)) <==> exists p :: p in ps && p.SnapshotPayload?
    ensures TouchesGpus(PayloadsWrites(info, ps, clock)) <==> exists p :: p in ps && p.GpuPayload?
    decreases |ps|
  {
    if ps != [] {
      var init, last := ps[..|ps| - 1], ps[|ps| - 1];
      var own := PayloadWrites(info, last, clock[|ps| - 1]);
      assert ps == init + [last] && last in ps;
      hide TouchesRow, TouchesGpus, PayloadWrites;
      KindsOfWrites(info, init, clock);
      KindsOfPayload(info, last, clock[|ps| - 1]);
      TouchesConcat(PayloadsWrites(info, init, clock), own);
    }
  }

  lemma KindsOfPayload(info: ClusterInfo, p: Payload, now: Time)
    ensures forall w :: w in PayloadWrites(info, p, now) ==> Subject(w) == info.clusterID
    ensures TouchesRow(PayloadWrites(info, p, now)) <==> p.SnapshotPayload?
    ensures TouchesGpus(PayloadWrites(info, p, now)) <==> p.GpuPayload?
  {
    var own := PayloadWrites(info, p, now);
    assert !p.Unset? ==> own[0] in own;
  }

  lemma TouchesConcat(a: seq<Write>, b: seq<Write>)
    ensures TouchesRow(a + b) <==> TouchesRow(a) || TouchesRow(b)
    ensures TouchesGpus(a + b) <==> TouchesGpus(a) || TouchesGpus(b)
  {
  }

  /** A request leaves all GPU telemetry visible exactly if its cluster is known, or it carries a snapshot, or it
      carries no GPU telemetry, up to its first unsupported payload. */
  lemma RequestKeepsGpuRowsIff(t: Tables, info: ClusterInfo, ps: seq<Payload>, clock: seq<Time>)
    requires |ps| <= |clock| && GpusHaveRows(t)
    ensures GpusHaveRows(Exec(t, RequestWrites(info, ps, clock)))
            <==> info.clusterID in t.rows
                 || (exists p :: p in Supported(ps) && p.SnapshotPayload?)
                 || (forall p :: p in Supported(ps) ==> !p.GpuPayload?)
  {
    SupportedIsPrefix(ps);
    KindsOfWrites(info, Supported(ps), clock);
    WritesKeepGpuRowsIff(t, RequestWrites(info, ps, clock), info.clusterID);
  }

  /** The same for a request that the database stops after `n` writes. */
  lemma StoppedRequestKeepsGpuRowsIff(t: Tables, info: ClusterInfo, ps: seq<Payload>, clock: seq<Time>, n: nat)
    requires |ps| <= |clock| && GpusHaveRows(t) && n <= |RequestWrites(info, ps, clock)|
    ensures var ws := RequestWrites(info, ps, clock)[..n];
            GpusHaveRows(Exec(t, ws)) <==> info.clusterID in t.rows || TouchesRow(ws) || !TouchesGpus(ws)
  {
    SupportedIsPrefix(ps);
    KindsOfWrites(info, Supported(ps), clock);
    WritesKeepGpuRowsIff(t, RequestWrites(info, ps, clock)[..n], info.clusterID);
  }

  lemma {:induction false} FirstWrite(info: ClusterInfo, ps: seq<Payload>, clock: seq<Time>)
    requires ps != [] && |ps| <= |clock| && forall p :: p in ps ==> !p.Unset?
    ensures var ws := PayloadsWrites(info, ps, clock);
            ws != [] && (ws[0].RowWrite? <==> ps[0].SnapshotPayload?) && (ws[0].GpuWrite? <==> ps[0].GpuPayload?)
    decreases |ps|
  {
    if |ps| == 1 {
      assert ps[..0] == [] && ps[0] in ps;
    } else {
      FirstWrite(info, ps[..|ps| - 1], clock);
    }
  }

  /** Wherever the database may stop it, a request leaves all GPU telemetry visible exactly if its cluster is known,
      or its first payload is not GPU telemetry. */
  lemma RequestSafeWhereverStoppedIff(t: Tables, info: ClusterInfo, ps: seq<Payload>, clock: seq<Time>)
    requires |ps| <= |clock| && GpusHaveRows(t)
    ensures (forall n :: 0 <= n <= |RequestWrites(info, ps, clock)| ==>
               GpusHaveRows(Exec(t, RequestWrites(info, ps, clock)[..n])))
            <==> info.clusterID in t.rows || ps == [] || !ps[0].GpuPayload?
  {
    hide GpusHaveRows, Exec;
    var ws := RequestWrites(info, ps, clock);
    SupportedIsPrefix(ps);
    if Supported(ps) == [] {
      forall n | 0 <= n <= |ws| ensures GpusHaveRows(Exec(t, ws[..n])) {
        StoppedRequestKeepsGpuRowsIff(t, info, ps, clock, n);
      }
    } else {
      FirstWrite(info, Supported(ps), clock);
      forall n | 1 <= n <= |ws| ensures ws[..n][0] == ws[0] && ws[0] in ws[..n] {
      }
      forall n | 0 <= n <= |ws|
        ensures GpusHaveRows(Exec(t, ws[..n]))
                <==> info.clusterID in t.rows || TouchesRow(ws[..n]) || !TouchesGpus(ws[..n])
      {
        StoppedRequestKeepsGpuRowsIff(t, info, ps, clock, n);
      }
      assert forall w :: w in ws[..1] ==> w == ws[0];
    }
  }

  /** So the server by itself does not keep GPU telemetry visible: on tables without a row for a cluster, a request
      that carries only GPU telemetry leaves a history without a cluster row. It is the agent's order that prevents
      this. */
  lemma GpuAloneIsInvisible(t: Tables, info: ClusterInfo, g: GpuTelemetry, now: Time)
    requires info.clusterID !in t.rows
    ensures var t' := Exec(t, RequestWrites(info, [GpuPayload(g)], [now]));
            History(info.clusterID, Encoded(g), now) in t'.gpus && info.clusterID !in t'.rows
  {
    hide *;
    SingletonRequest(info, GpuPayload(g), now);
    ExecGpu(t, info, g, now);
  }

  lemma ExecGpu(t: Tables, info: ClusterInfo, g: GpuTelemetry, now: Time)
    ensures var t' := Exec(t, PayloadWrites(info, GpuPayload(g), now));
            t'.gpus == t.gpus + [History(info.clusterID, Encoded(g), now)] && t'.rows == t.rows
  {
    var ws := PayloadWrites(info, GpuPayload(g), now);
    assert ws[..0] == [];
    assert Exec(t, ws) == Apply(t, ws[0]);
  }

  // ----- what a request writes

  /** A snapshot request leaves a row with the name it carries, and with the tenant of the row before or, for a new
      cluster, its own; and one history with its snapshot and time. */
  lemma SnapshotRequestEffects(t: Tables, info: ClusterInfo, s: Snapshot, now: Time)
    ensures var id := info.clusterID;
            var tenant := if id in t.rows then t.rows[id].tenantID else info.tenantID;
            var rowID := if id in t.rows then t.rows[id].clusterID else id;
            Exec(t, RequestWrites(info, [SnapshotPayload(s)], [now]))
            == Tables(t.rows[id := ClusterRow(rowID, info.clusterName, tenant)],
                      t.snapshots + [History(id, Encoded(s), now)], t.gpus)
  {
    SingletonRequest(info, SnapshotPayload(s), now);
    var ws := PayloadWrites(info, SnapshotPayload(s), now);
    assert ws[..1] == [ws[0]] && ws[..1][..0] == [];
    assert Exec(t, ws[..1]) == Apply(t, ws[0]);
    assert Exec(t, ws) == Apply(Apply(t, ws[0]), ws[1]);
    hide Exec, RequestWrites, PayloadWrites;
  }

  /** A GPU telemetry request leaves one history with its message and time, and nothing else. */
  lemma GpuRequestEffects(t: Tables, info: ClusterInfo, g: GpuTelemetry, now: Time)
    ensures Exec(t, RequestWrites(info, [GpuPayload(g)], [now]))
            == t.(gpus := t.gpus + [History(info.clusterID, Encoded(g), now)])
  {
    SingletonRequest(info, GpuPayload(g), now);
    var ws := PayloadWrites(info, GpuPayload(g), now);
    assert ws[..0] == [];
    assert Exec(t, ws) == Apply(t, ws[0]);
    hide Exec, RequestWrites, PayloadWrites;
  }
}
