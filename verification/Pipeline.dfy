/** The telemetry pipeline as a step system: any number of agent runs (restarts and replicas are further runs), each
    with a collector, an unbuffered channel and a sender, talking to one server over one set of tables. Steps of
    different runs interleave down to the single table write, and a request whose sender gave up may still be
    served later. */
module Pipeline {
  import opened Telemetry
  import Store
  import opened WorkerServer

  /** The one request a run can have outstanding: not there, being served with `done` writes made, or answered. */
  datatype Rpc = Idle | InFlight(p: Payload, done: nat) | Answered(p: Payload, ok: bool)

  datatype Run = Run(
    info: ClusterInfo,
    withGpu: bool,             // whether the GPU collector is registered after the snapshot collector
    collecting: bool,
    produced: seq<Payload>,    // everything collected so far
    pending: Option<Payload>,  // collected, blocked on the channel
    sending: bool,
    rpc: Rpc,
    acked: seq<Payload>)       // everything sent successfully

  /** A payload whose last write was made, at time `at`, and the run it came from. */
  datatype Entry = Entry(run: nat, info: ClusterInfo, p: Payload, at: Time)

  /** `log` is for the record only: no step depends on it. */
  datatype System = System(runs: seq<Run>, tables: Tables, log: seq<Entry>)

  datatype Step =
    | StartRun(info: ClusterInfo, withGpu: bool)
    | Produce(run: nat, p: Payload)
    | CollectFails(run: nat)
    | HandOver(run: nat)
    | ServeWrite(run: nat, now: Time)
    | ServeDone(run: nat)
    | ServeRefused(run: nat)
    | Acknowledge(run: nat)
    | SendFails(run: nat)
    | Stop(run: nat)

  /** The collectors take turns in registration order: snapshot first, then GPU telemetry if registered. */
  predicate Turn(withGpu: bool, k: nat, p: Payload)
  {
    if withGpu && k % 2 == 1 then p.GpuPayload? else p.SnapshotPayload?
  }

  /** One run's own part of a step; a step that is not enabled changes nothing. */
  function Move(r: Run, step: Step): Run
  {
    match step
    case Produce(_, p) =>
      if r.collecting && r.pending.None? && Turn(r.withGpu, |r.produced|, p)
      then r.(produced := r.produced + [p], pending := Some(p)) else r
    case CollectFails(_) => r.(collecting := false)
    case HandOver(_) =>
      if r.sending && r.rpc.Idle? && r.pending.Some?
      then r.(pending := None, rpc := InFlight(r.pending.value, 0)) else r
    case ServeDone(_) =>
      if r.rpc.InFlight? && r.rpc.done == WriteCount(r.rpc.p) then r.(rpc := Answered(r.rpc.p, true)) else r
    case ServeRefused(_) =>
      if r.rpc.InFlight? && r.rpc.done < WriteCount(r.rpc.p) then r.(rpc := Answered(r.rpc.p, false)) else r
    case Acknowledge(_) =>
      if r.sending && r.rpc.Answered? && r.rpc.ok
      then r.(rpc := Idle, acked := r.acked + [r.rpc.p]) else r
    case SendFails(_) => if r.rpc.Idle? then r else r.(sending := false)
    case Stop(_) => r.(collecting := false, sending := false)
    case _ => r
  }

  function WriteCount(p: Payload): nat
  {
    match p
    case SnapshotPayload(_) => 2
    case GpuPayload(_) => 1
    case Unset => 0
  }

  function Do(s: System, step: Step): System
  {
    match step
    case StartRun(info, withGpu) =>
      s.(runs := s.runs + [Run(info, withGpu, true, [], None, true, Idle, [])])
    case ServeWrite(i, now) =>
      if i < |s.runs| && s.runs[i].rpc.InFlight? && s.runs[i].rpc.done < WriteCount(s.runs[i].rpc.p)
      then Serve(s, i, now) else s
    case _ =>
      if step.run < |s.runs| then s.(runs := s.runs[step.run := Move(s.runs[step.run], step)]) else s
  }

  /** The server makes the next write of run `i`'s request. */
  function Serve(s: System, i: nat, now: Time): System
    requires i < |s.runs| && s.runs[i].rpc.InFlight? && s.runs[i].rpc.done < WriteCount(s.runs[i].rpc.p)
  {
    var r := s.runs[i];
    var (p, done) := (r.rpc.p, r.rpc.done);
    System(s.runs[i := r.(rpc := InFlight(p, done + 1))],
           Apply(s.tables, PayloadWrites(r.info, p, now)[done]),
           if done + 1 == WriteCount(p) then s.log + [Entry(i, r.info, p, now)] else s.log)
  }

  const START := System([], EMPTY, [])

  /** The state after any sequence of steps. */
  function After(steps: seq<Step>): System
  {
    if steps == [] then START else Do(After(steps[..|steps| - 1]), steps[|steps| - 1])
  }

  // ----- the invariant

  function Outstanding(r: Run): seq<Payload>
  {
    (if r.rpc.Idle? then [] else [r.rpc.p]) + (if r.pending.Some? then [r.pending.value] else [])
  }

  /** Whether the outstanding request has made all its writes. */
  predicate Completed(rpc: Rpc)
  {
    match rpc
    case Idle => false
    case InFlight(p, done) => done == WriteCount(p)
    case Answered(_, ok) => ok
  }

  /** The payloads of run `i` that the server has stored completely, in the order it stored them. */
  ghost function Stored(log: seq<Entry>, i: nat): seq<Payload>
  {
    if log == [] then []
    else Stored(log[..|log| - 1], i) + if log[|log| - 1].run == i then [log[|log| - 1].p] else []
  }

  /** The snapshot histories a log of stored payloads amounts to. */
  ghost function SnapshotsOf(log: seq<Entry>): seq<History<Snapshot>>
  {
    if log == [] then []
    else
      var (before, e) := (SnapshotsOf(log[..|log| - 1]), log[|log| - 1]);
      if e.p.SnapshotPayload? then before + [History(e.info.clusterID, Encoded(e.p.snapshot), e.at)] else before
  }

  /** The GPU telemetry histories a log of stored payloads amounts to. */
  ghost function GpusOf(log: seq<Entry>): seq<History<GpuTelemetry>>
  {
    if log == [] then []
    else
      var (before, e) := (GpusOf(log[..|log| - 1]), log[|log| - 1]);
      if e.p.GpuPayload? then before + [History(e.info.clusterID, Encoded(e.p.telemetry), e.at)] else before
  }

  /** Nothing is lost, repeated or reordered inside a run. */
  ghost predicate InOrder(r: Run)
  {
    && r.produced == r.acked + Outstanding(r)
    && (forall k :: 0 <= k < |r.produced| ==> Turn(r.withGpu, k, r.produced[k]))
  }

  /** What a run has achieved is in the tables. */
  ghost predicate RowKnown(r: Run, rows: map<string, ClusterRow>)
  {
    && (r.acked != [] ==> r.info.clusterID in rows)
    && (!r.rpc.Idle? && r.rpc.p.SnapshotPayload? && (if r.rpc.InFlight? then r.rpc.done >= 1 else r.rpc.ok) ==>
          r.info.clusterID in rows)
    && (r.rpc.InFlight? ==> r.rpc.done <= WriteCount(r.rpc.p))
  }

  ghost predicate StoredInOrder(r: Run, stored: seq<Payload>)
  {
    stored == r.acked + if Completed(r.rpc) then [r.rpc.p] else []
  }

  ghost predicate RunInv(r: Run, rows: map<string, ClusterRow>, stored: seq<Payload>)
  {
    InOrder(r) && RowKnown(r, rows) && StoredInOrder(r, stored)
  }

  ghost predicate HistoriesHaveRows(t: Tables)
  {
    && (forall h :: h in t.snapshots ==> h.clusterID in t.rows)
    && (forall h :: h in t.gpus ==> h.clusterID in t.rows)
  }

  ghost predicate HasIdentity(r: Run, c: ClusterRow)
  {
    r.info.clusterID == c.clusterID && r.info.tenantID == c.tenantID
  }

  /** Every row was written for some run. */
  ghost predicate RowsFromRuns(runs: seq<Run>, rows: map<string, ClusterRow>)
  {
    forall id :: id in rows ==> rows[id].clusterID == id && exists r :: r in runs && HasIdentity(r, rows[id])
  }

  /** The history tables are exactly what the log says, and the log is about existing runs. */
  ghost predicate TablesFromLog(runs: seq<Run>, t: Tables, log: seq<Entry>)
  {
    && t.snapshots == SnapshotsOf(log)
    && t.gpus == GpusOf(log)
    && (forall e :: e in log ==> e.run < |runs| && runs[e.run].info == e.info)
  }

  ghost predicate Inv(s: System)
  {
    && HistoriesHaveRows(s.tables)
    && RowsFromRuns(s.runs, s.tables.rows)
    && TablesFromLog(s.runs, s.tables, s.log)
    && (forall i :: 0 <= i < |s.runs| ==> RunInv(s.runs[i], s.tables.rows, Stored(s.log, i)))
  }

  lemma MoveKeepsOrder(r: Run, step: Step)
    requires InOrder(r)
    ensures InOrder(Move(r, step))
  {
    var r' := Move(r, step);
    match step
    case Produce(_, p) =>
      assert r' != r ==> r'.produced == r.acked + Outstanding(r) + [p] && Outstanding(r') == Outstanding(r) + [p];
    case Acknowledge(_) =>
      assert r' != r ==> Outstanding(r) == [r.rpc.p] + Outstanding(r');
    case _ =>
      assert Outstanding(r') == Outstanding(r);
  }

  /** The first payload of a run is a snapshot: a run that sends GPU telemetry has had a snapshot acknowledged. */
  lemma OutstandingHasKind(r: Run)
    requires InOrder(r) && !r.rpc.Idle?
    ensures !r.rpc.p.Unset?
    ensures r.rpc.p.GpuPayload? ==> r.acked != []
  {
    assert r.produced[|r.acked|] == r.rpc.p;
    assert Turn(r.withGpu, |r.acked|, r.produced[|r.acked|]);
  }

  lemma MoveKeepsRowKnown(r: Run, step: Step, rows: map<string, ClusterRow>)
    requires InOrder(r) && RowKnown(r, rows)
    ensures RowKnown(Move(r, step), rows)
  {
    if !r.rpc.Idle? {
      OutstandingHasKind(r);
    }
  }

  lemma MoveKeepsStored(r: Run, step: Step, stored: seq<Payload>)
    requires StoredInOrder(r, stored)
    requires InOrder(r)
    ensures StoredInOrder(Move(r, step), stored)
  {
    var r' := Move(r, step);
    MoveKeepsOrder(r, step);
    if step.HandOver? && r' != r {
      OutstandingHasKind(r');
    }
  }

  lemma MoveKeepsRunInv(r: Run, step: Step, rows: map<string, ClusterRow>, stored: seq<Payload>)
    requires RunInv(r, rows, stored)
    ensures RunInv(Move(r, step), rows, stored)
  {
    hide Move, InOrder, RowKnown, StoredInOrder, Completed, WriteCount;
    MoveKeepsOrder(r, step);
    MoveKeepsRowKnown(r, step, rows);
    MoveKeepsStored(r, step, stored);
  }

  lemma LogAppend(log: seq<Entry>, e: Entry, i: nat)
    ensures Stored(log + [e], i) == if e.run == i then Stored(log, i) + [e.p] else Stored(log, i)
    ensures SnapshotsOf(log + [e])
            == if e.p.SnapshotPayload? then SnapshotsOf(log) + [History(e.info.clusterID, Encoded(e.p.snapshot), e.at)]
               else SnapshotsOf(log)
    ensures GpusOf(log + [e])
            == if e.p.GpuPayload? then GpusOf(log) + [History(e.info.clusterID, Encoded(e.p.telemetry), e.at)]
               else GpusOf(log)
  {
    assert (log + [e])[..|log|] == log;
  }

  lemma {:induction false} StoredNothing(log: seq<Entry>, i: nat)
    requires forall e :: e in log ==> e.run < i
    ensures Stored(log, i) == []
  {
    if log != [] {
      assert log[|log| - 1] in log;
      StoredNothing(log[..|log| - 1], i);
    }
  }

  lemma ServeTables(r: Run, t: Tables, now: Time)
    requires r.rpc.InFlight? && r.rpc.done < WriteCount(r.rpc.p)
    requires InOrder(r) && RowKnown(r, t.rows) && HistoriesHaveRows(t)
    ensures var t' := Apply(t, PayloadWrites(r.info, r.rpc.p, now)[r.rpc.done]);
            && HistoriesHaveRows(t')
            && t.rows.Keys <= t'.rows.Keys
            && RowKnown(r.(rpc := InFlight(r.rpc.p, r.rpc.done + 1)), t'.rows)
  {
    if r.rpc.p.GpuPayload? {
      OutstandingHasKind(r);
    }
  }

  lemma ServeKeepsRuns(s: System, i: nat, now: Time)
    requires Inv(s)
    requires i < |s.runs| && s.runs[i].rpc.InFlight? && s.runs[i].rpc.done < WriteCount(s.runs[i].rpc.p)
    ensures var s' := Serve(s, i, now);
            && HistoriesHaveRows(s'.tables)
            && forall j :: 0 <= j < |s'.runs| ==> RunInv(s'.runs[j], s'.tables.rows, Stored(s'.log, j))
  {
    hide RunInv, InOrder, RowKnown, StoredInOrder, Stored, SnapshotsOf, GpusOf, Apply, PayloadWrites,
      HistoriesHaveRows, RowsFromRuns, TablesFromLog;
    var r, s' := s.runs[i], Serve(s, i, now);
    assert RunInv(r, s.tables.rows, Stored(s.log, i));
    ServeOwnRun(r, s.tables, Stored(s.log, i), now);
    forall j | 0 <= j < |s.runs| ensures RunInv(s'.runs[j], s'.tables.rows, Stored(s'.log, j)) {
      LogAppend(s.log, Entry(i, r.info, r.rpc.p, now), j);
      assert RunInv(s.runs[j], s.tables.rows, Stored(s.log, j));
      if j != i {
        MoreRows(s.runs[j], s.tables.rows, s'.tables.rows, Stored(s.log, j));
      }
    }
  }

  /** A write for another run. */
  lemma MoreRows(r: Run, rows: map<string, ClusterRow>, rows': map<string, ClusterRow>, stored: seq<Payload>)
    requires RunInv(r, rows, stored) && rows.Keys <= rows'.Keys
    ensures RunInv(r, rows', stored)
  {
    hide InOrder, StoredInOrder;
  }

  /** A write for the run itself. */
  lemma ServeOwnRun(r: Run, t: Tables, stored: seq<Payload>, now: Time)
    requires r.rpc.InFlight? && r.rpc.done < WriteCount(r.rpc.p)
    requires RunInv(r, t.rows, stored) && HistoriesHaveRows(t)
    ensures var (p, done) := (r.rpc.p, r.rpc.done);
            var t' := Apply(t, PayloadWrites(r.info, p, now)[done]);
            && HistoriesHaveRows(t')
            && t.rows.Keys <= t'.rows.Keys
            && RunInv(r.(rpc := InFlight(p, done + 1)), t'.rows,
                      if done + 1 == WriteCount(p) then stored + [p] else stored)
  {
    ServeTables(r, t, now);
    hide RowKnown, HistoriesHaveRows, Apply, PayloadWrites;
  }

  lemma ServeKeepsLog(s: System, i: nat, now: Time)
    requires TablesFromLog(s.runs, s.tables, s.log)
    requires i < |s.runs| && s.runs[i].rpc.InFlight? && s.runs[i].rpc.done < WriteCount(s.runs[i].rpc.p)
    ensures var s' := Serve(s, i, now); TablesFromLog(s'.runs, s'.tables, s'.log)
  {
    LogAppend(s.log, Entry(i, s.runs[i].info, s.runs[i].rpc.p, now), i);
  }

  lemma SameIdentities(runs: seq<Run>, runs': seq<Run>, rows: map<string, ClusterRow>)
    requires RowsFromRuns(runs, rows) && |runs| <= |runs'|
    requires forall j :: 0 <= j < |runs| ==> runs'[j].info == runs[j].info
    ensures RowsFromRuns(runs', rows)
  {
    forall id | id in rows ensures exists r :: r in runs' && HasIdentity(r, rows[id]) {
      var r :| r in runs && HasIdentity(r, rows[id]);
      var j :| 0 <= j < |runs| && runs[j] == r;
      assert runs'[j] in runs' && HasIdentity(runs'[j], rows[id]);
    }
  }

  lemma ServeKeepsRows(s: System, i: nat, now: Time)
    requires RowsFromRuns(s.runs, s.tables.rows)
    requires i < |s.runs| && s.runs[i].rpc.InFlight? && s.runs[i].rpc.done < WriteCount(s.runs[i].rpc.p)
    ensures var s' := Serve(s, i, now); RowsFromRuns(s'.runs, s'.tables.rows)
  {
    var s' := Serve(s, i, now);
    var r := s'.runs[i];
    assert r in s'.runs && r.info == s.runs[i].info;
    SameIdentities(s.runs, s'.runs, s.tables.rows);
    UpsertKeepsRows(s'.runs, s.tables.rows, r);
    hide RowsFromRuns, Store.UpsertRow;
  }

  lemma UpsertKeepsRows(runs: seq<Run>, rows: map<string, ClusterRow>, r: Run)
    requires RowsFromRuns(runs, rows) && r in runs
    ensures RowsFromRuns(runs, Store.UpsertRow(rows, RowOf(r.info)))
  {
    var rows' := Store.UpsertRow(rows, RowOf(r.info));
    forall id | id in rows' ensures rows'[id].clusterID == id && exists q :: q in runs && HasIdentity(q, rows'[id]) {
      if id in rows {
        var q :| q in runs && HasIdentity(q, rows[id]);
        assert HasIdentity(q, rows'[id]);
      } else {
        assert HasIdentity(r, rows'[id]);
      }
    }
  }

  lemma MoveKeepsInv(s: System, i: nat, step: Step)
    requires Inv(s) && i < |s.runs|
    ensures Inv(s.(runs := s.runs[i := Move(s.runs[i], step)]))
  {
    hide RunInv, HistoriesHaveRows, RowsFromRuns;
    MoveKeepsRunInv(s.runs[i], step, s.tables.rows, Stored(s.log, i));
    SameIdentities(s.runs, s.runs[i := Move(s.runs[i], step)], s.tables.rows);
  }

  lemma StartKeepsInv(s: System, info: ClusterInfo, withGpu: bool)
    requires Inv(s)
    ensures Inv(Do(s, StartRun(info, withGpu)))
  {
    StoredNothing(s.log, |s.runs|);
    SameIdentities(s.runs, Do(s, StartRun(info, withGpu)).runs, s.tables.rows);
    hide RowsFromRuns;
  }

  lemma StepKeepsInv(s: System, step: Step)
    requires Inv(s)
    ensures Inv(Do(s, step))
  {
    hide Move, Serve, Inv;
    match step
    case StartRun(info, withGpu) =>
      StartKeepsInv(s, info, withGpu);
    case ServeWrite(i, now) =>
      if i < |s.runs| && s.runs[i].rpc.InFlight? && s.runs[i].rpc.done < WriteCount(s.runs[i].rpc.p) {
        ServeKeepsInv(s, i, now);
      }
    case _ =>
      if step.run < |s.runs| {
        MoveKeepsInv(s, step.run, step);
      }
  }

  lemma ServeKeepsInv(s: System, i: nat, now: Time)
    requires Inv(s)
    requires i < |s.runs| && s.runs[i].rpc.InFlight? && s.runs[i].rpc.done < WriteCount(s.runs[i].rpc.p)
    ensures Inv(Serve(s, i, now))
  {
    ServeKeepsRuns(s, i, now);
    ServeKeepsLog(s, i, now);
    ServeKeepsRows(s, i, now);
    hide Serve, RunInv, HistoriesHaveRows, RowsFromRuns, TablesFromLog;
  }

  lemma {:induction false} InvAlways(steps: seq<Step>)
    ensures Inv(After(steps))
  {
    if steps != [] {
      InvAlways(steps[..|steps| - 1]);
      StepKeepsInv(After(steps[..|steps| - 1]), steps[|steps| - 1]);
    }
  }
}
