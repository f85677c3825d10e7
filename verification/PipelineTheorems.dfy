/** What holds after any interleaving of the pipeline's steps, through failures and restarts. */
module PipelineTheorems {
  import opened Telemetry
  import WorkerServer
  import StoreRuns
  import opened Pipeline

  /** The server's steps for a request are the writes of `SendClusterTelemetry` for that request, in order. */
  lemma ServeFollowsRequest(s: System, i: nat, now: Time)
    requires i < |s.runs| && s.runs[i].rpc.InFlight? && s.runs[i].rpc.done < WriteCount(s.runs[i].rpc.p)
    ensures var (r, t) := (s.runs[i], Serve(s, i, now).tables);
            var ws := WorkerServer.RequestWrites(r.info, [r.rpc.p], [now]);
            && |ws| == WriteCount(r.rpc.p)
            && t == WorkerServer.Apply(s.tables, ws[r.rpc.done])
  {
    StoreRuns.SingletonRequest(s.runs[i].info, s.runs[i].rpc.p, now);
  }

  // ----- order

  /** Within a run the stored payloads, then the one held by the sender unless it is stored already, then the one
      pending in the collector spell what was produced; that alternates snapshot and GPU telemetry, and the history
      tables hold exactly the stored payloads, in the order they were stored. */
  lemma ExactlyOnceInOrder(steps: seq<Step>, i: nat)
    requires i < |After(steps).runs|
    ensures var s := After(steps);
            var r := s.runs[i];
            var held := if r.rpc.Idle? || Completed(r.rpc) then [] else [r.rpc.p];
            var pending := if r.pending.Some? then [r.pending.value] else [];
            && r.produced == Stored(s.log, i) + held + pending
            && r.acked <= Stored(s.log, i)
            && (forall k :: 0 <= k < |r.produced| ==>
                  && (r.produced[k].GpuPayload? <==> r.withGpu && k % 2 == 1)
                  && (r.produced[k].SnapshotPayload? <==> !(r.withGpu && k % 2 == 1)))
            && s.tables.snapshots == SnapshotsOf(s.log)
            && s.tables.gpus == GpusOf(s.log)
  {
    hide After, HistoriesHaveRows, RowsFromRuns, InOrder, StoredInOrder, RowKnown, Completed, Turn;
    InvAlways(steps);
    var s := After(steps);
    assert RunInv(s.runs[i], s.tables.rows, Stored(s.log, i));
    RunInOrder(s.runs[i], Stored(s.log, i));
    TurnsAlternate(s.runs[i]);
  }

  lemma TurnsAlternate(r: Run)
    requires forall k :: 0 <= k < |r.produced| ==> Turn(r.withGpu, k, r.produced[k])
    ensures forall k :: 0 <= k < |r.produced| ==>
              && (r.produced[k].GpuPayload? <==> r.withGpu && k % 2 == 1)
              && (r.produced[k].SnapshotPayload? <==> !(r.withGpu && k % 2 == 1))
  {
  }

  /** What a collector may hand over next: after an even number of payloads a snapshot, after an odd number GPU
      telemetry if the run collects it; and only while it is running and nothing is pending. Anything else changes
      nothing. */
  lemma NextCollected(steps: seq<Step>, i: nat, p: Payload)
    requires i < |After(steps).runs|
    ensures var (s, s') := (After(steps), After(steps + [Produce(i, p)]));
            var r := s.runs[i];
            var accepted := r.collecting && r.pending.None?
                            && if r.withGpu && |r.produced| % 2 == 1 then p.GpuPayload? else p.SnapshotPayload?;
            && (accepted ==> s' == s.(runs := s.runs[i := r.(produced := r.produced + [p], pending := Some(p))]))
            && (!accepted ==> s' == s)
  {
    OneStep(steps, Produce(i, p));
    hide After;
  }

  lemma RunInOrder(r: Run, stored: seq<Payload>)
    requires InOrder(r) && StoredInOrder(r, stored)
    ensures r.acked <= stored
    ensures forall k :: 0 <= k < |r.produced| ==> Turn(r.withGpu, k, r.produced[k])
    ensures var held := if r.rpc.Idle? || Completed(r.rpc) then [] else [r.rpc.p];
            var pending := if r.pending.Some? then [r.pending.value] else [];
            r.produced == stored + held + pending
  {
    hide Turn;
  }

  // ----- growth

  /** Whether the server has refused the outstanding request. */
  predicate Refused(r: Run)
  {
    r.rpc.Answered? && !r.rpc.ok
  }

  /** `b` continues the run `a`. */
  ghost predicate Continues(a: Run, b: Run)
  {
    && b.info == a.info && b.withGpu == a.withGpu
    && a.produced <= b.produced
    && a.acked <= b.acked
    && (!a.collecting ==> !b.collecting && b.produced == a.produced)
    && (Refused(a) ==> b.rpc == a.rpc && b.acked == a.acked)
    && (!a.sending ==>
          && !b.sending && b.acked == a.acked
          && (a.rpc.Idle? ==> b.rpc.Idle?)
          && (!a.rpc.Idle? ==> !b.rpc.Idle? && b.rpc.p == a.rpc.p))
  }

  ghost predicate Grows(s: System, s': System)
  {
    && |s.runs| <= |s'.runs|
    && (forall i :: 0 <= i < |s.runs| ==> Continues(s.runs[i], s'.runs[i]))
    && s.tables.snapshots <= s'.tables.snapshots
    && s.tables.gpus <= s'.tables.gpus
    && s.log <= s'.log
    && (forall id :: id in s.tables.rows ==>
          id in s'.tables.rows && s'.tables.rows[id].tenantID == s.tables.rows[id].tenantID)
  }

  lemma MoveContinues(r: Run, step: Step)
    ensures Continues(r, r) && Continues(r, Move(r, step))
  {
  }

  lemma ServeGrows(s: System, i: nat, now: Time)
    requires i < |s.runs| && s.runs[i].rpc.InFlight? && s.runs[i].rpc.done < WriteCount(s.runs[i].rpc.p)
    ensures Grows(s, Serve(s, i, now))
  {
  }

  lemma StepGrows(s: System, step: Step)
    ensures Grows(s, Do(s, step))
  {
    hide Move, Serve, Continues;
    forall r: Run ensures Continues(r, r) && Continues(r, Move(r, step)) {
      MoveContinues(r, step);
    }
    if step.ServeWrite? && Do(s, step) != s {
      ServeGrows(s, step.run, step.now);
    }
  }

  lemma GrowsTransitive(a: System, b: System, c: System)
    requires Grows(a, b) && Grows(b, c)
    ensures Grows(a, c)
  {
    forall i | 0 <= i < |a.runs| ensures Continues(a.runs[i], c.runs[i]) {
      assert Continues(a.runs[i], b.runs[i]) && Continues(b.runs[i], c.runs[i]);
    }
  }

  /** Whatever happens, histories are only appended, rows stay and keep their tenant, and runs only advance. */
  lemma {:induction false} SystemGrows(steps: seq<Step>, n: nat)
    requires n <= |steps|
    ensures Grows(After(steps[..n]), After(steps))
  {
    if n == |steps| {
      assert steps[..n] == steps;
    } else {
      assert steps[..|steps| - 1][..n] == steps[..n];
      SystemGrows(steps[..|steps| - 1], n);
      StepGrows(After(steps[..|steps| - 1]), steps[|steps| - 1]);
      GrowsTransitive(After(steps[..n]), After(steps[..|steps| - 1]), After(steps));
    }
  }

  /** After its sender has stopped, the only payload of a run that can still be stored is the one in doubt: the one
      whose request had no answer yet. */
  lemma NothingAfterFirstFailure(steps: seq<Step>, n: nat, i: nat)
    requires n <= |steps| && i < |After(steps[..n]).runs| && !After(steps[..n]).runs[i].sending
    ensures |After(steps).runs| > i
    ensures var r := After(steps[..n]).runs[i];
            var stored := Stored(After(steps).log, i);
            stored == r.acked || (!r.rpc.Idle? && stored == r.acked + [r.rpc.p])
  {
    SystemGrows(steps, n);
    InvAlways(steps);
    var r, r' := After(steps[..n]).runs[i], After(steps).runs[i];
    assert Continues(r, r');
    assert RunInv(r', After(steps).tables.rows, Stored(After(steps).log, i));
  }

  /** Failures are final for a run: after its collector fails nothing more is produced, after its sender fails on a
      request nothing more is acknowledged, and after both are stopped neither, whatever steps follow. */
  lemma FailuresAreFinal(steps: seq<Step>, i: nat, step: Step, more: seq<Step>)
    requires i < |After(steps).runs| && step in {CollectFails(i), SendFails(i), Stop(i)}
    ensures i < |After(steps + [step] + more).runs|
    ensures var (r, r') := (After(steps).runs[i], After(steps + [step] + more).runs[i]);
            && (step.CollectFails? || step.Stop? ==> r'.produced == r.produced)
            && ((step.SendFails? && !r.rpc.Idle?) || step.Stop? ==> r'.acked == r.acked)
  {
    var failed := steps + [step];
    OneStep(steps, step);
    assert [step][0] == step;
    SystemGrows(failed + more, |failed|);
    assert (failed + more)[..|failed|] == failed;
    assert After(failed).runs[i] == Move(After(steps).runs[i], step);
    hide After;
    assert Continues(After(failed).runs[i], After(failed + more).runs[i]);
  }

  // ----- visibility

  /** Runs that share a cluster ID share a tenant. */
  ghost predicate FixedTenants(runs: seq<Run>)
  {
    forall i, j :: 0 <= i < |runs| && 0 <= j < |runs| && runs[i].info.clusterID == runs[j].info.clusterID ==>
      runs[i].info.tenantID == runs[j].info.tenantID
  }

  /** Every stored history, of either kind, belongs to a cluster the list handlers start from. */
  lemma NothingIsStoredInvisibly(steps: seq<Step>)
    ensures var t := After(steps).tables;
            && (forall h :: h in t.snapshots ==> h.clusterID in t.rows)
            && (forall h :: h in t.gpus ==> h.clusterID in t.rows)
  {
    InvAlways(steps);
  }

  /** And with fixed tenants that cluster's row belongs to the tenant of the run. */
  lemma RowHasTenantOfRun(steps: seq<Step>, i: nat)
    requires i < |After(steps).runs| && FixedTenants(After(steps).runs)
    requires After(steps).runs[i].info.clusterID in After(steps).tables.rows
    ensures var s := After(steps); s.tables.rows[s.runs[i].info.clusterID].tenantID == s.runs[i].info.tenantID
  {
    hide After;
    InvAlways(steps);
    var s := After(steps);
    var id := s.runs[i].info.clusterID;
    var r :| r in s.runs && HasIdentity(r, s.tables.rows[id]);
    var j :| 0 <= j < |s.runs| && s.runs[j] == r;
  }

  lemma {:induction false} LoggedIsStored(log: seq<Entry>, e: Entry)
    requires e in log
    ensures e.p.SnapshotPayload? ==> History(e.info.clusterID, Encoded(e.p.snapshot), e.at) in SnapshotsOf(log)
    ensures e.p.GpuPayload? ==> History(e.info.clusterID, Encoded(e.p.telemetry), e.at) in GpusOf(log)
  {
    if e != log[|log| - 1] {
      LoggedIsStored(log[..|log| - 1], e);
    }
  }

  lemma {:induction false} StoredIsLogged(log: seq<Entry>)
    ensures forall h :: h in SnapshotsOf(log) ==> h.message.Encoded?
    ensures forall h :: h in GpusOf(log) ==>
              h.message.Encoded? && exists e :: e in log && e.p == GpuPayload(h.message.value)
  {
    if log != [] {
      var init, last := log[..|log| - 1], log[|log| - 1];
      StoredIsLogged(init);
      assert log == init + [last];
      forall h | h in GpusOf(log)
        ensures h.message.Encoded? && exists e :: e in log && e.p == GpuPayload(h.message.value)
      {
        if h in GpusOf(init) {
          var e :| e in init && e.p == GpuPayload(h.message.value);
          assert e in log;
        } else {
          assert last in log;
        }
      }
    }
  }

  // ----- progress

  /** Steps of run `i` alone. */
  predicate OwnSteps(steps: seq<Step>, i: nat)
  {
    forall k :: 0 <= k < |steps| ==> !steps[k].StartRun? && steps[k].run == i
  }

  lemma OneStep(steps: seq<Step>, step: Step)
    ensures After(steps + [step]) == Do(After(steps), step)
  {
    assert (steps + [step])[..|steps|] == steps;
  }

  lemma OwnStep(steps: seq<Step>, i: nat, step: Step)
    requires i < |After(steps).runs| && OwnSteps([step], i) && !step.ServeWrite?
    ensures i < |After(steps + [step]).runs|
    ensures After(steps + [step]).runs[i] == Move(After(steps).runs[i], step)
  {
    assert [step][0] == step;
    OneStep(steps, step);
    hide Move, After;
  }

  lemma ServeStep(steps: seq<Step>, i: nat)
    requires i < |After(steps).runs|
    requires var r := After(steps).runs[i]; r.rpc.InFlight? && r.rpc.done < WriteCount(r.rpc.p)
    ensures i < |After(steps + [ServeWrite(i, 0)]).runs|
    ensures var r := After(steps).runs[i];
            After(steps + [ServeWrite(i, 0)]).runs[i] == r.(rpc := InFlight(r.rpc.p, r.rpc.done + 1))
  {
    OneStep(steps, ServeWrite(i, 0));
    hide After, WorkerServer.Apply, WorkerServer.PayloadWrites, WriteCount;
  }

  lemma OwnConcat(first: seq<Step>, rest: seq<Step>, i: nat)
    requires OwnSteps(first, i) && OwnSteps(rest, i)
    ensures OwnSteps(first + rest, i)
  {
  }

  /** A request in flight can be served to the end and acknowledged. */
  lemma {:induction false} CanFinish(steps: seq<Step>, i: nat) returns (more: seq<Step>)
    requires i < |After(steps).runs|
    requires var r := After(steps).runs[i]; r.sending && r.rpc.InFlight? && r.rpc.done <= WriteCount(r.rpc.p)
    ensures OwnSteps(more, i) && i < |After(steps + more).runs|
    ensures var r := After(steps).runs[i];
            After(steps + more).runs[i] == r.(rpc := Idle, acked := r.acked + [r.rpc.p])
    decreases WriteCount(After(steps).runs[i].rpc.p) - After(steps).runs[i].rpc.done
  {
    hide After, WriteCount;
    var r := After(steps).runs[i];
    if r.rpc.done < WriteCount(r.rpc.p) {
      ServeStep(steps, i);
      var rest := CanFinish(steps + [ServeWrite(i, 0)], i);
      more := [ServeWrite(i, 0)] + rest;
      assert steps + more == steps + [ServeWrite(i, 0)] + rest;
    } else {
      OwnStep(steps, i, ServeDone(i));
      OwnStep(steps + [ServeDone(i)], i, Acknowledge(i));
      more := [ServeDone(i), Acknowledge(i)];
      assert steps + more == steps + [ServeDone(i)] + [Acknowledge(i)];
    }
  }

  /** A run's outstanding request, if it is not refused, can be brought to its acknowledgement. */
  lemma CanAcknowledge(steps: seq<Step>, i: nat) returns (more: seq<Step>)
    requires i < |After(steps).runs| && After(steps).runs[i].sending && !Refused(After(steps).runs[i])
    ensures OwnSteps(more, i) && i < |After(steps + more).runs|
    ensures var (r, r') := (After(steps).runs[i], After(steps + more).runs[i]);
            r' == if r.rpc.Idle? then r else r.(rpc := Idle, acked := r.acked + [r.rpc.p])
  {
    var r := After(steps).runs[i];
    if r.rpc.Idle? {
      more := [];
      assert steps + more == steps;
    } else if r.rpc.Answered? {
      more := [Acknowledge(i)];
      OwnStep(steps, i, Acknowledge(i));
    } else {
      InvAlways(steps);
      assert RunInv(r, After(steps).tables.rows, Stored(After(steps).log, i));
      more := CanFinish(steps, i);
    }
  }

  lemma CanSendPending(steps: seq<Step>, i: nat) returns (more: seq<Step>)
    requires i < |After(steps).runs|
    requires var r := After(steps).runs[i]; r.sending && r.rpc.Idle? && r.pending.Some?
    ensures OwnSteps(more, i) && i < |After(steps + more).runs|
    ensures var r := After(steps).runs[i]; After(steps + more).runs[i].acked == r.acked + [r.pending.value]
  {
    hide After, WriteCount;
    OwnStep(steps, i, HandOver(i));
    var rest := CanFinish(steps + [HandOver(i)], i);
    more := [HandOver(i)] + rest;
    assert steps + more == steps + [HandOver(i)] + rest;
  }

  /** Whether `more` steps of run `i` alone get everything acknowledged that the run has produced after `steps`. */
  ghost predicate AcknowledgesAll(steps: seq<Step>, more: seq<Step>, i: nat)
    requires i < |After(steps).runs|
  {
    && OwnSteps(more, i)
    && i < |After(steps + more).runs|
    && After(steps + more).runs[i].acked == After(steps).runs[i].produced
  }

  lemma CanAcknowledgeAll(steps: seq<Step>, i: nat) returns (more: seq<Step>)
    requires i < |After(steps).runs| && After(steps).runs[i].pending.Some?
    requires After(steps).runs[i].sending && !Refused(After(steps).runs[i])
    ensures AcknowledgesAll(steps, more, i)
  {
    hide After, OwnSteps;
    PendingIsLast(steps, i);
    var first := CanAcknowledge(steps, i);
    var rest := CanSendPending(steps + first, i);
    more := first + rest;
    OwnConcat(first, rest, i);
    assert steps + more == steps + first + rest;
  }

  lemma NothingMoreAcknowledged(steps: seq<Step>, more: seq<Step>, i: nat)
    requires i < |After(steps).runs| && !(After(steps).runs[i].sending && !Refused(After(steps).runs[i]))
    ensures i < |After(steps + more).runs| && After(steps + more).runs[i].acked == After(steps).runs[i].acked
  {
    hide After;
    SystemGrows(steps + more, |steps|);
    assert (steps + more)[..|steps|] == steps;
    assert Continues(After(steps).runs[i], After(steps + more).runs[i]);
  }

  /** From a reachable state a run with a pending payload can, by its own steps alone, reach a state in which all it
      has produced, the pending payload last, is acknowledged, exactly if it is sending and the server has not
      refused its outstanding request; otherwise nothing more is ever acknowledged, whatever steps follow. */
  lemma PendingCanBeAcknowledgedIff(steps: seq<Step>, i: nat)
    requires i < |After(steps).runs| && After(steps).runs[i].pending.Some?
    ensures var r := After(steps).runs[i];
            r.sending && !Refused(r) <==> exists more :: AcknowledgesAll(steps, more, i)
    ensures var r := After(steps).runs[i];
            !(r.sending && !Refused(r)) ==>
              forall more :: i < |After(steps + more).runs| && After(steps + more).runs[i].acked == r.acked
  {
    hide After, OwnSteps, Refused;
    var r := After(steps).runs[i];
    PendingIsLast(steps, i);
    if r.sending && !Refused(r) {
      var more := CanAcknowledgeAll(steps, i);
    } else {
      forall more ensures i < |After(steps + more).runs| && After(steps + more).runs[i].acked == r.acked {
        NothingMoreAcknowledged(steps, more, i);
      }
      assert |r.acked| < |r.produced|;
    }
  }

  lemma PendingIsLast(steps: seq<Step>, i: nat)
    requires i < |After(steps).runs| && After(steps).runs[i].pending.Some?
    ensures var r := After(steps).runs[i];
            r.produced == r.acked + (if r.rpc.Idle? then [] else [r.rpc.p]) + [r.pending.value]
  {
    hide After;
    InvAlways(steps);
    assert RunInv(After(steps).runs[i], After(steps).tables.rows, Stored(After(steps).log, i));
  }
}
