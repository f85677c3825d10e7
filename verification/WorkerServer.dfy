/** `SendClusterTelemetry`: the writes a request makes, the method that makes them, and what the tables hold after
    any history of requests. */
module WorkerServer {
  import opened Telemetry
  import Store

  datatype Write =
    | RowWrite(row: ClusterRow)
    | SnapshotWrite(snapshot: History<Snapshot>)
    | GpuWrite(gpu: History<GpuTelemetry>)

  function Apply(t: Tables, w: Write): Tables
  {
    match w
    case RowWrite(c) => t.(rows := Store.UpsertRow(t.rows, c))
    case SnapshotWrite(h) => t.(snapshots := t.snapshots + [h])
    case GpuWrite(h) => t.(gpus := t.gpus + [h])
  }

  function Exec(t: Tables, ws: seq<Write>): Tables
  {
    if ws == [] then t else Apply(Exec(t, ws[..|ws| - 1]), ws[|ws| - 1])
  }

  const EMPTY := Tables(map[], [], [])

  function RowOf(info: ClusterInfo): ClusterRow
  {
    ClusterRow(info.clusterID, info.clusterName, info.tenantID)
  }

  /** The writes of one payload, in order: a snapshot touches the cluster row before its history. */
  function PayloadWrites(info: ClusterInfo, p: Payload, now: Time): seq<Write>
  {
    match p
    case SnapshotPayload(s) => [RowWrite(RowOf(info)), SnapshotWrite(History(info.clusterID, Encoded(s), now))]
    case GpuPayload(g) => [GpuWrite(History(info.clusterID, Encoded(g), now))]
    case Unset => []
  }

  /** The payloads before the first of an unsupported kind. */
  function Supported(ps: seq<Payload>): seq<Payload>
  {
    if ps == [] || ps[0].Unset? then [] else [ps[0]] + Supported(ps[1..])
  }

  /** The writes of a list of payloads received at the given times. */
  function PayloadsWrites(info: ClusterInfo, ps: seq<Payload>, clock: seq<Time>): seq<Write>
    requires |ps| <= |clock|
  {
    if ps == [] then []
    else PayloadsWrites(info, ps[..|ps| - 1], clock) + PayloadWrites(info, ps[|ps| - 1], clock[|ps| - 1])
  }

  /** All writes of a request: those of the payloads before the first unsupported one. */
  function RequestWrites(info: ClusterInfo, ps: seq<Payload>, clock: seq<Time>): seq<Write>
    requires |ps| <= |clock|
  {
    SupportedIsPrefix(ps);
    PayloadsWrites(info, Supported(ps), clock)
  }

  lemma {:induction false} SupportedIsPrefix(ps: seq<Payload>)
    ensures Supported(ps) <= ps
    ensures forall j :: 0 <= j < |Supported(ps)| ==> !ps[j].Unset?
    ensures |Supported(ps)| < |ps| ==> ps[|Supported(ps)|] == Unset
  {
    if ps != [] && !ps[0].Unset? {
      SupportedIsPrefix(ps[1..]);
    }
  }

  lemma {:induction false} ExecConcat(t: Tables, a: seq<Write>, b: seq<Write>)
    ensures Exec(t, a + b) == Exec(Exec(t, a), b)
    decreases |b|
  {
    if b == [] {
      assert a + b == a;
    } else {
      assert (a + b)[..|a + b| - 1] == a + b[..|b| - 1];
      ExecConcat(t, a, b[..|b| - 1]);
    }
  }

  lemma NextWrites(info: ClusterInfo, ps: seq<Payload>, clock: seq<Time>, i: nat)
    requires i < |ps| <= |clock|
    ensures PayloadsWrites(info, ps[..i + 1], clock)
            == PayloadsWrites(info, ps[..i], clock) + PayloadWrites(info, ps[i], clock[i])
  {
    assert ps[..i + 1][..i] == ps[..i];
  }

  lemma {:induction false} WritesPrefix(info: ClusterInfo, ps: seq<Payload>, clock: seq<Time>, i: nat)
    requires i <= |ps| <= |clock|
    ensures PayloadsWrites(info, ps[..i], clock) <= PayloadsWrites(info, ps, clock)
    decreases |ps| - i
  {
    if i == |ps| {
      assert ps[..i] == ps;
    } else {
      NextWrites(info, ps, clock, i);
      WritesPrefix(info, ps, clock, i + 1);
    }
  }

  lemma RequestSplit(info: ClusterInfo, ps: seq<Payload>, clock: seq<Time>, i: nat)
    requires i < |Supported(ps)| && |ps| <= |clock| && Supported(ps) <= ps
    ensures PayloadsWrites(info, ps[..i], clock) + PayloadWrites(info, ps[i], clock[i])
            <= RequestWrites(info, ps, clock)
  {
    var qs := Supported(ps);
    assert qs[..i] == ps[..i] && qs[i] == ps[i];
    NextWrites(info, qs, clock, i);
    WritesPrefix(info, qs, clock, i + 1);
  }

  lemma SlicePrefix<T>(whole: seq<T>, a: seq<T>, b: seq<T>, k: nat)
    requires a + b <= whole && k <= |b|
    ensures |a| + k <= |whole| && whole[..|a| + k] == a + b[..k]
  {
  }

  /** Executing the first `k` writes of payload `i` after all writes of the payloads before it executes a prefix
      of the request's writes. */
  lemma PartialPayload(t: Tables, info: ClusterInfo, ps: seq<Payload>, clock: seq<Time>, i: nat, k: nat)
    requires i < |Supported(ps)| && |ps| <= |clock| && Supported(ps) <= ps
    requires k <= |PayloadWrites(info, ps[i], clock[i])|
    ensures var before, own := PayloadsWrites(info, ps[..i], clock), PayloadWrites(info, ps[i], clock[i]);
            var ws := RequestWrites(info, ps, clock);
            && |before| + |own| <= |ws|
            && Exec(Exec(t, before), own[..k]) == Exec(t, ws[..|before| + k])
            && ws[..|before| + k] == before + own[..k]
  {
    hide *;
    RequestSplit(info, ps, clock, i);
    var before, own := PayloadsWrites(info, ps[..i], clock), PayloadWrites(info, ps[i], clock[i]);
    SlicePrefix(RequestWrites(info, ps, clock), before, own, k);
    ExecConcat(t, before, own[..k]);
  }

  /** Updates the cluster row, then appends the history; stops at the first refusal. */
  method ProcessClusterSnapshot(store: Store.Store, info: ClusterInfo, s: Snapshot, now: Time)
    returns (ok: bool, ghost k: nat)
    requires store.Valid()
    modifies store
    ensures store.Valid()
    ensures k <= 2 && (ok <==> k == 2)
    ensures store.refusals == old(store.refusals) + if ok then 0 else 1
    ensures store.View() == Exec(old(store.View()), PayloadWrites(info, SnapshotPayload(s), now)[..k])
  {
    ghost var t, ws := store.View(), PayloadWrites(info, SnapshotPayload(s), now);
    assert ws[..0] == [] && ws[..1] == [ws[0]] && ws[..2] == ws && ws[..2][..1] == ws[..1] && ws[..1][..0] == [];
    ok := store.CreateOrUpdateClusterSnapshot(RowOf(info));
    if !ok {
      assert store.View() == t;
      return false, 0;
    }
    assert store.View() == Exec(t, ws[..1]);
    ok := store.CreateClusterSnapshotHistory(History(info.clusterID, Encoded(s), now));
    k := if ok then 2 else 1;
  }

  method ProcessGPUTelemetry(store: Store.Store, info: ClusterInfo, g: GpuTelemetry, now: Time)
    returns (ok: bool, ghost k: nat)
    requires store.Valid()
    modifies store
    ensures store.Valid()
    ensures k <= 1 && (ok <==> k == 1)
    ensures store.refusals == old(store.refusals) + if ok then 0 else 1
    ensures store.View() == Exec(old(store.View()), PayloadWrites(info, GpuPayload(g), now)[..k])
  {
    ghost var ws := PayloadWrites(info, GpuPayload(g), now);
    assert ws[..0] == [] && ws[..1] == ws;
    ok := store.CreateGPUTelemetryHistory(History(info.clusterID, Encoded(g), now));
    k := if ok then 1 else 0;
  }

  method ProcessPayload(store: Store.Store, info: ClusterInfo, p: Payload, now: Time) returns (ok: bool, ghost k: nat)
    requires store.Valid() && !p.Unset?
    modifies store
    ensures store.Valid()
    ensures k <= |PayloadWrites(info, p, now)| && (ok <==> k == |PayloadWrites(info, p, now)|)
    ensures store.refusals == old(store.refusals) + if ok then 0 else 1
    ensures store.View() == Exec(old(store.View()), PayloadWrites(info, p, now)[..k])
  {
    if p.SnapshotPayload? {
      ok, k := ProcessClusterSnapshot(store, info, p.snapshot, now);
    } else {
      ok, k := ProcessGPUTelemetry(store, info, p.telemetry, now);
    }
  }

  lemma AllSupportedDone(info: ClusterInfo, ps: seq<Payload>, clock: seq<Time>, i: nat)
    requires i <= |ps| <= |clock| && i <= |Supported(ps)|
    requires i == |ps| || ps[i].Unset?
    ensures PayloadsWrites(info, ps[..i], clock) == RequestWrites(info, ps, clock)
    ensures i < |ps| <==> Supported(ps) != ps
  {
    SupportedIsPrefix(ps);
    assert i == |Supported(ps)|;
    assert ps[..i] == Supported(ps);
  }

  lemma NotYetUnsupported(ps: seq<Payload>, i: nat)
    requires i < |ps| && i <= |Supported(ps)| && !ps[i].Unset?
    ensures i < |Supported(ps)| && Supported(ps) <= ps
  {
    SupportedIsPrefix(ps);
  }

  lemma NothingDone(t: Tables, info: ClusterInfo, ps: seq<Payload>, clock: seq<Time>)
    requires |ps| <= |clock|
    ensures RequestWrites(info, ps, clock)[..0] == PayloadsWrites(info, ps[..0], clock)
    ensures Exec(t, RequestWrites(info, ps, clock)[..0]) == t
    ensures ps == [] ==> RequestWrites(info, ps, clock) == []
  {
  }

  /** Making the first `k` writes of the next payload. */
  lemma Advance(t: Tables, info: ClusterInfo, ps: seq<Payload>, clock: seq<Time>, i: nat, n: nat, k: nat)
    requires i < |ps| <= |clock| && i <= |Supported(ps)| && !ps[i].Unset?
    requires k <= |PayloadWrites(info, ps[i], clock[i])|
    requires n <= |RequestWrites(info, ps, clock)|
    requires RequestWrites(info, ps, clock)[..n] == PayloadsWrites(info, ps[..i], clock)
    ensures var (ws, own) := (RequestWrites(info, ps, clock), PayloadWrites(info, ps[i], clock[i]));
            && n + k <= |ws|
            && Exec(Exec(t, ws[..n]), own[..k]) == Exec(t, ws[..n + k])
            && (k < |own| ==> n + k < |ws|)
            && (k == |own| ==> i < |Supported(ps)| && ws[..n + k] == PayloadsWrites(info, ps[..i + 1], clock))
  {
    hide *;
    NotYetUnsupported(ps, i);
    PartialPayload(t, info, ps, clock, i, k);
    NextWrites(info, ps, clock, i);
    assert |RequestWrites(info, ps, clock)[..n]| == n;
    var own := PayloadWrites(info, ps[i], clock[i]);
    assert own[..|own|] == own;
  }

  /** Processes a request payload by payload. `n` counts the writes that took effect: the tables always end up with
      a prefix of the request's writes, all of them unless the database refused one, and nothing of a payload at or
      after the first unsupported one. */
  method SendClusterTelemetry(store: Store.Store, info: ClusterInfo, payloads: seq<Payload>, clock: seq<Time>)
    returns (r: Result<()>, ghost n: nat)
    requires store.Valid() && |clock| == |payloads|
    modifies store
    ensures store.Valid()
    ensures n <= |RequestWrites(info, payloads, clock)|
    ensures r == Failure(StoreFailure) <==> store.refusals > old(store.refusals)
    ensures store.View() == Exec(old(store.View()), RequestWrites(info, payloads, clock)[..n])
    ensures r == if payloads == [] then Failure(NoPayloads)
                 else if n < |RequestWrites(info, payloads, clock)| then Failure(StoreFailure)
                 else if Supported(payloads) != payloads then Failure(UnsupportedPayload)
                 else Success(())
  {
    hide *;
    ghost var t := store.View();
    ghost var ws := RequestWrites(info, payloads, clock);
    n := 0;
    NothingDone(t, info, payloads, clock);
    if |payloads| == 0 {
      return Failure(NoPayloads), 0;
    }
    for i := 0 to |payloads|
      invariant store.Valid() && store.refusals == old(store.refusals)
      invariant i <= |Supported(payloads)|
      invariant n <= |ws| && ws[..n] == PayloadsWrites(info, payloads[..i], clock)
      invariant store.View() == Exec(t, ws[..n])
    {
      if payloads[i].Unset? {
        AllSupportedDone(info, payloads, clock, i);
        return Failure(UnsupportedPayload), n;
      }
      var ok, k := ProcessPayload(store, info, payloads[i], clock[i]);
      Advance(t, info, payloads, clock, i, n, k);
      n := n + k;
      if !ok {
        return Failure(StoreFailure), n;
      }
    }
    AllSupportedDone(info, payloads, clock, |payloads|);
    assert payloads[..|payloads|] == payloads;
    r := Success(());
  }
}
