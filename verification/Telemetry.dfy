/** The messages, stored records and errors shared by the agent and the server. */
module Telemetry {
  import GoInt

  datatype Option<+T> = None | Some(value: T)

  datatype Result<+T> = Success(value: T) | Failure(error: Error)

  datatype Error =
    | NoClusters                        // no cluster snapshots for the tenant
    | BadEndTimestamp
    | BadStartTimestamp
    | EmptyWindow                       // the start hour is not before the end hour
    | BadMessage                        // a stored message does not unmarshal
    | NoClusterName(clusterID: string)
    | BadGroupBy(value: int)
    | NoPayloads
    | UnsupportedPayload
    | StoreFailure                      // the database refused a read or a write
    | BadMemoryLabel(text: string)      // a node label that is not a decimal integer
    | BadQuantity(pod: string)          // a GPU limit that does not fit an int64

  /** Nanoseconds since the Unix epoch. */
  type Time = int

  datatype SnapshotNode = SnapshotNode(
    name: string,
    gpuCapacity: GoInt.Int32,
    memoryCapacity: GoInt.Int64,
    product: Option<string>,
    gpuOccupancy: GoInt.Int32,
    podCount: GoInt.Int32)

  datatype Snapshot = Snapshot(nodes: seq<SnapshotNode>)

  datatype GpuNode = GpuNode(
    name: string,
    maxGpuUsed: real,
    avgGpuUsed: real,
    maxMemoryUsed: GoInt.Int64,
    avgMemoryUsed: GoInt.Int64)

  datatype GpuTelemetry = GpuTelemetry(nodes: seq<GpuNode>)

  /** The `oneof` of a request payload; `Unset` is a payload of a kind this server does not know. */
  datatype Payload =
    | SnapshotPayload(snapshot: Snapshot)
    | GpuPayload(telemetry: GpuTelemetry)
    | Unset

  /** Stored bytes: what marshalling `value` wrote, or bytes that do not unmarshal. */
  datatype Wire<+M> = Encoded(value: M) | Malformed

  datatype History<+M> = History(clusterID: string, message: Wire<M>, createdAt: Time)

  datatype ClusterRow = ClusterRow(clusterID: string, name: string, tenantID: string)

  /** The identity a worker request is authenticated as. */
  datatype ClusterInfo = ClusterInfo(clusterID: string, clusterName: string, tenantID: string)

  /** The three tables. The cluster table is uniquely indexed by cluster ID. */
  datatype Tables = Tables(
    rows: map<string, ClusterRow>,
    snapshots: seq<History<Snapshot>>,
    gpus: seq<History<GpuTelemetry>>)
}
