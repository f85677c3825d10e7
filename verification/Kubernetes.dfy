/** What the agent's collectors read from Kubernetes about a node. */
module Kubernetes {
  import GoInt
  import Telemetry

  datatype KubeNode = KubeNode(
    name: string,
    hostname: Telemetry.Option<string>,      // the hostname label
    gpuCapacity: Telemetry.Option<GoInt.Int64>,
    memoryLabel: Telemetry.Option<string>,
    productLabel: Telemetry.Option<string>)
}
