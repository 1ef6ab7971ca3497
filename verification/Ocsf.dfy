/** The OCSF network activity event, as far as parsers fill it in. */
module Ocsf {
  import opened Options

  datatype Endpoint = Endpoint(ip: Option<string>, port: Option<nat>)

  datatype ConnectionInfo = ConnectionInfo(protocolNum: Option<nat>, protocolName: Option<string>)

  datatype Traffic = Traffic(
    bytesIn: Option<nat>, bytesOut: Option<nat>, packetsIn: Option<nat>, packetsOut: Option<nat>)

  datatype Product = Product(vendorName: string, name: string)

  datatype Metadata = Metadata(product: Product, rawData: string, rawHash: string, eventId: string, ingestTime: int)

  datatype NetworkActivity = NetworkActivity(
    activityId: nat, time: int, disposition: string, srcEndpoint: Endpoint, dstEndpoint: Endpoint,
    connectionInfo: ConnectionInfo, traffic: Option<Traffic>, metadata: Metadata,
    unmapped: Option<map<string, string>>)

  const ACTIVITY_CLOSE: nat := 2
  const ACTIVITY_TRAFFIC_FLOW: nat := 3
  const ACTIVITY_OTHER: nat := 99

  const ALLOWED := "Allowed"
  const BLOCKED := "Blocked"
  const DROPPED := "Dropped"
  const UNKNOWN := "Unknown"

  const NO_ENDPOINT := Endpoint(None, None)
  const NO_CONNECTION := ConnectionInfo(None, None)

  /** `with_unmapped`: an empty map is not attached. */
  function WithUnmapped(a: NetworkActivity, unmapped: map<string, string>): NetworkActivity {
    if unmapped == map[] then a else a.(unmapped := Some(unmapped))
  }
}
