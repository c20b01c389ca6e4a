/** The `/api/scan/full` handler: it joins the connected network, its
    security assessment, the gateway, the local address and the ARP devices
    into one report. The gateway comes first in the device list, followed by
    the ARP devices other than the gateway, this host and the loopback
    address. The commands have already run; their parsed results are the
    inputs. */
module FullScan {

  import opened Wrappers
  import opened ConnectedNetwork
  import opened Security
  import opened Devices

  const GATEWAY_PORTS := [22, 53, 80, 443]
  const LOOPBACK := "127.0.0.1"
  const UNKNOWN_MAC := "Unknown"
  const ADDRESSES_SCANNED := 256
  const SCAN_DURATION := "3.2s"

  /** An entry of the report's device list: the gateway's record, with its
      fixed type, vendor, status, ports and threat level, or a device of the
      ARP table as `get_connected_devices` returned it. */
  datatype Node =
    | GatewayNode(ip: string, mac: string, kind: string, vendor: string, status: string,
                  ports: seq<int>, threatLevel: string)
    | ArpNode(device: Device)
  {
    function Ip(): string {
      if GatewayNode? then ip else device.ip
    }
  }

  /** 'security_summary' */
  datatype Summary = Summary(threatLevel: string, mitmRisk: string, recommendation: string)

  const DEFAULT_SUMMARY := Summary("UNKNOWN", "UNKNOWN", "Check network security")

  /** The success response, without its timestamp and traffic figures. */
  datatype Report = Report(
    connected: Info,
    security: Option<Assessment>,
    localIp: string,
    gateway: string,
    nodesDetected: int,
    addressesScanned: int,
    scanDuration: string,
    devices: seq<Node>,
    connectedDevices: seq<Device>,
    summary: Summary)

  /** What the handler answers: the report; the 400 response with its status
      'error' and message; or the TypeError Flask turns into a server error,
      raised when `get_connected_network` returned None. */
  datatype Outcome =
    | Scanned(report: Report)
    | Rejected(code: int, message: string)
    | ServerError

  /** The gateway's record: its address, the connection's BSSID or "Unknown". */
  function GatewayRecord(gatewayIp: string, info: Info): Node {
    GatewayNode(gatewayIp, info.bssid.GetOr(UNKNOWN_MAC), "GATEWAY NODE", "Router", "ONLINE",
      GATEWAY_PORTS, "SECURE")
  }

  /** `device['ip'] not in [gateway_ip, local_ip, '127.0.0.1']` */
  predicate Listed(d: Device, gatewayIp: string, localIp: string) {
    d.ip !in [gatewayIp, localIp, LOOPBACK]
  }

  /** The ARP devices the list takes, in their order. */
  function OtherNodes(connectedDevices: seq<Device>, gatewayIp: string, localIp: string): seq<Node> {
    if connectedDevices == [] then []
    else
      (if Listed(connectedDevices[0], gatewayIp, localIp) then [ArpNode(connectedDevices[0])] else [])
      + OtherNodes(connectedDevices[1..], gatewayIp, localIp)
  }

  /** The summary: the assessment's three fields, or their defaults when the
      connection reported no encryption. */
  function SummaryOf(security: Option<Assessment>): Summary {
    match security
    case None => DEFAULT_SUMMARY
    case Some(a) => Summary(a.ThreatLevelName(), a.MitmRisk(), a.Recommendation())
  }

  /** `full_scan()` as a function of what the scanners returned. */
  function FullScanOf(connection: Connection, connectedDevices: seq<Device>, gatewayIp: string, localIp: string): Outcome {
    match connection
    case NoAnswer => ServerError
    case ConnectionError(_) => Rejected(400, NOT_CONNECTED)
    case Connected(info) =>
      var security := if info.encryption.Some? then Some(AssessSecurity(info.encryption.value)) else None;
      var devices := [GatewayRecord(gatewayIp, info)] + OtherNodes(connectedDevices, gatewayIp, localIp);
      Scanned(Report(info, security, localIp, gatewayIp, |devices| + |connectedDevices|,
        ADDRESSES_SCANNED, SCAN_DURATION, devices, connectedDevices, SummaryOf(security)))
  }

  /** `full_scan()`: the device list is built by appending in a loop. */
  method FullScan(connection: Connection, connectedDevices: seq<Device>, gatewayIp: string, localIp: string)
    returns (r: Outcome)
    ensures r == FullScanOf(connection, connectedDevices, gatewayIp, localIp)
  {
    if connection.NoAnswer? {
      return ServerError;
    }
    if connection.ConnectionError? {
      return Rejected(400, NOT_CONNECTED);
    }
    var info := connection.info;
    var security: Option<Assessment> := None;
    if info.encryption.Some? {
      security := Some(AssessSecurity(info.encryption.value));
    }
    var devices := [GatewayRecord(gatewayIp, info)];
    devices := AppendListed(devices, connectedDevices, gatewayIp, localIp);
    var summary := SummaryOf(security);
    r := Scanned(Report(info, security, localIp, gatewayIp, |devices| + |connectedDevices|,
      ADDRESSES_SCANNED, SCAN_DURATION, devices, connectedDevices, summary));
  }

  /** The loop of `full_scan()` that appends each listed ARP device. */
  method AppendListed(start: seq<Node>, connectedDevices: seq<Device>, gatewayIp: string, localIp: string)
    returns (devices: seq<Node>)
    ensures devices == start + OtherNodes(connectedDevices, gatewayIp, localIp)
  {
    devices := start;
    var i := 0;
    while i < |connectedDevices|
      invariant 0 <= i <= |connectedDevices|
      invariant start + OtherNodes(connectedDevices, gatewayIp, localIp)
        == devices + OtherNodes(connectedDevices[i..], gatewayIp, localIp)
    {
      assert connectedDevices[i..][1..] == connectedDevices[i + 1..];
      var device := connectedDevices[i];
      if device.ip !in [gatewayIp, localIp, LOOPBACK] {
        devices := devices + [ArpNode(device)];
      }
      i := i + 1;
    }
    assert connectedDevices[i..] == [];
  }

  // =====================================================================
  // Properties

  /** The 400 response comes exactly when the connection reported an error,
      whatever its message; a missing answer is a server error; otherwise the
      report is built. */
  lemma FullScanOutcome(connection: Connection, connectedDevices: seq<Device>, gatewayIp: string, localIp: string)
    ensures var r := FullScanOf(connection, connectedDevices, gatewayIp, localIp);
      (r.Rejected? <==> connection.ConnectionError?)
      && (r.Rejected? ==> r.code == 400 && r.message == NOT_CONNECTED)
      && (r.ServerError? <==> connection.NoAnswer?)
      && (r.Scanned? <==> connection.Connected?)
  {
  }

  /** The entries taken are ARP devices, no more than the table holds, and
      they are exactly its listed devices. */
  lemma {:induction false} OtherNodesMembers(connectedDevices: seq<Device>, gatewayIp: string, localIp: string)
    ensures var nodes := OtherNodes(connectedDevices, gatewayIp, localIp);
      |nodes| <= |connectedDevices|
      && (forall n | n in nodes :: n.ArpNode?)
      && (forall d :: ArpNode(d) in nodes <==> d in connectedDevices && Listed(d, gatewayIp, localIp))
  {
    if connectedDevices != [] {
      OtherNodesMembers(connectedDevices[1..], gatewayIp, localIp);
      assert connectedDevices == [connectedDevices[0]] + connectedDevices[1..];
    }
  }

  /** Taking devices keeps their order: the devices taken from two tables one
      after the other are those taken from each, one after the other. */
  lemma {:induction false} OtherNodesAppend(a: seq<Device>, b: seq<Device>, gatewayIp: string, localIp: string)
    ensures OtherNodes(a + b, gatewayIp, localIp) == OtherNodes(a, gatewayIp, localIp) + OtherNodes(b, gatewayIp, localIp)
  {
    if a == [] {
      assert a + b == b;
    } else {
      assert (a + b)[0] == a[0] && (a + b)[1..] == a[1..] + b;
      OtherNodesAppend(a[1..], b, gatewayIp, localIp);
      var head := if Listed(a[0], gatewayIp, localIp) then [ArpNode(a[0])] else [];
      var restA, restB := OtherNodes(a[1..], gatewayIp, localIp), OtherNodes(b, gatewayIp, localIp);
      assert OtherNodes(a + b, gatewayIp, localIp) == head + (restA + restB);
      assert OtherNodes(a, gatewayIp, localIp) == head + restA;
      assert head + (restA + restB) == (head + restA) + restB;
    }
  }

  /** A table with nothing to drop is taken whole. */
  lemma {:induction false} OtherNodesAllListed(connectedDevices: seq<Device>, gatewayIp: string, localIp: string)
    requires forall k | 0 <= k < |connectedDevices| :: Listed(connectedDevices[k], gatewayIp, localIp)
    ensures var nodes := OtherNodes(connectedDevices, gatewayIp, localIp);
      |nodes| == |connectedDevices| && forall k | 0 <= k < |nodes| :: nodes[k] == ArpNode(connectedDevices[k])
  {
    if connectedDevices != [] {
      OtherNodesAllListed(connectedDevices[1..], gatewayIp, localIp);
    }
  }

  /** The report's device list: the gateway's record first, then exactly the
      listed ARP devices; 'nodes_detected' counts the list and the ARP devices
      again, so it lies between one more than the ARP devices and one more
      than twice their number. */
  lemma DeviceList(connection: Connection, connectedDevices: seq<Device>, gatewayIp: string, localIp: string)
    requires connection.Connected?
    ensures var r := FullScanOf(connection, connectedDevices, gatewayIp, localIp).report;
      var devices := r.devices;
      |devices| >= 1
      && devices[0] == GatewayNode(gatewayIp, connection.info.bssid.GetOr("Unknown"), "GATEWAY NODE",
           "Router", "ONLINE", [22, 53, 80, 443], "SECURE")
      && (forall n | n in devices[1..] :: n.ArpNode?)
      && (forall d :: ArpNode(d) in devices[1..] <==> d in connectedDevices && Listed(d, gatewayIp, localIp))
      && r.nodesDetected == |devices| + |connectedDevices|
      && |connectedDevices| + 1 <= r.nodesDetected <= 2 * |connectedDevices| + 1
  {
    var r := FullScanOf(connection, connectedDevices, gatewayIp, localIp).report;
    var others := OtherNodes(connectedDevices, gatewayIp, localIp);
    OtherNodesMembers(connectedDevices, gatewayIp, localIp);
    assert r.devices[1..] == others;
  }

  /** The summary repeats the assessment of the reported encryption, and takes
      its defaults exactly when no encryption was reported. */
  lemma SecuritySummary(connection: Connection, connectedDevices: seq<Device>, gatewayIp: string, localIp: string)
    requires connection.Connected?
    ensures var r := FullScanOf(connection, connectedDevices, gatewayIp, localIp).report;
      match connection.info.encryption
      case None => r.security == None && r.summary == Summary("UNKNOWN", "UNKNOWN", "Check network security")
      case Some(e) =>
        r.security == Some(AssessSecurity(e))
        && r.summary.threatLevel == AssessSecurity(e).ThreatLevelName()
        && r.summary.mitmRisk == AssessSecurity(e).MitmRisk()
        && r.summary.recommendation == AssessSecurity(e).Recommendation()
  {
  }

  /** No two entries of a device list share an address. */
  predicate DistinctNodeIps(nodes: seq<Node>) {
    forall a, b | 0 <= a < b < |nodes| :: nodes[a].Ip() != nodes[b].Ip()
  }

  /** Every entry is a listed device of the ARP table. */
  predicate TakenFrom(nodes: seq<Node>, connectedDevices: seq<Device>, gatewayIp: string, localIp: string) {
    forall k | 0 <= k < |nodes| ::
      nodes[k].ArpNode? && Listed(nodes[k].device, gatewayIp, localIp) && nodes[k].device in connectedDevices
  }

  /** When the ARP devices have distinct addresses, as `get_connected_devices`
      guarantees, no two entries of the device list share an address, and no
      ARP entry has the gateway's, this host's or the loopback address. */
  lemma NodeIpsDistinct(connection: Connection, connectedDevices: seq<Device>, gatewayIp: string, localIp: string)
    requires connection.Connected? && DistinctIps(connectedDevices)
    ensures DistinctNodeIps(FullScanOf(connection, connectedDevices, gatewayIp, localIp).report.devices)
    ensures TakenFrom(FullScanOf(connection, connectedDevices, gatewayIp, localIp).report.devices[1..],
      connectedDevices, gatewayIp, localIp)
  {
    var devices := FullScanOf(connection, connectedDevices, gatewayIp, localIp).report.devices;
    OtherNodesDistinct(connectedDevices, gatewayIp, localIp);
    var others := OtherNodes(connectedDevices, gatewayIp, localIp);
    assert devices[1..] == others;
    forall a, b | 0 <= a < b < |devices| ensures devices[a].Ip() != devices[b].Ip() {
      assert devices[b] == others[b - 1];
      assert others[b - 1].ArpNode? && Listed(others[b - 1].device, gatewayIp, localIp);
      if a > 0 {
        assert devices[a] == others[a - 1];
      } else {
        assert devices[a].Ip() == gatewayIp;
      }
    }
  }

  /** The ARP entries taken from devices with distinct addresses have distinct
      addresses, and each is a listed device of the table. */
  lemma {:induction false} OtherNodesDistinct(connectedDevices: seq<Device>, gatewayIp: string, localIp: string)
    requires DistinctIps(connectedDevices)
    ensures DistinctNodeIps(OtherNodes(connectedDevices, gatewayIp, localIp))
    ensures TakenFrom(OtherNodes(connectedDevices, gatewayIp, localIp), connectedDevices, gatewayIp, localIp)
  {
    var nodes := OtherNodes(connectedDevices, gatewayIp, localIp);
    OtherNodesMembers(connectedDevices, gatewayIp, localIp);
    forall k | 0 <= k < |nodes|
      ensures nodes[k].ArpNode? && Listed(nodes[k].device, gatewayIp, localIp) && nodes[k].device in connectedDevices
    {
      assert nodes[k] in nodes;
    }
    if connectedDevices != [] {
      var first := connectedDevices[0];
      var rest := connectedDevices[1..];
      DistinctRest(connectedDevices);
      OtherNodesDistinct(rest, gatewayIp, localIp);
      var tail := OtherNodes(rest, gatewayIp, localIp);
      if Listed(first, gatewayIp, localIp) {
        assert nodes == [ArpNode(first)] + tail;
        forall a, b | 0 <= a < b < |nodes| ensures nodes[a].Ip() != nodes[b].Ip() {
          assert nodes[b] == tail[b - 1];
          assert tail[b - 1].device in rest;
          if a > 0 {
            assert nodes[a] == tail[a - 1];
          }
        }
      } else {
        assert nodes == tail;
      }
    }
  }

  /** Without its first device, a table with distinct addresses keeps them
      distinct, and none of the others has the first one's address. */
  lemma DistinctRest(connectedDevices: seq<Device>)
    requires connectedDevices != [] && DistinctIps(connectedDevices)
    ensures DistinctIps(connectedDevices[1..])
    ensures forall d | d in connectedDevices[1..] :: d.ip != connectedDevices[0].ip
  {
    var rest := connectedDevices[1..];
    forall a, b | 0 <= a < b < |rest| ensures rest[a].ip != rest[b].ip {
      assert rest[a] == connectedDevices[a + 1] && rest[b] == connectedDevices[b + 1];
    }
    forall d | d in rest ensures d.ip != connectedDevices[0].ip {
      var j :| 0 <= j < |rest| && rest[j] == d;
      assert rest[j] == connectedDevices[j + 1];
    }
  }
}
