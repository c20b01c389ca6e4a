# GARUDA scanner backend: a verified model of its parsers

GARUDA's backend (`garuda_backend.py`) is a Flask service that reports on the
WiFi network a machine sees and is connected to. Each of its answers comes
from the text output of an operating-system tool:

- `netsh`, `airport` and `nmcli` for the WiFi listing and the connected network;
- `ipconfig` and `ip route` for the default gateway;
- `arp -a` for the devices of the local network.

This project models the code that turns those outputs into records. That code
comprises:

- the three WiFi listing parsers;
- the connected-network reader;
- the encryption risk rubric (`assess_security`);
- the gateway reader;
- the ARP-table device reader;
- the assembly of the `/api/scan/full` report.

The operating system (`platform.system()`) and the outcome of each command
are parameters of the model. `Host.System` stands for the operating system.
`Host.Command` stands for the command's outcome: its output, a
`FileNotFoundError`, or any other exception with its message.

The modules follow the source:

- `PyStr`: the Python string operations the parsers use, with the whitespace
  set of `str.split()`/`str.strip()`. These are `split(sep)`, `split()`,
  `strip()`, `startswith`, `in`, `join`, `lower`, `upper` and `replace`.
- `Patterns`: explicit matchers for the regular expressions
  `\d+\.\d+\.\d+\.\d+` and `\(([\d.]+)\)\s+at\s+([\w:]+)`. Each is proved equal
  to a declarative reading of its pattern.
- `NearbyNetworks`: `WiFiScanner.get_nearby_networks` and its three scanners.
- `ConnectedNetwork`: `WiFiScanner.get_connected_network`.
- `Security`: `WiFiScanner.assess_security`. The dictionary it returns is an
  `Assessment` that holds the threat level. Its seven values ('threat_level',
  'color', 'mitm_risk' and the rest) are member functions of that record.
- `Gateway`: `NetworkScanner.get_gateway`.
- `Devices`: `NetworkScanner.get_connected_devices`. Each platform's loop is
  a method, and the body of each loop is a method of its own.
- `FullScan`: the `/api/scan/full` handler, taking the results of the scanners
  as inputs.

Each loop of the source is a method with a `while` loop. The method is proved
equal to a function that specifies it. The properties the source promises are
proved as lemmas about those functions.

For a repeated ARP address the device reader keeps the first line that offers
it (`seen_ips`); see `Devices.FirstOffersMember` and `Devices.FirstOffersUnique`.

## Model

| member | source | states |
|---|---|---|
| PyStr.Split | garuda_backend.py:50 | `s.split(sep)` yields at least one piece, and no piece contains the separator |
| PyStr.JoinSplit | garuda_backend.py:50 | joining the pieces of `s.split(sep)` with `sep` gives back `s` |
| PyStr.SplitJoin | garuda_backend.py:187 | splitting pieces that hold no separator, once they are joined by it, gives the pieces back |
| PyStr.Words | garuda_backend.py:92 | every word of `s.split()` is non-empty and free of whitespace (with the three lemmas below, the whole behaviour of `split()`) |
| PyStr.WordsSkipsSpace | garuda_backend.py:92 | whitespace before the text changes nothing: `(sp + s).split() == s.split()` |
| PyStr.TokenThenGap | garuda_backend.py:92 | a whitespace-free word followed by any non-empty run of whitespace is the first word, and the rest is split on its own |
| PyStr.WordsPadded | garuda_backend.py:92 | words laid out with any amount of whitespace before, between (at least one character) and after them split back into exactly those words |
| PyStr.FirstWordAt | garuda_backend.py:92 | the first word of `s.split()` is a slice of `s` |
| PyStr.WordsEmpty | garuda_backend.py:91-92 | `s.split()` is empty exactly when `s` is all whitespace |
| PyStr.WordsJoin | garuda_backend.py:121 | `" ".join(ws).split() == ws` for whitespace-free, non-empty words |
| PyStr.StripTrimmed | garuda_backend.py:51 | `strip()` is the middle slice of `s` left after whitespace-only prefix and suffix; it is empty exactly for all-whitespace input, and otherwise neither starts nor ends with whitespace |
| PyStr.LowerIgnoresCase | garuda_backend.py:202 | `s.upper().lower() == s.lower()`, and lower-casing twice changes nothing more |
| PyStr.UpperHasNoLower | garuda_backend.py:393 | an upper-cased string holds no lower-case ASCII letter |
| Patterns.DottedQuadSearch | garuda_backend.py:377 | the matcher finds `\d+\.\d+\.\d+\.\d+` in a line exactly when some slice of the line is four digit groups joined by dots |
| Patterns.ArpFieldsAtMatches | garuda_backend.py:400 | the matcher at an index returns groups `f` exactly when the pattern matches there with those groups, the last group greedy |
| Patterns.SearchArpFieldsLeftmost | garuda_backend.py:400 | the search returns the match at the leftmost index where one starts, and nothing when none does |
| NearbyNetworks.ScanWindows | garuda_backend.py:37-77 | the loop over the stripped `netsh` lines returns the listing its fold specifies; a keyed line without ':' yields "Windows scan failed: list index out of range" |
| NearbyNetworks.BssidGuardInert | garuda_backend.py:67 | the key "BSSID" is never stored, so the branch a line takes never depends on the current record |
| NearbyNetworks.WinFoldFails | garuda_backend.py:56-68 | the scan raises exactly when some stripped SSID, Authentication, Signal or BSSID line has no ':' |
| NearbyNetworks.WinFoldSsids | garuda_backend.py:53-72 | the SSIDs listed are those listed before, the current record's, and one per remaining SSID line, in order |
| NearbyNetworks.WindowsSsids | garuda_backend.py:53-72 | the listed SSIDs are the SSID lines' values in order, "[Hidden Network]" for empty ones, so none is empty and there is one network per SSID line |
| NearbyNetworks.SsidValuesNonEmpty | garuda_backend.py:56-57 | every SSID value read is non-empty |
| NearbyNetworks.WinFoldAppend | garuda_backend.py:50-69 | running the loop over two pieces of input runs it over the first, then from the state reached over the second |
| NearbyNetworks.WinFoldBlock | garuda_backend.py:59-69 | between SSID lines each of encryption, signal and BSSID holds the value of the last line of its kind |
| NearbyNetworks.WinFoldUnnamed | garuda_backend.py:54-71 | records without an SSID lead to the same listing, whatever fields they hold |
| NearbyNetworks.WindowsPreambleDiscarded | garuda_backend.py:53-55 | lines before the first SSID line belong to no network and change nothing |
| NearbyNetworks.CollectRowsMember | garuda_backend.py:90-100 | a listed network is exactly one that some row parses to |
| NearbyNetworks.HeaderIgnored | garuda_backend.py:88 | the first line is skipped whatever it says |
| NearbyNetworks.ScanMacos | garuda_backend.py:79-105 | the `airport -s` loop returns the rows that parse, in order; a failed command yields "macOS scan failed: " and its message |
| NearbyNetworks.AirportColumns | garuda_backend.py:91-100 | a row laid out as columns with any whitespace around and between them is listed exactly when it has at least seven, as columns 0, 1, 2 (with " dBm"), 3 and 6 |
| NearbyNetworks.RowNotBlank | garuda_backend.py:91 | a row of columns is blank exactly when it has none |
| NearbyNetworks.ScanLinux | garuda_backend.py:107-135 | the `nmcli` loop returns the rows that parse, in order; a missing `nmcli` and any other failure give their two error texts |
| NearbyNetworks.NmcliColumns | garuda_backend.py:120-128 | a row laid out as columns with any whitespace around and between them is listed exactly when it has at least three: "--" read as hidden, "%" added to the signal, later columns joined by single spaces as the security, or "Open" |
| NearbyNetworks.NmcliSecurityColumns | garuda_backend.py:127 | the security splits back into the row's fourth and later columns |
| NearbyNetworks.GetNearbyNetworks | garuda_backend.py:23-35 | each system gets its own scanner; any other system gets "Unsupported operating system" |
| ConnectedNetwork.Set | garuda_backend.py:150-156 | storing a key sets that key and leaves the other three unchanged |
| ConnectedNetwork.ReadInterfaces | garuda_backend.py:147-158 | the Windows loop over the unstripped lines returns the fields its fold specifies, or the IndexError |
| ConnectedNetwork.ReadAirportInfo | garuda_backend.py:166-177 | the macOS loop returns the fields its fold specifies, the signal with " dBm" |
| ConnectedNetwork.ReadFieldsUntouched | garuda_backend.py:148-156 | a key no line sets keeps its value |
| ConnectedNetwork.ReadFieldsLastWins | garuda_backend.py:148-175 | every key holds the value of the last line that sets it |
| ConnectedNetwork.ReadFieldsFails | garuda_backend.py:148-156 | the loop raises exactly when a line that sets a key has no ':' |
| ConnectedNetwork.AirportNeverFails | garuda_backend.py:167-175 | every key the macOS branch tests ends in ':', so it never raises |
| ConnectedNetwork.ValueKeepsColons | garuda_backend.py:152 | a value is split off at the first ':', so the colons of a BSSID survive |
| ConnectedNetwork.FindActive | garuda_backend.py:185-195 | the Linux loop returns the record of the first "yes:" line, or "Not connected to any network" |
| ConnectedNetwork.FirstActiveIsFirst | garuda_backend.py:185-186 | the line chosen is the first active one; none is chosen exactly when no line is active |
| ConnectedNetwork.ActiveColumns | garuda_backend.py:187-193 | an active line of colon-free columns gives SSID, BSSID, signal with "%" and security or "Unknown"; fewer than three columns raise IndexError |
| ConnectedNetwork.GetConnectedNetwork | garuda_backend.py:137-198 | the method returns what its specification gives for each system and command outcome, None for any other system |
| ConnectedNetwork.ConnectionErrors | garuda_backend.py:137-198 | with the command run, only Windows (IndexError) and Linux (IndexError or not connected) report an error |
| ConnectedNetwork.EscapePlain | garuda_backend.py:181 | a value without ':' or '\\' is printed unchanged |
| ConnectedNetwork.EscapeAppend | garuda_backend.py:181 | escaping distributes over concatenation |
| ConnectedNetwork.ActiveRecordSplitsEscapedBssid | garuda_backend.py:187-191 | an active line whose BSSID holds escaped colons is reported with the BSSID cut at the first one and the signal taken from the BSSID |
| ConnectedNetwork.TerseReadsEscaped | garuda_backend.py:187 | an escaped value is read back whole, whatever follows it |
| ConnectedNetwork.TerseRoundTrip | garuda_backend.py:187 | reading escaped values joined by ':' as terse columns gives back the values |
| ConnectedNetwork.TerseActiveRecordFaithful | garuda_backend.py:187-193 | read as terse columns, an active line gives back the connection's own SSID, BSSID, signal and security |
| Security.FirstRuleDecides | garuda_backend.py:200-274 | the level given is the first rule in the order CRITICAL, HIGH, MEDIUM, LOW, SECURE, UNKNOWN whose condition holds on the lower-cased text |
| Security.WeakMarkerIsCritical | garuda_backend.py:205-214 | "open", "none" or "wep" anywhere rates the network CRITICAL with MITM risk VERY HIGH |
| Security.UnknownExactly | garuda_backend.py:205-274 | UNKNOWN exactly when no weak marker and no "wpa3" occur, and "wpa" is absent or "wpa2" occurs with neither "personal" nor "enterprise" |
| Security.IgnoresCase | garuda_backend.py:202 | the level does not depend on letter case |
| Security.Wpa2PersonalNoneIsCritical | garuda_backend.py:205 | "WPA2-Personal none" is CRITICAL |
| Security.MixedWpa2Wpa3IsMedium | garuda_backend.py:229 | "WPA2-Personal/WPA3-Personal" is MEDIUM |
| Security.BareWpa2IsUnknown | garuda_backend.py:229-265 | a bare "WPA2" is UNKNOWN |
| Gateway.GetGateway | garuda_backend.py:291-310 | the early-return loop gives the first line's gateway, or "Unable to determine" |
| Gateway.FirstGatewayIsFirst | garuda_backend.py:296-307 | the gateway comes from a line before which no line gives one; none exactly when no line gives one |
| Gateway.IpconfigGatewayShape | garuda_backend.py:297-300 | a Windows gateway is non-empty, holds no ':' and has no surrounding whitespace |
| Gateway.IpconfigGatewayOf | garuda_backend.py:297-300 | a "Default Gateway" line gives its stripped text after the last ':' |
| Gateway.RouteGatewayColumns | garuda_backend.py:304-307 | a route line laid out as columns with any whitespace around and between them gives its third column when one column is "default" and there are at least three, and nothing when there are fewer than three |
| Gateway.GatewayNeverEmpty | garuda_backend.py:291-310 | the answer is never empty |
| Gateway.IpconfigGatewayCutsIpv6 | garuda_backend.py:298 | an IPv6 gateway is reported as its last colon group |
| Gateway.IpconfigGatewayValueKeepsAddress | garuda_backend.py:297-300 | split at the label's ':', a "Default Gateway" line gives its whole address |
| Devices.GetConnectedDevices | garuda_backend.py:365-421 | the loop with its seen-address set returns the devices its specification gives; a failed command gives none |
| Devices.ReadWindowsTable | garuda_backend.py:375-395 | the Windows loop, with its seen-address set, keeps each line's device (read by `WindowsEntry`) unless an earlier kept device has its address |
| Devices.ReadWindowsLine | garuda_backend.py:377-395 | one pass of the Windows loop body adds a device exactly when the line offers one under the filters and its address is not among those seen |
| Devices.ReadUnixTable | garuda_backend.py:399-416 | the BSD/Linux loop, with its seen-address set, keeps each line's device (read by `UnixEntry`) unless an earlier kept device has its address |
| Devices.TableStep | garuda_backend.py:375-416 | one pass of either table loop keeps its invariant: the devices kept so far, followed by the loop over the remaining lines with the updated seen-address set, are the whole table's devices |
| Devices.ReadUnixLine | garuda_backend.py:400-416 | one pass of the BSD/Linux loop body adds a device exactly when the pattern matches, the filters pass and the address is not among those seen |
| Devices.CollectFromLine | garuda_backend.py:375-416 | the loop from any line on, having seen the earlier lines' addresses, completes the first offers of the earlier lines into those of all lines |
| Devices.DevicesAreFirstOffers | garuda_backend.py:365-421 | the devices are the first entry offered for each address, in line order |
| Devices.FirstOffersMember | garuda_backend.py:386-406 | a device is kept exactly when its line is the first to offer its address |
| Devices.FirstOffersUnique | garuda_backend.py:369-390 | no two kept devices share an address |
| Devices.FirstOffersCover | garuda_backend.py:386-390 | every address some line offers is the address of a kept device |
| Devices.FirstOffersOrder | garuda_backend.py:391-412 | kept devices appear in the order of their lines |
| Devices.FirstOffersPrefix | garuda_backend.py:391-412 | the devices kept from fewer lines start those kept from more |
| Devices.EntryFiltered | garuda_backend.py:377-416 | a device a line offers is ACTIVE, not multicast, from a complete line, with an upper-case hardware address; on Windows the line holds a dotted quad, the address is the first column, the second column is not the broadcast address and, with ':' for '-', is the hardware address; elsewhere both come from the first `(ip) at mac` match, the hardware address upper-cased |
| Devices.DevicesFiltered | garuda_backend.py:365-421 | every device returned is ACTIVE, not multicast, with an upper-case hardware address (':' separated on Windows), and is read from the columns of some line exactly as `EntryFiltered` says; addresses are distinct; a failed command gives no device |
| Devices.WindowsMacIdempotent | garuda_backend.py:393 | rewriting a hardware address twice changes nothing more |
| Devices.UnixRow | garuda_backend.py:400-416 | a row `host (ip) at mac ...` gives the device with that address and the upper-cased hardware address unless incomplete or multicast |
| Devices.WindowsRow | garuda_backend.py:377-395 | a line whose `split()` columns start with a dotted quad, however padded, gives that address and the rewritten second column unless broadcast, incomplete or multicast |
| Devices.InterfaceHeaderIsADevice | garuda_backend.py:377-395 | the table's interface header is read as a device with address "Interface:" |
| Devices.WindowsAddressEntryReadsRows | garuda_backend.py:377-395 | with the address column required to be a dotted quad, a device's address starts with a digit and is read as before |
| Devices.WindowsAddressEntryKeepsRow | garuda_backend.py:377-395 | that reader reads every line whose first of at least two columns is a dotted quad as before, however padded |
| Devices.WindowsAddressEntryDropsHeader | garuda_backend.py:377-395 | that reader takes no device from the interface header |
| FullScan.FullScan | garuda_backend.py:473-538 | the handler, with its append loop, returns the outcome its specification gives |
| FullScan.FullScanOutcome | garuda_backend.py:480-484 | the 400 response "Not connected to any network" comes exactly when the connection reports an error; a missing answer is a server error |
| FullScan.DeviceList | garuda_backend.py:500-527 | the gateway's record comes first (BSSID or "Unknown"), then exactly the listed ARP devices; `nodes_detected` counts both lists |
| FullScan.AppendListed | garuda_backend.py:514-516 | the append loop adds, after the entries already listed, exactly the ARP devices whose address is not the gateway's, this host's or the loopback's, in table order |
| FullScan.OtherNodesMembers | garuda_backend.py:514-516 | the entries taken are ARP devices, no more than the table holds, exactly its listed devices |
| FullScan.OtherNodesAppend | garuda_backend.py:514-516 | taking devices keeps their order: taking from two tables in turn is taking from each in turn |
| FullScan.OtherNodesAllListed | garuda_backend.py:514-516 | a table with nothing to drop is taken whole, in order |
| FullScan.SecuritySummary | garuda_backend.py:487-535 | the summary repeats the assessment of the reported encryption, or its defaults when none is reported |
| FullScan.NodeIpsDistinct | garuda_backend.py:500-516 | when the ARP devices have distinct addresses, so do all entries; no ARP entry has the gateway's, this host's or the loopback address |
| FullScan.OtherNodesDistinct | garuda_backend.py:514-516 | entries taken from devices with distinct addresses have distinct addresses, each a listed device of the table |

## Left out

- The `subprocess.check_output` calls are left out; their outcome is a parameter. The model does not decode bytes (`encoding='utf-8'`, `errors='ignore'`).
- `platform.system()` is a parameter, `Host.System`; its `OtherSystem` case carries any name but "Windows", "Darwin" and "Linux".
- `NetworkScanner.get_local_ip` opens a UDP socket; the local address is a parameter of `FullScan`.
- `NetworkScanner.get_network_traffic` is not part of this model; it runs `netstat` or returns constant data.
- The other Flask routes (`health_check`, `scan_nearby`, `scan_connected`), JSON serialisation, CORS and the `__main__` banner are left out.
- FullScan.FullScan: its report leaves out the 'timestamp' field (a clock reading) and the 'network_traffic' field (from `get_network_traffic`).
- FullScan.FullScan: the 'security_assessment' key added to the connection's dict is kept as the report's `security` field, not inside the connection record.
- The `print` in the devices reader's exception handler is left out. The handler's result, an empty list, is modelled.
- `lower()`, `upper()`, `\d` and `\w` are modelled on ASCII only. Python also maps and classifies other Unicode letters and digits.
- Regular expressions are modelled by two explicit matchers, proved equal to declarative readings of their patterns. There is no general regex engine.
- The outer `except` of `get_nearby_networks` (garuda_backend.py:34-35) is not modelled. Every branch below it catches its own exceptions, so it never fires.
- `script.js` (browser UI) and `app.py` (launcher) are not part of this model.

## Findings

| source | as written | input that shows it | evidently intended | confidence | as-written member | corrected member |
|---|---|---|---|---|---|---|
| garuda_backend.py:187-191 | `line.split(':')` on `nmcli -t` output, which escapes each ':' inside a value as `\:` | `yes:Home:AA\:BB\:CC\:DD\:EE\:FF:80:WPA2` gives BSSID `AA\` and signal `BB\%` | BSSID `AA:BB:CC:DD:EE:FF`, signal `80%`, security `WPA2` | high that the cut happens; not executed | ConnectedNetwork.ActiveRecordSplitsEscapedBssid | ConnectedNetwork.TerseActiveRecordFaithful |
| garuda_backend.py:298 | `line.split(":")[-1]` keeps only the text after the line's last ':' | `Default Gateway . . . : fe80::1%11` gives `1%11` | the whole address `fe80::1%11` | high; not executed | Gateway.IpconfigGatewayCutsIpv6 | Gateway.IpconfigGatewayValueKeepsAddress |
| garuda_backend.py:377-381 | a line containing a dotted quad anywhere, with two columns, is a device whose address is its first column | `Interface: 192.168.1.5 --- 0xb` gives a device with address `Interface:` and hardware address `192.168.1.5` | only rows whose address column is an address | medium; not executed | Devices.InterfaceHeaderIsADevice | Devices.WindowsAddressEntryDropsHeader |
