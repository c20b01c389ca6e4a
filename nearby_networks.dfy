/** `WiFiScanner.get_nearby_networks` and its three parsers: the listing of
    nearby networks from `netsh wlan show networks mode=bssid` (Windows),
    `airport -s` (macOS) and `nmcli -f SSID,BSSID,SIGNAL,SECURITY device wifi
    list` (Linux). Each parser is a method with the loop of `_scan_windows`,
    `_scan_macos` or `_scan_linux`, proved equal to a function that states the same loop as a fold; the
    lemmas describe what the folds produce. */
module NearbyNetworks {

  import opened Wrappers
  import opened PyStr
  import opened Host

  /** The name given to a network that broadcasts no SSID. */
  const HIDDEN := "[Hidden Network]"

  /** A network of a listing: the keys 'ssid', 'bssid', 'signal', 'channel'
      and 'encryption' of the dict each parser appends, None where a key is absent. */
  datatype Network = Network(
    ssid: string,
    bssid: Option<string>,
    signal: Option<string>,
    channel: Option<string>,
    encryption: Option<string>)

  /** The result of a listing: the networks found; the one-entry list
      `[{"error": message}]` a parser returns when it fails; or the bare
      `{"error": ...}` dict for a system no parser handles. */
  datatype Listing =
    | Networks(networks: seq<Network>)
    | ScanFailed(message: string)
    | Unsupported(message: string)

  // =====================================================================
  // Windows: netsh wlan show networks mode=bssid

  /** The dict `current_network` while the netsh output is read. */
  datatype Pending = Pending(
    ssid: Option<string>,
    encryption: Option<string>,
    signal: Option<string>,
    bssid: Option<string>)
  {
    /** The keys the dict holds. */
    function Keys(): set<string> {
      (if ssid.Some? then {"ssid"} else {})
      + (if encryption.Some? then {"encryption"} else {})
      + (if signal.Some? then {"signal"} else {})
      + (if bssid.Some? then {"bssid"} else {})
    }

    /** `current_network and current_network.get('ssid')`: the record has a
        non-empty SSID and is ready to be listed. */
    predicate Complete() {
      ssid.Some? && ssid.value != ""
    }

    function ToNetwork(): Network
      requires Complete()
    {
      Network(ssid.value, bssid, signal, None, encryption)
    }
  }

  /** The empty dict the loop starts with. */
  const NO_NETWORK := Pending(None, None, None, None)

  /** The loop's state: the networks listed so far and the current record. */
  datatype WinState = WinState(networks: seq<Network>, current: Pending)

  /** The branch of the loop body that a stripped line takes. */
  datatype WinLine = SsidLine | AuthenticationLine | SignalLine | BssidLine | IgnoredLine

  /** The branch taken, tested in the order of the if/elif chain in
      `_scan_windows`. The BSSID branch is
      guarded by `"BSSID" not in current_network`. */
  function WinLineKind(line: string, current: Pending): WinLine {
    if StartsWith(line, "SSID") then SsidLine
    else if Contains(line, "Authentication") then AuthenticationLine
    else if Contains(line, "Signal") then SignalLine
    else if Contains(line, "BSSID") && "BSSID" !in current.Keys() then BssidLine
    else IgnoredLine
  }

  /** The branch a line takes, ignoring the record it updates. */
  function LineKind(line: string): WinLine {
    WinLineKind(line, NO_NETWORK)
  }

  /** The guard of the BSSID branch tests the key "BSSID", which is never
      stored (the record stores "bssid"), so the branch a line takes never
      depends on the record: every BSSID line overwrites the BSSID. */
  lemma BssidGuardInert(line: string, current: Pending)
    ensures "BSSID" !in current.Keys()
    ensures WinLineKind(line, current) == LineKind(line)
  {
    assert "BSSID" != "ssid" && "BSSID" != "bssid";
  }

  /** Append the current record if it is complete. */
  function Flush(st: WinState): seq<Network> {
    if st.current.Complete() then st.networks + [st.current.ToNetwork()] else st.networks
  }

  /** `ssid if ssid else "[Hidden Network]"` */
  function SsidOrHidden(ssid: string): string {
    if ssid == "" then HIDDEN else ssid
  }

  /** One iteration of the loop, on a stripped line; None where it raises. */
  function WinStep(st: WinState, line: string): Option<WinState> {
    var kind := WinLineKind(line, st.current);
    if kind == IgnoredLine then Some(st)
    else match FieldValue(line)
      case None => None
      case Some(v) =>
        match kind
        case SsidLine => Some(WinState(Flush(st), Pending(Some(SsidOrHidden(v)), None, None, None)))
        case AuthenticationLine => Some(st.(current := st.current.(encryption := Some(v))))
        case SignalLine => Some(st.(current := st.current.(signal := Some(v))))
        case BssidLine => Some(st.(current := st.current.(bssid := Some(v))))
  }

  /** The loop over the remaining lines, each stripped first. */
  function WinFold(st: WinState, lines: seq<string>): Option<WinState>
    decreases |lines|
  {
    if lines == [] then Some(st)
    else match WinStep(st, Strip(lines[0]))
      case None => None
      case Some(st') => WinFold(st', lines[1..])
  }

  /** The networks a netsh output lists, or None where the parser raises. */
  function WinNetworks(lines: seq<string>): Option<seq<Network>> {
    match WinFold(WinState([], NO_NETWORK), lines)
    case None => None
    case Some(st) => Some(Flush(st))
  }

  /** `_scan_windows()` as a function of the command's outcome. */
  function WindowsListing(cmd: Command): Listing {
    if !cmd.Ran? then ScanFailed("Windows scan failed: " + cmd.ErrorText())
    else match WinNetworks(Split(cmd.output, '\n'))
      case None => ScanFailed("Windows scan failed: " + INDEX_ERROR)
      case Some(ns) => Networks(ns)
  }

  /** `_scan_windows()`: a record is started at every SSID line and listed when
      the next one starts, or at the end. */
  method ScanWindows(cmd: Command) returns (r: Listing)
    ensures r == WindowsListing(cmd)
  {
    if !cmd.Ran? {
      return ScanFailed("Windows scan failed: " + cmd.ErrorText());
    }
    var lines := Split(cmd.output, '\n');
    var networks: seq<Network> := [];
    var current := NO_NETWORK;
    var i := 0;
    while i < |lines|
      invariant 0 <= i <= |lines|
      invariant WinFold(WinState([], NO_NETWORK), lines) == WinFold(WinState(networks, current), lines[i..])
    {
      assert lines[i..][1..] == lines[i + 1..];
      var line := Strip(lines[i]);
      if StartsWith(line, "SSID") {
        if current.Complete() {
          networks := networks + [current.ToNetwork()];
        }
        var value := FieldValue(line);
        if value.None? {
          return ScanFailed("Windows scan failed: " + INDEX_ERROR);
        }
        current := Pending(Some(SsidOrHidden(value.value)), None, None, None);
      } else if Contains(line, "Authentication") {
        var value := FieldValue(line);
        if value.None? {
          return ScanFailed("Windows scan failed: " + INDEX_ERROR);
        }
        current := current.(encryption := Some(value.value));
      } else if Contains(line, "Signal") {
        var value := FieldValue(line);
        if value.None? {
          return ScanFailed("Windows scan failed: " + INDEX_ERROR);
        }
        current := current.(signal := Some(value.value));
      } else if Contains(line, "BSSID") && "BSSID" !in current.Keys() {
        var value := FieldValue(line);
        if value.None? {
          return ScanFailed("Windows scan failed: " + INDEX_ERROR);
        }
        current := current.(bssid := Some(value.value));
      }
      i := i + 1;
    }
    if current.Complete() {
      networks := networks + [current.ToNetwork()];
    }
    r := Networks(networks);
  }

  // ---------------------------------------------------------------------
  // What the netsh parser produces

  /** A line that one of the four branches reads a value from. */
  predicate Keyed(line: string) {
    LineKind(Strip(line)) != IgnoredLine
  }

  /** The parser fails exactly when some keyed line has no ':' after stripping. */
  lemma {:induction false} WinFoldFails(st: WinState, lines: seq<string>)
    ensures WinFold(st, lines).None? <==>
      exists k | 0 <= k < |lines| :: Keyed(lines[k]) && FieldValue(Strip(lines[k])).None?
    decreases |lines|
  {
    if lines != [] {
      BssidGuardInert(Strip(lines[0]), st.current);
      match WinStep(st, Strip(lines[0]))
      case None =>
      case Some(st') =>
        WinFoldFails(st', lines[1..]);
        if exists k | 0 <= k < |lines| :: Keyed(lines[k]) && FieldValue(Strip(lines[k])).None? {
          var k :| 0 <= k < |lines| && Keyed(lines[k]) && FieldValue(Strip(lines[k])).None?;
          assert k > 0;
          assert lines[1..][k - 1] == lines[k];
        }
    }
  }

  /** The value of every SSID line, in order, as the parser names it. */
  function SsidValues(lines: seq<string>): seq<string> {
    if lines == [] then []
    else
      var rest := SsidValues(lines[1..]);
      var line := Strip(lines[0]);
      if StartsWith(line, "SSID") && FieldValue(line).Some? then [SsidOrHidden(FieldValue(line).value)] + rest
      else rest
  }

  function Ssids(ns: seq<Network>): seq<string> {
    seq(|ns|, k requires 0 <= k < |ns| => ns[k].ssid)
  }

  /** The SSIDs a run lists: those already listed, the current record's, and
      one per remaining SSID line. */
  lemma {:induction false} WinFoldSsids(st: WinState, lines: seq<string>)
    requires WinFold(st, lines).Some?
    ensures Ssids(Flush(WinFold(st, lines).value))
      == Ssids(st.networks) + (if st.current.Complete() then [st.current.ssid.value] else []) + SsidValues(lines)
    decreases |lines|
  {
    if lines != [] {
      var line := Strip(lines[0]);
      BssidGuardInert(line, st.current);
      var st' := WinStep(st, line).value;
      WinFoldSsids(st', lines[1..]);
      if LineKind(line) == SsidLine {
        assert Ssids(Flush(st)) == Ssids(st.networks) + (if st.current.Complete() then [st.current.ssid.value] else []);
        assert st'.current.Complete();
      } else {
        assert st'.networks == st.networks && st'.current.ssid == st.current.ssid;
      }
    }
  }

  /** A netsh output lists one network per SSID line, in order, named by its
      value or "[Hidden Network]" when the value is empty; so no listed SSID
      is empty, and the count equals the number of SSID lines. */
  lemma WindowsSsids(lines: seq<string>)
    requires WinNetworks(lines).Some?
    ensures Ssids(WinNetworks(lines).value) == SsidValues(lines)
    ensures forall n | n in WinNetworks(lines).value :: n.ssid != ""
  {
    WinFoldSsids(WinState([], NO_NETWORK), lines);
    var ns := WinNetworks(lines).value;
    assert Ssids([]) == [];
    forall n | n in ns ensures n.ssid != "" {
      var k :| 0 <= k < |ns| && ns[k] == n;
      assert Ssids(ns)[k] == n.ssid;
      SsidValuesNonEmpty(lines, k);
    }
  }

  lemma {:induction false} SsidValuesNonEmpty(lines: seq<string>, k: nat)
    requires k < |SsidValues(lines)|
    ensures SsidValues(lines)[k] != ""
    decreases |lines|
  {
    var line := Strip(lines[0]);
    if StartsWith(line, "SSID") && FieldValue(line).Some? {
      if k > 0 {
        SsidValuesNonEmpty(lines[1..], k - 1);
      }
    } else {
      SsidValuesNonEmpty(lines[1..], k);
    }
  }

  /** Running the loop over two pieces of input runs it over the first and
      then over the second. */
  lemma {:induction false} WinFoldAppend(st: WinState, a: seq<string>, b: seq<string>)
    ensures WinFold(st, a + b) ==
      match WinFold(st, a)
      case None => None
      case Some(st') => WinFold(st', b)
    decreases |a|
  {
    if a == [] {
      assert a + b == b;
    } else {
      assert (a + b)[0] == a[0] && (a + b)[1..] == a[1..] + b;
      match WinStep(st, Strip(a[0]))
      case None =>
      case Some(st') => WinFoldAppend(st', a[1..], b);
    }
  }

  /** The value of the last line of `kind` in `lines`, or `default` when none is. */
  function LastValue(lines: seq<string>, kind: WinLine, default: Option<string>): Option<string>
    decreases |lines|
  {
    if lines == [] then default
    else
      var line := Strip(lines[0]);
      LastValue(lines[1..], kind, if LineKind(line) == kind then FieldValue(line) else default)
  }

  /** Lines with no SSID line among them only update the current record, and
      each of its fields ends up holding the value of the LAST line of its kind:
      a later Authentication, Signal or BSSID line overwrites an earlier one. */
  lemma {:induction false} WinFoldBlock(st: WinState, body: seq<string>)
    requires forall k | 0 <= k < |body| :: LineKind(Strip(body[k])) != SsidLine
    requires WinFold(st, body).Some?
    ensures WinFold(st, body) == Some(WinState(st.networks, st.current.(
      encryption := LastValue(body, AuthenticationLine, st.current.encryption),
      signal := LastValue(body, SignalLine, st.current.signal),
      bssid := LastValue(body, BssidLine, st.current.bssid))))
    decreases |body|
  {
    if body != [] {
      var line := Strip(body[0]);
      BssidGuardInert(line, st.current);
      var st' := WinStep(st, line).value;
      assert forall k | 0 <= k < |body[1..]| :: body[1..][k] == body[k + 1];
      WinFoldBlock(st', body[1..]);
    }
  }

  /** Records of the same state that have no SSID lead to the same listing. */
  lemma {:induction false} WinFoldUnnamed(networks: seq<Network>, c1: Pending, c2: Pending, lines: seq<string>)
    requires c1.ssid.None? && c2.ssid.None?
    ensures match WinFold(WinState(networks, c1), lines)
      case None => WinFold(WinState(networks, c2), lines).None?
      case Some(s1) => WinFold(WinState(networks, c2), lines).Some? && Flush(s1) == Flush(WinFold(WinState(networks, c2), lines).value)
    decreases |lines|
  {
    if lines != [] {
      var line := Strip(lines[0]);
      BssidGuardInert(line, c1);
      BssidGuardInert(line, c2);
      match WinStep(WinState(networks, c1), line)
      case None =>
      case Some(s1) =>
        var s2 := WinStep(WinState(networks, c2), line).value;
        if LineKind(line) == SsidLine {
          assert s1 == s2;
        } else {
          WinFoldUnnamed(networks, s1.current, s2.current, lines[1..]);
        }
    }
  }

  /** Fields seen before the first SSID line belong to no network: a preamble
      without SSID lines that the parser reads without failing changes nothing. */
  lemma WindowsPreambleDiscarded(preamble: seq<string>, rest: seq<string>)
    requires forall k | 0 <= k < |preamble| :: LineKind(Strip(preamble[k])) != SsidLine
    requires WinFold(WinState([], NO_NETWORK), preamble).Some?
    ensures WinNetworks(preamble + rest) == WinNetworks(rest)
  {
    var init := WinState([], NO_NETWORK);
    WinFoldAppend(init, preamble, rest);
    WinFoldBlock(init, preamble);
    var after := WinFold(init, preamble).value;
    WinFoldUnnamed([], after.current, NO_NETWORK, rest);
  }

  // =====================================================================
  // macOS and Linux: one network per row of a column listing

  /** The rows that `parse` accepts, in order: the loop of `_scan_macos` and
      `_scan_linux`. */
  function CollectRows(lines: seq<string>, parse: string -> Option<Network>): seq<Network>
    decreases |lines|
  {
    if lines == [] then []
    else
      var rest := CollectRows(lines[1..], parse);
      match parse(lines[0])
      case Some(n) => [n] + rest
      case None => rest
  }

  /** A listed network is exactly one that some row parses to. */
  lemma {:induction false} CollectRowsMember(lines: seq<string>, parse: string -> Option<Network>, n: Network)
    ensures n in CollectRows(lines, parse) <==> exists k | 0 <= k < |lines| :: parse(lines[k]) == Some(n)
    decreases |lines|
  {
    if lines != [] {
      CollectRowsMember(lines[1..], parse, n);
      assert forall k | 0 <= k < |lines| - 1 :: lines[1..][k] == lines[k + 1];
      if exists k | 0 <= k < |lines| :: parse(lines[k]) == Some(n) {
        var k :| 0 <= k < |lines| && parse(lines[k]) == Some(n);
        if k > 0 {
          assert parse(lines[1..][k - 1]) == Some(n);
        }
      }
    }
  }

  /** The lines after the header line (`result.split('\n')[1:]`). */
  function Body(output: string): seq<string> {
    Split(output, '\n')[1..]
  }

  /** The header line is skipped whatever it says. */
  lemma HeaderIgnored(header: string, rest: string)
    requires '\n' !in header
    ensures Body(header + "\n" + rest) == Split(rest, '\n')
  {
    SplitFirst(header, '\n', rest);
  }

  /** One row of `airport -s`: at least seven whitespace-separated columns, of
      which 0, 1, 2, 3 and 6 are read. */
  function AirportRow(line: string): Option<Network> {
    if Strip(line) == "" then None
    else
      var parts := Words(line);
      if |parts| >= 7 then
        Some(Network(parts[0], Some(parts[1]), Some(parts[2] + " dBm"), Some(parts[3]),
          Some(if |parts| > 6 then parts[6] else "Unknown")))
      else None
  }

  /** `_scan_macos()` as a function of the command's outcome. */
  function MacosListing(cmd: Command): Listing {
    if !cmd.Ran? then ScanFailed("macOS scan failed: " + cmd.ErrorText())
    else Networks(CollectRows(Body(cmd.output), AirportRow))
  }

  /** `_scan_macos()` */
  method ScanMacos(cmd: Command) returns (r: Listing)
    ensures r == MacosListing(cmd)
  {
    if !cmd.Ran? {
      return ScanFailed("macOS scan failed: " + cmd.ErrorText());
    }
    var lines := Body(cmd.output);
    var networks: seq<Network> := [];
    var i := 0;
    while i < |lines|
      invariant 0 <= i <= |lines|
      invariant CollectRows(lines, AirportRow) == networks + CollectRows(lines[i..], AirportRow)
    {
      assert lines[i..][1..] == lines[i + 1..];
      var row := AirportRow(lines[i]);
      if row.Some? {
        networks := networks + [row.value];
      }
      i := i + 1;
    }
    r := Networks(networks);
  }

  /** A row laid out as columns `ws` with any whitespace around and between
      them lists a network exactly when it has at least seven columns, made of
      columns 0 (SSID), 1 (BSSID), 2 (RSSI, with " dBm" added), 3 (channel)
      and 6 (security). */
  lemma AirportColumns(ws: seq<string>, gaps: seq<string>)
    requires |gaps| == |ws| + 1
    requires forall k | 0 <= k < |ws| :: IsToken(ws[k])
    requires forall k | 0 <= k < |gaps| :: AllSpace(gaps[k])
    requires forall k | 0 < k < |ws| :: gaps[k] != []
    ensures AirportRow(Padded(ws, gaps)) ==
      if |ws| >= 7 then Some(Network(ws[0], Some(ws[1]), Some(ws[2] + " dBm"), Some(ws[3]), Some(ws[6])))
      else None
  {
    WordsPadded(ws, gaps);
    RowNotBlank(Padded(ws, gaps));
  }

  /** A line is blank exactly when it has no columns. */
  lemma RowNotBlank(line: string)
    ensures Strip(line) == "" <==> Words(line) == []
  {
    WordsEmpty(line);
    StripTrimmed(line);
  }

  /** One row of `nmcli -f SSID,BSSID,SIGNAL,SECURITY device wifi list`: at
      least three columns; "--" names a hidden network; the security is every
      column from the fourth on, joined by single spaces, or "Open". */
  function NmcliRow(line: string): Option<Network> {
    if Strip(line) == "" then None
    else
      var parts := Words(line);
      if |parts| >= 3 then
        Some(Network(
          if parts[0] != "--" then parts[0] else HIDDEN,
          Some(if |parts| > 1 then parts[1] else "Unknown"),
          Some(if |parts| > 2 then parts[2] + "%" else "Unknown"),
          None,
          Some(if |parts| > 3 then Join(parts[3..], " ") else "Open")))
      else None
  }

  /** `_scan_linux()` as a function of the command's outcome. */
  function LinuxListing(cmd: Command): Listing {
    match cmd
    case NotFound(_) => ScanFailed("nmcli not found. Please install NetworkManager.")
    case Raised(m) => ScanFailed("Linux scan failed: " + m)
    case Ran(output) => Networks(CollectRows(Body(output), NmcliRow))
  }

  /** `_scan_linux()` */
  method ScanLinux(cmd: Command) returns (r: Listing)
    ensures r == LinuxListing(cmd)
  {
    if cmd.NotFound? {
      return ScanFailed("nmcli not found. Please install NetworkManager.");
    } else if cmd.Raised? {
      return ScanFailed("Linux scan failed: " + cmd.message);
    }
    var lines := Body(cmd.output);
    var networks: seq<Network> := [];
    var i := 0;
    while i < |lines|
      invariant 0 <= i <= |lines|
      invariant CollectRows(lines, NmcliRow) == networks + CollectRows(lines[i..], NmcliRow)
    {
      assert lines[i..][1..] == lines[i + 1..];
      var row := NmcliRow(lines[i]);
      if row.Some? {
        networks := networks + [row.value];
      }
      i := i + 1;
    }
    r := Networks(networks);
  }

  /** A row laid out as columns `ws` with any whitespace around and between
      them lists a network exactly when it has at least three columns: SSID
      ("--" read as hidden), BSSID, signal with "%" added, and the remaining
      columns joined by single spaces as the security, "Open" when there are
      none. */
  lemma NmcliColumns(ws: seq<string>, gaps: seq<string>)
    requires |gaps| == |ws| + 1
    requires forall k | 0 <= k < |ws| :: IsToken(ws[k])
    requires forall k | 0 <= k < |gaps| :: AllSpace(gaps[k])
    requires forall k | 0 < k < |ws| :: gaps[k] != []
    ensures NmcliRow(Padded(ws, gaps)) ==
      if |ws| >= 3 then
        Some(Network(if ws[0] == "--" then HIDDEN else ws[0], Some(ws[1]), Some(ws[2] + "%"), None,
          Some(if |ws| == 3 then "Open" else Join(ws[3..], " "))))
      else None
  {
    WordsPadded(ws, gaps);
    RowNotBlank(Padded(ws, gaps));
  }

  /** The security of an nmcli row splits back into the row's fourth and later
      columns: joining them loses nothing. */
  lemma NmcliSecurityColumns(line: string)
    requires NmcliRow(line).Some? && |Words(line)| > 3
    ensures Words(NmcliRow(line).value.encryption.value) == Words(line)[3..]
  {
    var parts := Words(line);
    assert forall k | 0 <= k < |parts[3..]| :: parts[3..][k] == parts[k + 3];
    WordsJoin(parts[3..]);
  }

  // =====================================================================
  // Dispatch

  /** `get_nearby_networks()`: the parser for the system the scanner runs on. */
  method GetNearbyNetworks(system: System, cmd: Command) returns (r: Listing)
    ensures system == Windows ==> r == WindowsListing(cmd)
    ensures system == Darwin ==> r == MacosListing(cmd)
    ensures system == Linux ==> r == LinuxListing(cmd)
    ensures system.OtherSystem? ==> r == Unsupported("Unsupported operating system")
  {
    match system
    case Windows => r := ScanWindows(cmd);
    case Darwin => r := ScanMacos(cmd);
    case Linux => r := ScanLinux(cmd);
    case OtherSystem(_) => r := Unsupported("Unsupported operating system");
  }
}
