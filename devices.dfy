/** `NetworkScanner.get_connected_devices`: the devices of the local network,
    read from the ARP table (`arp -a`). Each line may offer one device; a
    device is kept when its address has not been kept before (`seen_ips`), so
    for a repeated address the first line wins. */
module Devices {

  import opened Wrappers
  import opened PyStr
  import opened Host
  import opened Patterns

  /** A device record: 'ip', 'mac' and 'status'. */
  datatype Device = Device(ip: string, mac: string, status: string)

  const ACTIVE := "ACTIVE"

  /** The broadcast entry of a Windows ARP table, as Windows prints it. */
  const BROADCAST_MAC := "ff-ff-ff-ff-ff-ff"

  /** An address in 224.0.0.0/8 or 239.0.0.0/8, tested as text. */
  predicate Multicast(ip: string) {
    StartsWith(ip, "224.") || StartsWith(ip, "239.")
  }

  /** `'incomplete' in line.lower()` */
  predicate Incomplete(line: string) {
    Contains(Lower(line), "incomplete")
  }

  /** `mac.upper().replace('-', ':')` */
  function WindowsMac(mac: string): string {
    ReplaceChar(Upper(mac), '-', ':')
  }

  /** The device a line of the Windows table offers before deduplication: a
      line in which `\d+\.\d+\.\d+\.\d+` matches, with at least two columns,
      the first read as the address and the second as the hardware address. */
  function WindowsEntry(line: string): Option<Device> {
    if HasDottedQuad(line) then
      var parts := Words(line);
      if |parts| >= 2 then
        var ip := parts[0];
        var mac := if |parts| > 1 then parts[1] else "Unknown";
        if mac != BROADCAST_MAC && !Incomplete(line) && !Multicast(ip) then
          Some(Device(ip, WindowsMac(mac), ACTIVE))
        else None
      else None
    else None
  }

  /** The device a line of the BSD/Linux table offers before deduplication:
      the groups of the leftmost match of `\(([\d.]+)\)\s+at\s+([\w:]+)`. */
  function UnixEntry(line: string): Option<Device> {
    match SearchArpFields(line, 0)
    case None => None
    case Some(f) =>
      if !Incomplete(line) && !Multicast(f.ip) then Some(Device(f.ip, Upper(f.mac), ACTIVE))
      else None
  }

  /** The reader for the system's table. */
  function EntryReader(system: System): string -> Option<Device> {
    if system == Windows then WindowsEntry else UnixEntry
  }

  /** The loop over the lines, with the addresses kept so far in `seen`. */
  function Collect(lines: seq<string>, seen: set<string>, entryOf: string -> Option<Device>): seq<Device>
    decreases |lines|
  {
    if lines == [] then []
    else match entryOf(lines[0])
      case Some(d) =>
        if d.ip !in seen then [d] + Collect(lines[1..], seen + {d.ip}, entryOf)
        else Collect(lines[1..], seen, entryOf)
      case None => Collect(lines[1..], seen, entryOf)
  }

  /** `get_connected_devices()` as a function of the system and the outcome of
      `arp -a`; any exception yields the empty list. */
  function DevicesOf(system: System, cmd: Command): seq<Device> {
    if !cmd.Ran? then [] else Collect(Split(cmd.output, '\n'), {}, EntryReader(system))
  }

  /** `get_connected_devices()` */
  method GetConnectedDevices(system: System, cmd: Command) returns (devices: seq<Device>)
    ensures devices == DevicesOf(system, cmd)
  {
    if !cmd.Ran? {
      return [];
    }
    var lines := Split(cmd.output, '\n');
    if system == Windows {
      devices := ReadWindowsTable(lines);
    } else {
      devices := ReadUnixTable(lines);
    }
  }

  /** The Windows loop: each line's device, kept unless its address was
      kept before, with the addresses kept so far in `seenIps`. */
  method ReadWindowsTable(lines: seq<string>) returns (devices: seq<Device>)
    ensures devices == Collect(lines, {}, WindowsEntry)
  {
    devices := [];
    var seenIps: set<string> := {};
    var i := 0;
    while i < |lines|
      invariant 0 <= i <= |lines|
      invariant Collect(lines, {}, WindowsEntry) == devices + Collect(lines[i..], seenIps, WindowsEntry)
    {
      var kept := ReadWindowsLine(lines[i], seenIps);
      TableStep(lines, i, devices, seenIps, kept, WindowsEntry);
      if kept.Some? {
        seenIps := seenIps + {kept.value.ip};
        devices := devices + [kept.value];
      }
      i := i + 1;
    }
  }

  /** The body of the Windows loop: the device a line adds, if any. */
  method ReadWindowsLine(line: string, seenIps: set<string>) returns (kept: Option<Device>)
    ensures kept == Unseen(WindowsEntry(line), seenIps)
  {
    kept := None;
    if HasDottedQuad(line) {
      var parts := Words(line);
      if |parts| >= 2 {
        var ip := parts[0];
        var mac := if |parts| > 1 then parts[1] else "Unknown";
        if mac != BROADCAST_MAC && !Contains(Lower(line), "incomplete") && ip !in seenIps
          && !StartsWith(ip, "224.") && !StartsWith(ip, "239.")
        {
          kept := Some(Device(ip, ReplaceChar(Upper(mac), '-', ':'), ACTIVE));
        }
      }
    }
  }

  /** The BSD/Linux loop: each line's device, kept unless its address was
      kept before, with the addresses kept so far in `seenIps`. */
  method ReadUnixTable(lines: seq<string>) returns (devices: seq<Device>)
    ensures devices == Collect(lines, {}, UnixEntry)
  {
    devices := [];
    var seenIps: set<string> := {};
    var i := 0;
    while i < |lines|
      invariant 0 <= i <= |lines|
      invariant Collect(lines, {}, UnixEntry) == devices + Collect(lines[i..], seenIps, UnixEntry)
    {
      var kept := ReadUnixLine(lines[i], seenIps);
      TableStep(lines, i, devices, seenIps, kept, UnixEntry);
      if kept.Some? {
        seenIps := seenIps + {kept.value.ip};
        devices := devices + [kept.value];
      }
      i := i + 1;
    }
  }

  /** The body of the BSD/Linux loop: the device a line adds, if any. */
  method ReadUnixLine(line: string, seenIps: set<string>) returns (kept: Option<Device>)
    ensures kept == Unseen(UnixEntry(line), seenIps)
  {
    kept := None;
    var found := SearchArpFields(line, 0);
    if found.Some? {
      var ip := found.value.ip;
      var mac := Upper(found.value.mac);
      if ip !in seenIps && !Contains(Lower(line), "incomplete")
        && !StartsWith(ip, "224.") && !StartsWith(ip, "239.")
      {
        kept := Some(Device(ip, mac, ACTIVE));
      }
    }
  }

  /** A line's device, unless its address is among those seen. */
  function Unseen(entry: Option<Device>, seen: set<string>): Option<Device> {
    if entry.Some? && entry.value.ip !in seen then entry else None
  }

  // =====================================================================
  // Deduplication, stated without the seen set

  /** The entry each line offers. */
  function Entries(lines: seq<string>, entryOf: string -> Option<Device>): seq<Option<Device>> {
    seq(|lines|, k requires 0 <= k < |lines| => entryOf(lines[k]))
  }

  /** Entry k is a device, and no earlier entry is one with the same address. */
  predicate FirstForIp(entries: seq<Option<Device>>, k: int)
    requires 0 <= k < |entries|
  {
    entries[k].Some?
    && forall j | 0 <= j < k :: !(entries[j].Some? && entries[j].value.ip == entries[k].value.ip)
  }

  /** The first entry for each address among the first n, in line order. */
  function FirstOffers(entries: seq<Option<Device>>, n: nat): seq<Device>
    requires n <= |entries|
  {
    if n == 0 then []
    else FirstOffers(entries, n - 1) + (if FirstForIp(entries, n - 1) then [entries[n - 1].value] else [])
  }

  /** The addresses offered by the first n entries. */
  ghost function OfferedIps(entries: seq<Option<Device>>, n: nat): set<string>
    requires n <= |entries|
  {
    set j | 0 <= j < n && entries[j].Some? :: entries[j].value.ip
  }

  /** One more line adds its address, if it offers one. */
  lemma OfferedIpsStep(entries: seq<Option<Device>>, i: nat)
    requires i < |entries|
    ensures OfferedIps(entries, i + 1) ==
      OfferedIps(entries, i) + (if entries[i].Some? then {entries[i].value.ip} else {})
  {
  }

  /** An entry is the first for its address exactly when no earlier line
      offered that address. */
  lemma FirstForIpUnseen(entries: seq<Option<Device>>, i: nat)
    requires i < |entries| && entries[i].Some?
    ensures FirstForIp(entries, i) <==> entries[i].value.ip !in OfferedIps(entries, i)
  {
    if entries[i].value.ip in OfferedIps(entries, i) {
      var j :| 0 <= j < i && entries[j].Some? && entries[j].value.ip == entries[i].value.ip;
    }
  }

  /** One step of the loop. */
  lemma CollectStep(lines: seq<string>, i: nat, seen: set<string>, entryOf: string -> Option<Device>)
    requires i < |lines|
    ensures Collect(lines[i..], seen, entryOf) ==
      match entryOf(lines[i])
      case Some(d) =>
        if d.ip !in seen then [d] + Collect(lines[i + 1..], seen + {d.ip}, entryOf)
        else Collect(lines[i + 1..], seen, entryOf)
      case None => Collect(lines[i + 1..], seen, entryOf)
  {
    assert lines[i..][0] == lines[i] && lines[i..][1..] == lines[i + 1..];
  }

  /** One pass of a table loop keeps the loop's invariant: the devices so far
      and the loop over the remaining lines make up the whole table. */
  lemma TableStep(lines: seq<string>, i: nat, devices: seq<Device>, seen: set<string>,
                  kept: Option<Device>, entryOf: string -> Option<Device>)
    requires i < |lines|
    requires Collect(lines, {}, entryOf) == devices + Collect(lines[i..], seen, entryOf)
    requires kept == Unseen(entryOf(lines[i]), seen)
    ensures kept.Some? ==>
      Collect(lines, {}, entryOf) == devices + [kept.value] + Collect(lines[i + 1..], seen + {kept.value.ip}, entryOf)
    ensures kept.None? ==> Collect(lines, {}, entryOf) == devices + Collect(lines[i + 1..], seen, entryOf)
  {
    CollectUnseen(lines, i, seen, entryOf);
    if kept.Some? {
      var rest := Collect(lines[i + 1..], seen + {kept.value.ip}, entryOf);
      assert devices + ([kept.value] + rest) == devices + [kept.value] + rest;
    }
  }

  /** The same step, with the line's device filtered by the addresses seen. */
  lemma CollectUnseen(lines: seq<string>, i: nat, seen: set<string>, entryOf: string -> Option<Device>)
    requires i < |lines|
    ensures Collect(lines[i..], seen, entryOf) ==
      match Unseen(entryOf(lines[i]), seen)
      case Some(d) => [d] + Collect(lines[i + 1..], seen + {d.ip}, entryOf)
      case None => Collect(lines[i + 1..], seen, entryOf)
  {
    CollectStep(lines, i, seen, entryOf);
  }

  /** The loop from line i on, with the addresses of the earlier lines seen,
      completes the first offers of the earlier lines into those of all. */
  lemma {:induction false} CollectFromLine(lines: seq<string>, entryOf: string -> Option<Device>, i: nat)
    requires i <= |lines|
    ensures var entries := Entries(lines, entryOf);
      FirstOffers(entries, i) + Collect(lines[i..], OfferedIps(entries, i), entryOf)
        == FirstOffers(entries, |lines|)
    decreases |lines| - i
  {
    var entries := Entries(lines, entryOf);
    if i == |lines| {
      assert lines[i..] == [];
    } else {
      CollectFromLine(lines, entryOf, i + 1);
      CollectOneLine(lines, entryOf, i);
    }
  }

  /** One more line moves from the loop's remaining lines to the first offers. */
  lemma CollectOneLine(lines: seq<string>, entryOf: string -> Option<Device>, i: nat)
    requires i < |lines|
    ensures var entries := Entries(lines, entryOf);
      FirstOffers(entries, i) + Collect(lines[i..], OfferedIps(entries, i), entryOf)
        == FirstOffers(entries, i + 1) + Collect(lines[i + 1..], OfferedIps(entries, i + 1), entryOf)
  {
    var entries := Entries(lines, entryOf);
    OfferedIpsStep(entries, i);
    CollectStep(lines, i, OfferedIps(entries, i), entryOf);
    var seen := OfferedIps(entries, i);
    var rest := Collect(lines[i + 1..], OfferedIps(entries, i + 1), entryOf);
    assert entries[i] == entryOf(lines[i]);
    if entries[i].Some? {
      var d := entries[i].value;
      FirstForIpUnseen(entries, i);
      if d.ip !in seen {
        assert FirstOffers(entries, i + 1) == FirstOffers(entries, i) + [d];
        assert Collect(lines[i..], seen, entryOf) == [d] + rest;
        assert FirstOffers(entries, i) + ([d] + rest) == (FirstOffers(entries, i) + [d]) + rest;
      } else {
        assert OfferedIps(entries, i + 1) == seen;
        assert Collect(lines[i..], seen, entryOf) == rest;
        assert FirstOffers(entries, i + 1) == FirstOffers(entries, i);
      }
    } else {
      assert OfferedIps(entries, i + 1) == seen;
      assert Collect(lines[i..], seen, entryOf) == rest;
      assert FirstOffers(entries, i + 1) == FirstOffers(entries, i);
    }
  }

  /** The devices are, in line order, the first entry offered for each address. */
  lemma DevicesAreFirstOffers(system: System, cmd: Command)
    requires cmd.Ran?
    ensures var lines := Split(cmd.output, '\n');
      DevicesOf(system, cmd) == FirstOffers(Entries(lines, EntryReader(system)), |lines|)
  {
    var lines := Split(cmd.output, '\n');
    var entries := Entries(lines, EntryReader(system));
    CollectFromLine(lines, EntryReader(system), 0);
    assert OfferedIps(entries, 0) == {};
    assert lines[0..] == lines;
  }

  /** A kept device is exactly an entry that is the first for its address. */
  lemma {:induction false} FirstOffersMember(entries: seq<Option<Device>>, n: nat, d: Device)
    requires n <= |entries|
    ensures d in FirstOffers(entries, n) <==>
      exists k | 0 <= k < n :: FirstForIp(entries, k) && entries[k] == Some(d)
  {
    if n > 0 {
      FirstOffersMember(entries, n - 1, d);
    }
  }

  /** No two devices of the list share an address. */
  predicate DistinctIps(devices: seq<Device>) {
    forall a, b | 0 <= a < b < |devices| :: devices[a].ip != devices[b].ip
  }

  /** No two kept devices share an address. */
  lemma {:induction false} FirstOffersUnique(entries: seq<Option<Device>>, n: nat)
    requires n <= |entries|
    ensures DistinctIps(FirstOffers(entries, n))
  {
    if n > 0 {
      FirstOffersUnique(entries, n - 1);
      var before := FirstOffers(entries, n - 1);
      var kept := FirstOffers(entries, n);
      if FirstForIp(entries, n - 1) {
        var e := entries[n - 1].value;
        assert kept == before + [e];
        forall a, b | 0 <= a < b < |kept| ensures kept[a].ip != kept[b].ip {
          if b == |before| {
            assert before[a] in before;
            FirstOffersMember(entries, n - 1, before[a]);
            var k :| 0 <= k < n - 1 && FirstForIp(entries, k) && entries[k] == Some(before[a]);
            assert entries[k].Some? && entries[k].value.ip == before[a].ip;
            assert before[a].ip != e.ip;
            assert kept[a] == before[a] && kept[b] == e;
          } else {
            assert kept[a] == before[a] && kept[b] == before[b];
          }
        }
      } else {
        assert kept == before;
      }
    }
  }

  /** A first entry ends the kept devices of the lines up to it. */
  lemma LastOffer(entries: seq<Option<Device>>, k: nat)
    requires k < |entries| && FirstForIp(entries, k)
    ensures FirstOffers(entries, k + 1) == FirstOffers(entries, k) + [entries[k].value]
  {
  }

  /** The kept devices of fewer lines start the kept devices of more. */
  lemma {:induction false} FirstOffersPrefix(entries: seq<Option<Device>>, m: nat, n: nat)
    requires m <= n <= |entries|
    ensures FirstOffers(entries, m) <= FirstOffers(entries, n)
    decreases n - m
  {
    if m < n {
      FirstOffersPrefix(entries, m, n - 1);
    }
  }

  /** Deduplication drops only repeats: every address some line offers is the
      address of a kept device. */
  lemma {:induction false} FirstOffersCover(entries: seq<Option<Device>>, n: nat, k: nat)
    requires k < n <= |entries| && entries[k].Some?
    ensures exists d | d in FirstOffers(entries, n) :: d.ip == entries[k].value.ip
    decreases k
  {
    if FirstForIp(entries, k) {
      FirstOffersPrefix(entries, k + 1, n);
      var d := entries[k].value;
      assert FirstOffers(entries, k + 1)[|FirstOffers(entries, k + 1)| - 1] == d;
      assert d in FirstOffers(entries, n);
    } else {
      var j :| 0 <= j < k && entries[j].Some? && entries[j].value.ip == entries[k].value.ip;
      FirstOffersCover(entries, n, j);
    }
  }

  /** Kept devices appear in the order of their lines. */
  lemma FirstOffersOrder(entries: seq<Option<Device>>, n: nat, k1: nat, k2: nat)
    requires k1 < k2 < n <= |entries|
    requires FirstForIp(entries, k1) && FirstForIp(entries, k2)
    ensures var kept := FirstOffers(entries, n);
      exists a, b | 0 <= a < b < |kept| :: kept[a] == entries[k1].value && kept[b] == entries[k2].value
  {
    var kept := FirstOffers(entries, n);
    LastOffer(entries, k1);
    LastOffer(entries, k2);
    var upTo1 := FirstOffers(entries, k1 + 1);
    var upTo2 := FirstOffers(entries, k2 + 1);
    var a := |upTo1| - 1;
    var b := |upTo2| - 1;
    FirstOffersPrefix(entries, k1 + 1, k2);
    FirstOffersPrefix(entries, k1 + 1, n);
    FirstOffersPrefix(entries, k2 + 1, n);
    assert |upTo1| <= |FirstOffers(entries, k2)| == b;
    assert upTo1[a] == entries[k1].value && upTo2[b] == entries[k2].value;
    assert kept[a] == upTo1[a] && kept[b] == upTo2[b];
  }

  // =====================================================================
  // What a kept device looks like

  /** A hardware address with no ASCII lower-case letter. */
  predicate NoLowerCase(mac: string) {
    forall k | 0 <= k < |mac| :: !IsAsciiLower(mac[k])
  }

  /** The line offers `d`, read from its columns: on Windows the first column
      is the address and the second, not the broadcast address, is the
      hardware address rewritten; elsewhere the address and the hardware
      address (in upper case) are the groups of the line's first
      `(ip) at mac` match. */
  predicate GivenBy(system: System, line: string, d: Device) {
    EntryReader(system)(line) == Some(d)
    && if system == Windows then
      |Words(line)| >= 2 && d.ip == Words(line)[0] && Words(line)[1] != BROADCAST_MAC
      && d.mac == WindowsMac(Words(line)[1])
    else
      SearchArpFields(line, 0).Some? && d.ip == SearchArpFields(line, 0).value.ip
      && d.mac == Upper(SearchArpFields(line, 0).value.mac)
  }

  /** A device a line offers is active, has no multicast address, comes from a
      line that is not an incomplete entry, and has its hardware address in
      upper case; on Windows the line holds a dotted quad and the hardware
      address is written with ':' in place of '-'; and the device is read from
      the line's columns as `GivenBy` says. */
  lemma EntryFiltered(system: System, line: string)
    requires EntryReader(system)(line).Some?
    ensures var d := EntryReader(system)(line).value;
      d.status == ACTIVE && !Multicast(d.ip) && !Incomplete(line) && NoLowerCase(d.mac)
      && (system == Windows ==> '-' !in d.mac && HasDottedQuad(line))
      && GivenBy(system, line, d)
  {
    var d := EntryReader(system)(line).value;
    if system == Windows {
      var mac := Words(line)[1];
      UpperHasNoLower(mac);
      assert d.mac == ReplaceChar(Upper(mac), '-', ':');
      forall k | 0 <= k < |d.mac| ensures !IsAsciiLower(d.mac[k]) && d.mac[k] != '-' {
        assert d.mac[k] == if Upper(mac)[k] == '-' then ':' else Upper(mac)[k];
      }
    } else {
      UpperHasNoLower(SearchArpFields(line, 0).value.mac);
    }
  }

  /** `get_connected_devices()` returns active devices with distinct, non-multicast
      addresses and upper-case hardware addresses (with ':' separators on
      Windows), each read from the columns of some line of the table; a failed
      command gives no devices. */
  lemma DevicesFiltered(system: System, cmd: Command)
    ensures !cmd.Ran? ==> DevicesOf(system, cmd) == []
    ensures DistinctIps(DevicesOf(system, cmd))
    ensures forall d | d in DevicesOf(system, cmd) ::
      d.status == ACTIVE && !Multicast(d.ip) && NoLowerCase(d.mac)
      && (system == Windows ==> '-' !in d.mac)
      && exists line | line in Split(cmd.output, '\n') :: GivenBy(system, line, d)
  {
    if cmd.Ran? {
      var lines := Split(cmd.output, '\n');
      var entries := Entries(lines, EntryReader(system));
      DevicesAreFirstOffers(system, cmd);
      FirstOffersUnique(entries, |lines|);
      forall d | d in DevicesOf(system, cmd)
        ensures d.status == ACTIVE && !Multicast(d.ip) && NoLowerCase(d.mac)
          && (system == Windows ==> '-' !in d.mac)
          && exists line | line in lines :: GivenBy(system, line, d)
      {
        FirstOffersMember(entries, |lines|, d);
        var k :| 0 <= k < |lines| && FirstForIp(entries, k) && entries[k] == Some(d);
        EntryFiltered(system, lines[k]);
        assert lines[k] in lines;
      }
    }
  }

  /** Rewriting a Windows hardware address a second time changes nothing. */
  lemma WindowsMacIdempotent(mac: string)
    ensures WindowsMac(WindowsMac(mac)) == WindowsMac(mac)
  {
    var once := WindowsMac(mac);
    forall k | 0 <= k < |once| ensures WindowsMac(once)[k] == once[k] {
      assert Upper(once)[k] == UpperChar(once[k]);
    }
  }

  // =====================================================================
  // Rows of the tables

  /** A BSD/Linux row `host (ip) at mac rest`, whose host column holds no '(',
      gives the device with that address and the hardware address in upper
      case, unless the row is incomplete or the address multicast. */
  lemma UnixRow(host: string, ip: string, mac: string, rest: string)
    requires '(' !in host
    requires IsRun(ip, DigitOrDot) && IsRun(mac, WordOrColon)
    requires rest == [] || !InClass(rest[0], WordOrColon)
    ensures var line := host + " (" + ip + ") at " + mac + rest;
      UnixEntry(line) ==
        if Incomplete(line) || Multicast(ip) then None else Some(Device(ip, Upper(mac), ACTIVE))
  {
    var line := host + " (" + ip + ") at " + mac + rest;
    var i := |host| + 1;
    var f := ArpFields(ip, mac);
    UnixRowLayout(host, ip, mac, rest);
    ArpLayoutRecognised(line, i, f, 1, 1);
    forall n | 0 <= n < i ensures ArpFieldsAt(line, n).None? {
      assert line[n] == if n < |host| then host[n] else ' ';
    }
    SearchSkips(line, 0, i);
  }

  /** Where the row's match sits. */
  lemma UnixRowLayout(host: string, ip: string, mac: string, rest: string)
    requires IsRun(ip, DigitOrDot) && IsRun(mac, WordOrColon)
    requires rest == [] || !InClass(rest[0], WordOrColon)
    ensures ArpLayout(host + " (" + ip + ") at " + mac + rest, |host| + 1, ArpFields(ip, mac), 1, 1)
  {
    var line := host + " (" + ip + ") at " + mac + rest;
    var i := |host| + 1;
    var j := i + 1 + |ip|;
    var k := j + 2;
    var m := k + 3;
    assert line == host + " (" + ip + ") at " + mac + rest;
    assert line[i] == '(';
    assert line[i + 1..j] == ip;
    assert line[j] == ')' && line[j + 1] == ' ';
    assert line[k..k + 2] == "at";
    assert line[k + 2] == ' ';
    assert line[m..m + |mac|] == mac;
    assert m + |mac| < |line| ==> line[m + |mac|] == rest[0];
  }

  /** The search passes over indexes where no match starts. */
  lemma {:induction false} SearchSkips(s: string, i: nat, n: nat)
    requires i <= n <= |s|
    requires forall j | i <= j < n :: ArpFieldsAt(s, j).None?
    ensures SearchArpFields(s, i) == SearchArpFields(s, n)
    decreases n - i
  {
    if i < n {
      SearchSkips(s, i + 1, n);
    }
  }

  /** A Windows row whose whitespace-separated columns are `cols`, however it
      is padded, and whose first column is a dotted quad, gives the device with
      that address and the rewritten hardware address of the second column,
      unless the row is the broadcast entry, incomplete or multicast. */
  lemma WindowsRow(line: string, cols: seq<string>, p: int, q: int, r: int)
    requires Words(line) == cols && |cols| >= 2
    requires QuadLayout(cols[0], p, q, r)
    ensures WindowsEntry(line) ==
      if cols[1] == BROADCAST_MAC || Incomplete(line) || Multicast(cols[0]) then None
      else Some(Device(cols[0], WindowsMac(cols[1]), ACTIVE))
  {
    var i := FirstWordAt(line);
    DottedQuadRecognised(line, i, i + |cols[0]|, p, q, r);
  }

  // =====================================================================
  // The interface header of the Windows table

  /** `arp -a` on Windows starts each table with a header such as
      `Interface: 192.168.1.5 --- 0xb`. The line holds a dotted quad and has
      at least two columns, so it is read as a device whose address is the
      word "Interface:" and whose hardware address is the host's own address. */
  lemma InterfaceHeaderIsADevice(addr: string, p: int, q: int, r: int)
    requires QuadLayout(addr, p, q, r)
    ensures WindowsEntry(Join(["Interface:", addr, "---", "0xb"], " "))
      == Some(Device("Interface:", WindowsMac(addr), ACTIVE))
  {
    var cols := ["Interface:", addr, "---", "0xb"];
    HeaderWords(addr, p, q, r);
    HeaderHasQuad(addr, p, q, r);
    HeaderNotIncomplete(addr, p, q, r);
    HeaderColumns(addr, p, q, r);
    WindowsEntryKeeps(Join(cols, " "));
  }

  /** A line with a dotted quad and two columns that pass the filters gives
      its first column as the address and its second as the hardware address. */
  lemma WindowsEntryKeeps(line: string)
    requires HasDottedQuad(line) && |Words(line)| >= 2 && !Incomplete(line)
    requires Words(line)[1] != BROADCAST_MAC && !Multicast(Words(line)[0])
    ensures WindowsEntry(line) == Some(Device(Words(line)[0], WindowsMac(Words(line)[1]), ACTIVE))
  {
  }

  /** The header's columns pass the filters. */
  lemma HeaderColumns(addr: string, p: int, q: int, r: int)
    requires QuadLayout(addr, p, q, r)
    ensures addr != BROADCAST_MAC && !Multicast("Interface:")
  {
    assert addr[0] != BROADCAST_MAC[0];
    var head := "Interface:"[..4];
    assert head[0] == 'I' && "224."[0] == '2' && "239."[0] == '2';
  }

  /** The header's columns. */
  lemma HeaderWords(addr: string, p: int, q: int, r: int)
    requires QuadLayout(addr, p, q, r)
    ensures Words(Join(["Interface:", addr, "---", "0xb"], " ")) == ["Interface:", addr, "---", "0xb"]
    ensures Join(["Interface:", addr, "---", "0xb"], " ") == "Interface: " + addr + " --- 0xb"
  {
    var cols := ["Interface:", addr, "---", "0xb"];
    assert forall k | 0 <= k < |addr| :: !IsSpace(addr[k]);
    assert IsToken(cols[0]) && IsToken(cols[1]) && IsToken(cols[2]) && IsToken(cols[3]);
    WordsJoin(cols);
    HeaderText(addr);
  }

  /** The header's text. */
  lemma HeaderText(addr: string)
    ensures Join(["Interface:", addr, "---", "0xb"], " ") == "Interface: " + addr + " --- 0xb"
  {
    var cols := ["Interface:", addr, "---", "0xb"];
    JoinCons(cols, " ");
    JoinCons(cols[1..], " ");
    JoinCons(cols[2..], " ");
    assert cols[1..][1..] == cols[2..] && cols[2..][1..] == cols[3..] && Join(cols[3..], " ") == "0xb";
  }

  lemma HeaderHasQuad(addr: string, p: int, q: int, r: int)
    requires QuadLayout(addr, p, q, r)
    ensures HasDottedQuad("Interface: " + addr + " --- 0xb")
  {
    var line := "Interface: " + addr + " --- 0xb";
    assert line[11..11 + |addr|] == addr;
    DottedQuadRecognised(line, 11, 11 + |addr|, p, q, r);
  }

  lemma HeaderNotIncomplete(addr: string, p: int, q: int, r: int)
    requires QuadLayout(addr, p, q, r)
    ensures !Incomplete("Interface: " + addr + " --- 0xb")
  {
    var line := "Interface: " + addr + " --- 0xb";
    var lower := Lower(line);
    forall i | 0 <= i < |lower| - 1 ensures !(lower[i] == 'n' && lower[i + 1] == 'c') {
      if i < 11 {
        assert lower[i] == LowerChar("Interface: "[i]);
        assert lower[i + 1] == LowerChar(line[i + 1]);
      } else if i < 11 + |addr| {
        assert lower[i] == LowerChar(addr[i - 11]);
      } else {
        assert lower[i] == LowerChar(" --- 0xb"[i - 11 - |addr|]);
      }
    }
    NotContainsPair(lower, "incomplete", 1);
  }

  /** The reader with the address column itself required to be a dotted quad. */
  function WindowsAddressEntry(line: string): Option<Device> {
    var parts := Words(line);
    if |parts| >= 2 && DottedQuadAt(parts[0], 0) then WindowsEntry(line) else None
  }

  /** Read that way, a device's address starts with a digit, every ordinary
      row reads as before, and the interface header is no device. */
  lemma WindowsAddressEntryReadsRows(line: string)
    ensures WindowsAddressEntry(line).Some? ==>
      WindowsAddressEntry(line) == WindowsEntry(line) && IsAsciiDigit(WindowsAddressEntry(line).value.ip[0])
  {
    if WindowsAddressEntry(line).Some? {
      var ip := Words(line)[0];
      assert RunLen(ip, 0, Digit) > 0;
      assert InClass(ip[0], Digit);
    }
  }

  /** A row with at least two columns whose first column is a dotted quad,
      however it is padded, reads as before. */
  lemma WindowsAddressEntryKeepsRow(line: string, p: int, q: int, r: int)
    requires |Words(line)| >= 2 && QuadLayout(Words(line)[0], p, q, r)
    ensures WindowsAddressEntry(line) == WindowsEntry(line)
  {
    var w := Words(line)[0];
    assert w[0..|w|] == w;
    DottedQuadRecognised(w, 0, |w|, p, q, r);
  }

  /** The interface header is no device. */
  lemma WindowsAddressEntryDropsHeader(addr: string, p: int, q: int, r: int)
    requires QuadLayout(addr, p, q, r)
    ensures WindowsAddressEntry(Join(["Interface:", addr, "---", "0xb"], " ")) == None
  {
    HeaderWords(addr, p, q, r);
    assert RunLen("Interface:", 0, Digit) == 0;
  }
}
