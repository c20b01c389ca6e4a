/** `WiFiScanner.get_connected_network`: what the machine reports about the
    network it is connected to, read from `netsh wlan show interfaces`
    (Windows), `airport -I` (macOS) or `nmcli -t -f
    active,ssid,bssid,signal,security dev wifi` (Linux). */
module ConnectedNetwork {

  import opened Wrappers
  import opened PyStr
  import opened Host

  /** The dict `info`: the keys 'ssid', 'bssid', 'signal' and 'encryption',
      None where a key is absent. */
  datatype Info = Info(
    ssid: Option<string>,
    bssid: Option<string>,
    signal: Option<string>,
    encryption: Option<string>)

  const NO_INFO := Info(None, None, None, None)

  /** The result: the connection's dict; `{"error": message}`; or the None
      returned on a system the method has no branch for. */
  datatype Connection =
    | Connected(info: Info)
    | ConnectionError(message: string)
    | NoAnswer

  const NOT_CONNECTED := "Not connected to any network"

  /** The four keys of `info`. */
  datatype Field = SsidField | BssidField | SignalField | EncryptionField

  function Get(info: Info, f: Field): Option<string> {
    match f
    case SsidField => info.ssid
    case BssidField => info.bssid
    case SignalField => info.signal
    case EncryptionField => info.encryption
  }

  function Set(info: Info, f: Field, v: string): (r: Info)
    ensures Get(r, f) == Some(v)
    ensures forall g | g != f :: Get(r, g) == Get(info, g)
  {
    match f
    case SsidField => info.(ssid := Some(v))
    case BssidField => info.(bssid := Some(v))
    case SignalField => info.(signal := Some(v))
    case EncryptionField => info.(encryption := Some(v))
  }

  // =====================================================================
  // Windows and macOS: "key : value" lines, each setting one key

  /** The key a line of `netsh wlan show interfaces` sets, tested in the
      order of the if/elif chain in `get_connected_network`, on the unstripped line. */
  function InterfacesField(line: string): Option<Field> {
    if Contains(line, "SSID") && !Contains(line, "BSSID") then Some(SsidField)
    else if Contains(line, "BSSID") then Some(BssidField)
    else if Contains(line, "Signal") then Some(SignalField)
    else if Contains(line, "Authentication") then Some(EncryptionField)
    else None
  }

  /** The key a line of `airport -I` sets. */
  function AirportField(line: string): Option<Field> {
    if Contains(line, " SSID:") then Some(SsidField)
    else if Contains(line, "BSSID:") then Some(BssidField)
    else if Contains(line, "agrCtlRSSI:") then Some(SignalField)
    else if Contains(line, "link auth:") then Some(EncryptionField)
    else None
  }

  /** The text stored for a value: macOS adds " dBm" to the signal. */
  function Stored(f: Field, value: string, signalSuffix: string): string {
    if f == SignalField then value + signalSuffix else value
  }

  /** The loop over the output's lines; None where `line.split(":", 1)[1]` raises. */
  function ReadFields(info: Info, lines: seq<string>, fieldOf: string -> Option<Field>, signalSuffix: string): Option<Info>
    decreases |lines|
  {
    if lines == [] then Some(info)
    else match fieldOf(lines[0])
      case None => ReadFields(info, lines[1..], fieldOf, signalSuffix)
      case Some(f) =>
        match FieldValue(lines[0])
        case None => None
        case Some(v) => ReadFields(Set(info, f, Stored(f, v, signalSuffix)), lines[1..], fieldOf, signalSuffix)
  }

  /** The Windows branch's loop. */
  method ReadInterfaces(lines: seq<string>) returns (r: Option<Info>)
    ensures r == ReadFields(NO_INFO, lines, InterfacesField, "")
  {
    var info := NO_INFO;
    var i := 0;
    while i < |lines|
      invariant 0 <= i <= |lines|
      invariant ReadFields(NO_INFO, lines, InterfacesField, "") == ReadFields(info, lines[i..], InterfacesField, "")
    {
      assert lines[i..][1..] == lines[i + 1..];
      var line := lines[i];
      if Contains(line, "SSID") && !Contains(line, "BSSID") {
        var v := FieldValue(line);
        if v.None? { return None; }
        info := info.(ssid := v);
      } else if Contains(line, "BSSID") {
        var v := FieldValue(line);
        if v.None? { return None; }
        info := info.(bssid := v);
      } else if Contains(line, "Signal") {
        var v := FieldValue(line);
        if v.None? { return None; }
        assert v.value + "" == v.value;
        info := info.(signal := v);
      } else if Contains(line, "Authentication") {
        var v := FieldValue(line);
        if v.None? { return None; }
        info := info.(encryption := v);
      }
      i := i + 1;
    }
    r := Some(info);
  }

  /** The macOS branch's loop. */
  method ReadAirportInfo(lines: seq<string>) returns (r: Option<Info>)
    ensures r == ReadFields(NO_INFO, lines, AirportField, " dBm")
  {
    var info := NO_INFO;
    var i := 0;
    while i < |lines|
      invariant 0 <= i <= |lines|
      invariant ReadFields(NO_INFO, lines, AirportField, " dBm") == ReadFields(info, lines[i..], AirportField, " dBm")
    {
      assert lines[i..][1..] == lines[i + 1..];
      var line := lines[i];
      if Contains(line, " SSID:") {
        var v := FieldValue(line);
        if v.None? { return None; }
        info := info.(ssid := v);
      } else if Contains(line, "BSSID:") {
        var v := FieldValue(line);
        if v.None? { return None; }
        info := info.(bssid := v);
      } else if Contains(line, "agrCtlRSSI:") {
        var v := FieldValue(line);
        if v.None? { return None; }
        info := info.(signal := Some(v.value + " dBm"));
      } else if Contains(line, "link auth:") {
        var v := FieldValue(line);
        if v.None? { return None; }
        info := info.(encryption := v);
      }
      i := i + 1;
    }
    r := Some(info);
  }

  /** Line k is the last line that sets key f. */
  predicate LastSetter(lines: seq<string>, fieldOf: string -> Option<Field>, f: Field, k: int) {
    0 <= k < |lines| && fieldOf(lines[k]) == Some(f)
    && forall j | k < j < |lines| :: fieldOf(lines[j]) != Some(f)
  }

  /** A key that no line sets keeps the value it had. */
  lemma {:induction false} ReadFieldsUntouched(info: Info, lines: seq<string>, fieldOf: string -> Option<Field>, suffix: string, f: Field)
    requires ReadFields(info, lines, fieldOf, suffix).Some?
    requires forall j | 0 <= j < |lines| :: fieldOf(lines[j]) != Some(f)
    ensures Get(ReadFields(info, lines, fieldOf, suffix).value, f) == Get(info, f)
    decreases |lines|
  {
    if lines != [] {
      assert fieldOf(lines[0]) != Some(f);
      assert forall j | 0 <= j < |lines| - 1 :: lines[1..][j] == lines[j + 1];
      match fieldOf(lines[0])
      case None => ReadFieldsUntouched(info, lines[1..], fieldOf, suffix, f);
      case Some(g) =>
        var v := FieldValue(lines[0]).value;
        ReadFieldsUntouched(Set(info, g, Stored(g, v, suffix)), lines[1..], fieldOf, suffix, f);
    }
  }

  /** Every key holds the value of the LAST line that sets it: a later line
      overwrites an earlier one. */
  lemma {:induction false} ReadFieldsLastWins(info: Info, lines: seq<string>, fieldOf: string -> Option<Field>, suffix: string, f: Field, k: int)
    requires ReadFields(info, lines, fieldOf, suffix).Some?
    requires LastSetter(lines, fieldOf, f, k)
    ensures FieldValue(lines[k]).Some?
    ensures Get(ReadFields(info, lines, fieldOf, suffix).value, f) == Some(Stored(f, FieldValue(lines[k]).value, suffix))
    decreases |lines|
  {
    assert forall j | 0 <= j < |lines| - 1 :: lines[1..][j] == lines[j + 1];
    match fieldOf(lines[0])
    case None =>
      assert LastSetter(lines[1..], fieldOf, f, k - 1);
      ReadFieldsLastWins(info, lines[1..], fieldOf, suffix, f, k - 1);
    case Some(g) =>
      var v := FieldValue(lines[0]).value;
      var info' := Set(info, g, Stored(g, v, suffix));
      if k == 0 {
        ReadFieldsUntouched(info', lines[1..], fieldOf, suffix, f);
      } else {
        assert LastSetter(lines[1..], fieldOf, f, k - 1);
        ReadFieldsLastWins(info', lines[1..], fieldOf, suffix, f, k - 1);
      }
  }

  /** The loop raises exactly when some line that sets a key has no ':'. */
  lemma {:induction false} ReadFieldsFails(info: Info, lines: seq<string>, fieldOf: string -> Option<Field>, suffix: string)
    ensures ReadFields(info, lines, fieldOf, suffix).None? <==>
      exists k | 0 <= k < |lines| :: fieldOf(lines[k]).Some? && ':' !in lines[k]
    decreases |lines|
  {
    if lines != [] {
      AfterFirstPresent(lines[0], ':');
      assert forall j | 0 <= j < |lines| - 1 :: lines[1..][j] == lines[j + 1];
      match fieldOf(lines[0])
      case None => ReadFieldsFails(info, lines[1..], fieldOf, suffix);
      case Some(g) =>
        if ':' in lines[0] {
          var v := FieldValue(lines[0]).value;
          ReadFieldsFails(Set(info, g, Stored(g, v, suffix)), lines[1..], fieldOf, suffix);
        }
    }
  }

  /** Every key the macOS branch looks for ends in ':', so that branch never
      raises. */
  lemma AirportNeverFails(lines: seq<string>)
    ensures ReadFields(NO_INFO, lines, AirportField, " dBm").Some?
  {
    ReadFieldsFails(NO_INFO, lines, AirportField, " dBm");
    forall k | 0 <= k < |lines| && AirportField(lines[k]).Some?
      ensures ':' in lines[k]
    {
      var line := lines[k];
      if Contains(line, " SSID:") {
        ContainsChar(line, " SSID:", 5);
      } else if Contains(line, "BSSID:") {
        ContainsChar(line, "BSSID:", 5);
      } else if Contains(line, "agrCtlRSSI:") {
        ContainsChar(line, "agrCtlRSSI:", 10);
      } else {
        ContainsChar(line, "link auth:", 9);
      }
    }
  }

  /** A value is split off at the FIRST ':' only, so the colons of a BSSID survive. */
  lemma ValueKeepsColons(key: string, value: string)
    requires ':' !in key
    ensures FieldValue(key + ":" + value) == Some(Strip(value))
  {
    AfterFirstOf(key, ':', value);
  }

  // =====================================================================
  // Linux: the first line of `nmcli -t` whose 'active' column is "yes"

  /** The first line that starts with "yes:". */
  function FirstActive(lines: seq<string>): Option<string>
    decreases |lines|
  {
    if lines == [] then None
    else if StartsWith(lines[0], "yes:") then Some(lines[0])
    else FirstActive(lines[1..])
  }

  /** The record built from an active line, `line.split(':')`; a line with
      fewer than four pieces raises IndexError. */
  function ActiveRecord(line: string): Connection {
    var parts := Split(line, ':');
    if |parts| < 4 then ConnectionError(INDEX_ERROR)
    else Connected(Info(Some(parts[1]), Some(parts[2]), Some(parts[3] + "%"),
      Some(if |parts| > 4 then parts[4] else "Unknown")))
  }

  /** The Linux branch's loop, which returns at the first active line. */
  method FindActive(lines: seq<string>) returns (r: Connection)
    ensures r == match FirstActive(lines)
      case None => ConnectionError(NOT_CONNECTED)
      case Some(line) => ActiveRecord(line)
  {
    var i := 0;
    while i < |lines|
      invariant 0 <= i <= |lines|
      invariant FirstActive(lines) == FirstActive(lines[i..])
    {
      assert lines[i..][1..] == lines[i + 1..];
      if StartsWith(lines[i], "yes:") {
        var parts := Split(lines[i], ':');
        if |parts| < 4 {
          return ConnectionError(INDEX_ERROR);
        }
        return Connected(Info(Some(parts[1]), Some(parts[2]), Some(parts[3] + "%"),
          Some(if |parts| > 4 then parts[4] else "Unknown")));
      }
      i := i + 1;
    }
    r := ConnectionError(NOT_CONNECTED);
  }

  /** The line chosen is the first active one; there is none exactly when no
      line is active. */
  lemma {:induction false} FirstActiveIsFirst(lines: seq<string>)
    ensures FirstActive(lines).None? <==> forall k | 0 <= k < |lines| :: !StartsWith(lines[k], "yes:")
    ensures FirstActive(lines).Some? ==> exists k | 0 <= k < |lines| ::
      lines[k] == FirstActive(lines).value && StartsWith(lines[k], "yes:")
      && forall j | 0 <= j < k :: !StartsWith(lines[j], "yes:")
    decreases |lines|
  {
    if lines != [] {
      assert forall j | 0 <= j < |lines| - 1 :: lines[1..][j] == lines[j + 1];
      if !StartsWith(lines[0], "yes:") {
        FirstActiveIsFirst(lines[1..]);
        if FirstActive(lines).Some? {
          var k :| 0 <= k < |lines[1..]| && lines[1..][k] == FirstActive(lines).value
            && StartsWith(lines[1..][k], "yes:")
            && forall j | 0 <= j < k :: !StartsWith(lines[1..][j], "yes:");
          assert lines[k + 1] == FirstActive(lines).value;
          assert forall j | 0 <= j < k + 1 :: !StartsWith(lines[j], "yes:") by {
            forall j | 0 <= j < k + 1 ensures !StartsWith(lines[j], "yes:") {
              if j > 0 {
                assert lines[j] == lines[1..][j - 1];
              }
            }
          }
        }
      } else {
        assert lines[0] == FirstActive(lines).value;
      }
    }
  }

  /** An active line whose columns contain no ':' gives the SSID, the BSSID,
      the signal with "%" added and the security ("Unknown" when that column
      is missing); fewer than three columns after "yes" raise IndexError. */
  lemma ActiveColumns(cols: seq<string>)
    requires forall k | 0 <= k < |cols| :: ':' !in cols[k]
    ensures ActiveRecord(Join(["yes"] + cols, ":")) ==
      if |cols| < 3 then ConnectionError(INDEX_ERROR)
      else Connected(Info(Some(cols[0]), Some(cols[1]), Some(cols[2] + "%"),
        Some(if |cols| > 3 then cols[3] else "Unknown")))
  {
    var parts := ["yes"] + cols;
    assert forall k | 0 <= k < |parts| :: ':' !in parts[k] by {
      forall k | 0 <= k < |parts| ensures ':' !in parts[k] {
        if k > 0 {
          assert parts[k] == cols[k - 1];
        }
      }
    }
    SplitJoin(parts, ':');
    assert Split(Join(parts, ":"), ':') == parts;
    if |cols| >= 3 {
      assert parts[1] == cols[0] && parts[2] == cols[1] && parts[3] == cols[2];
      assert |cols| > 3 ==> parts[4] == cols[3];
    }
  }

  // =====================================================================
  // The whole method

  /** What an outcome of the loops becomes: a raised IndexError is caught and
      its text returned. */
  function FromFields(read: Option<Info>): Connection {
    match read
    case None => ConnectionError(INDEX_ERROR)
    case Some(info) => Connected(info)
  }

  /** `get_connected_network()` as a function of the system and the outcome of
      its command; a failed command's exception is caught and its text returned. */
  function ConnectionOf(system: System, cmd: Command): Connection {
    if system.OtherSystem? then NoAnswer
    else if !cmd.Ran? then ConnectionError(cmd.ErrorText())
    else
      var lines := Split(cmd.output, '\n');
      match system
      case Windows => FromFields(ReadFields(NO_INFO, lines, InterfacesField, ""))
      case Darwin => FromFields(ReadFields(NO_INFO, lines, AirportField, " dBm"))
      case Linux =>
        match FirstActive(lines)
        case None => ConnectionError(NOT_CONNECTED)
        case Some(line) => ActiveRecord(line)
  }

  /** `get_connected_network()` */
  method GetConnectedNetwork(system: System, cmd: Command) returns (r: Connection)
    ensures r == ConnectionOf(system, cmd)
  {
    if system.OtherSystem? {
      return NoAnswer;
    }
    if !cmd.Ran? {
      return ConnectionError(cmd.ErrorText());
    }
    var lines := Split(cmd.output, '\n');
    match system
    case Windows =>
      var read := ReadInterfaces(lines);
      r := FromFields(read);
    case Darwin =>
      var read := ReadAirportInfo(lines);
      r := FromFields(read);
    case Linux =>
      r := FindActive(lines);
  }

  /** Only the Windows branch can fail on the command's text: macOS never
      raises, and Linux raises only on an active line with too few columns. */
  lemma ConnectionErrors(system: System, cmd: Command)
    requires cmd.Ran? && ConnectionOf(system, cmd).ConnectionError?
    ensures system == Windows || system == Linux
    ensures system == Windows ==> ConnectionOf(system, cmd).message == INDEX_ERROR
    ensures system == Linux ==> ConnectionOf(system, cmd).message in {INDEX_ERROR, NOT_CONNECTED}
  {
    AirportNeverFails(Split(cmd.output, '\n'));
  }

  // =====================================================================
  // nmcli's terse mode escapes ':' inside values

  /** nmcli's terse output writes '\' before every ':' and '\' inside a value,
      so that ':' separates columns only. */
  function Escape(value: string): string
    decreases |value|
  {
    if value == [] then [] else EscapeChar(value[0]) + Escape(value[1..])
  }

  function EscapeChar(c: char): string {
    if c == ':' || c == '\\' then ['\\', c] else [c]
  }

  /** Each value escaped on its own. */
  function EscapeAll(values: seq<string>): seq<string> {
    seq(|values|, k requires 0 <= k < |values| => Escape(values[k]))
  }

  /** Text without ':' or '\', which terse mode prints as it is. */
  predicate Plain(v: string) {
    ':' !in v && '\\' !in v
  }

  lemma {:induction false} EscapePlain(v: string)
    requires Plain(v)
    ensures Escape(v) == v
    decreases |v|
  {
    if v != [] {
      EscapePlain(v[1..]);
      assert v == [v[0]] + v[1..];
    }
  }

  lemma {:induction false} EscapeAppend(a: string, b: string)
    ensures Escape(a + b) == Escape(a) + Escape(b)
    decreases |a|
  {
    if a == [] {
      assert a + b == b;
    } else {
      assert (a + b)[0] == a[0] && (a + b)[1..] == a[1..] + b;
      EscapeAppend(a[1..], b);
    }
  }

  /** Splitting at every ':' cuts an escaped BSSID apart. A connection whose
      BSSID is `o1:o2:rest` (for instance SSID "Home", BSSID
      `AA:BB:CC:DD:EE:FF`, signal "80", security "WPA2", printed as
      `yes:Home:AA\:BB\:CC\:DD\:EE\:FF:80:WPA2`) is reported with the BSSID
      `o1\` and the signal `o2\%`. */
  lemma ActiveRecordSplitsEscapedBssid(ssid: string, o1: string, o2: string, rest: string, signal: string, security: string)
    requires Plain(ssid) && Plain(o1) && Plain(o2)
    ensures var bssid := o1 + ":" + o2 + ":" + rest;
      var record := ActiveRecord(Join(EscapeAll(["yes", ssid, bssid, signal, security]), ":"));
      record.Connected? && record.info.bssid == Some(o1 + "\\") && record.info.bssid != Some(bssid)
      && record.info.signal == Some(o2 + "\\%")
  {
    var bssid := o1 + ":" + o2 + ":" + rest;
    var tail := Escape(rest) + ":" + Escape(signal) + ":" + Escape(security);
    EscapedLineLayout(ssid, o1, o2, rest, signal, security);
    assert ':' !in o1 + "\\" && ':' !in o2 + "\\";
    var parts := SplitFour("yes", ssid, o1 + "\\", o2 + "\\", tail);
    assert parts[3] + "%" == o2 + "\\%";
    assert bssid[|o1|] == ':';
  }

  lemma EscapedLineLayout(ssid: string, o1: string, o2: string, rest: string, signal: string, security: string)
    requires Plain(ssid) && Plain(o1) && Plain(o2)
    ensures Join(EscapeAll(["yes", ssid, o1 + ":" + o2 + ":" + rest, signal, security]), ":")
      == "yes" + [':'] + (ssid + [':'] + ((o1 + "\\") + [':'] + ((o2 + "\\") + [':'] + (Escape(rest) + ":" + Escape(signal) + ":" + Escape(security)))))
  {
    var bssid := o1 + ":" + o2 + ":" + rest;
    EscapedBssidLayout(o1, o2, rest);
    FiveColumns("yes", ssid, bssid, signal, security);
    assert Escape("yes") == "yes";
    EscapePlain(ssid);
    Regroup("yes", ssid, Escape(bssid), o1, o2, Escape(rest), Escape(signal), Escape(security));
  }

  /** Four pieces without ':' split off one by one. */
  lemma SplitFour(p0: string, p1: string, p2: string, p3: string, tail: string) returns (parts: seq<string>)
    requires ':' !in p0 && ':' !in p1 && ':' !in p2 && ':' !in p3
    ensures parts == Split(p0 + [':'] + (p1 + [':'] + (p2 + [':'] + (p3 + [':'] + tail))), ':')
    ensures |parts| >= 5 && parts[1] == p1 && parts[2] == p2 && parts[3] == p3
  {
    var t3 := p3 + [':'] + tail;
    var t2 := p2 + [':'] + t3;
    var t1 := p1 + [':'] + t2;
    SplitFirst(p3, ':', tail);
    SplitFirst(p2, ':', t3);
    SplitFirst(p1, ':', t2);
    SplitFirst(p0, ':', t1);
    parts := [p0] + ([p1] + ([p2] + ([p3] + Split(tail, ':'))));
  }

  lemma Regroup(y: string, s: string, b: string, o1: string, o2: string, r: string, g: string, c: string)
    requires b == o1 + "\\:" + o2 + "\\:" + r
    ensures y + ":" + s + ":" + b + ":" + g + ":" + c
      == y + [':'] + (s + [':'] + ((o1 + "\\") + [':'] + ((o2 + "\\") + [':'] + (r + ":" + g + ":" + c))))
  {
    assert "\\:" == "\\" + [':'];
  }

  lemma EscapedBssidLayout(o1: string, o2: string, rest: string)
    requires Plain(o1) && Plain(o2)
    ensures Escape(o1 + ":" + o2 + ":" + rest) == o1 + "\\:" + o2 + "\\:" + Escape(rest)
  {
    assert Escape(":") == "\\:";
    EscapePlain(o1);
    EscapePlain(o2);
    EscapeAppend(o1, ":");
    EscapeAppend(o1 + ":", o2);
    EscapeAppend(o1 + ":" + o2, ":");
    EscapeAppend(o1 + ":" + o2 + ":", rest);
  }

  lemma FiveColumns(a: string, b: string, c: string, d: string, e: string)
    ensures Join(EscapeAll([a, b, c, d, e]), ":")
      == Escape(a) + ":" + Escape(b) + ":" + Escape(c) + ":" + Escape(d) + ":" + Escape(e)
  {
    var escaped := EscapeAll([a, b, c, d, e]);
    assert escaped == [Escape(a), Escape(b), Escape(c), Escape(d), Escape(e)];
    JoinFive(Escape(a), Escape(b), Escape(c), Escape(d), Escape(e));
  }

  lemma JoinFive(a: string, b: string, c: string, d: string, e: string)
    ensures Join([a, b, c, d, e], ":") == a + ":" + b + ":" + c + ":" + d + ":" + e
  {
    var p := [a, b, c, d, e];
    JoinCons(p, ":");
    JoinCons(p[1..], ":");
    JoinCons(p[2..], ":");
    JoinCons(p[3..], ":");
    assert p[1..][1..] == p[2..];
    assert p[2..][1..] == p[3..];
    assert p[3..][1..] == [e];
  }

  /** Terse columns: a '\' takes the next character literally, and an
      unescaped ':' ends a column. `column` is the column read so far. */
  function TerseColumns(s: string, column: string): seq<string>
    decreases |s|
  {
    if s == [] then [column]
    else if s[0] == '\\' && |s| >= 2 then TerseColumns(s[2..], column + [s[1]])
    else if s[0] == ':' then [column] + TerseColumns(s[1..], "")
    else TerseColumns(s[1..], column + [s[0]])
  }

  /** An escaped value is read back whole, whatever follows it. */
  lemma {:induction false} TerseReadsEscaped(value: string, column: string, rest: string)
    ensures TerseColumns(Escape(value) + rest, column) == TerseColumns(rest, column + value)
    decreases |value|
  {
    if value == [] {
      assert column + value == column;
      assert Escape(value) + rest == rest;
    } else {
      var c := value[0];
      var after := Escape(value[1..]) + rest;
      assert Escape(value) + rest == EscapeChar(c) + after;
      TerseReadsChar(c, after, column);
      TerseReadsEscaped(value[1..], column + [c], rest);
      assert column + [c] + value[1..] == column + value;
    }
  }

  /** One escaped character is read back as itself. */
  lemma TerseReadsChar(c: char, after: string, column: string)
    ensures TerseColumns(EscapeChar(c) + after, column) == TerseColumns(after, column + [c])
  {
    var s := EscapeChar(c) + after;
    if c == ':' || c == '\\' {
      assert s[0] == '\\' && s[1] == c && s[2..] == after;
    } else {
      assert s[0] == c && s[1..] == after;
    }
  }

  /** Reading the terse columns of escaped values joined by ':' gives back the
      values, whatever characters they hold. */
  lemma {:induction false} TerseRoundTrip(values: seq<string>)
    requires |values| >= 1
    ensures TerseColumns(Join(EscapeAll(values), ":"), "") == values
    decreases |values|
  {
    var escaped := EscapeAll(values);
    if |values| == 1 {
      TerseReadsEscaped(values[0], "", "");
      assert Escape(values[0]) + "" == Escape(values[0]);
      assert "" + values[0] == values[0];
    } else {
      var tail := Join(EscapeAll(values[1..]), ":");
      assert EscapeAll(values)[1..] == EscapeAll(values[1..]);
      assert Join(escaped, ":") == Escape(values[0]) + (":" + tail);
      TerseReadsEscaped(values[0], "", ":" + tail);
      assert "" + values[0] == values[0];
      TerseRoundTrip(values[1..]);
      assert values == [values[0]] + values[1..];
    }
  }

  /** The record built from an active line read as terse columns. */
  function TerseActiveRecord(line: string): Connection {
    var parts := TerseColumns(line, "");
    if |parts| < 4 then ConnectionError(INDEX_ERROR)
    else Connected(Info(Some(parts[1]), Some(parts[2]), Some(parts[3] + "%"),
      Some(if |parts| > 4 then parts[4] else "Unknown")))
  }

  /** Read as terse columns, an active line gives back the connection's own
      SSID, BSSID, signal and security, colons included. */
  lemma TerseActiveRecordFaithful(ssid: string, bssid: string, signal: string, security: string)
    ensures TerseActiveRecord(Join(EscapeAll(["yes", ssid, bssid, signal, security]), ":"))
      == Connected(Info(Some(ssid), Some(bssid), Some(signal + "%"), Some(security)))
  {
    TerseRoundTrip(["yes", ssid, bssid, signal, security]);
  }
}
