/** `NetworkScanner.get_gateway`: the default gateway, read from `ipconfig`
    (Windows) or `ip route` (any other system). The first line that yields a
    gateway decides; without one, and when the command fails, the answer is
    "Unable to determine". */
module Gateway {

  import opened Wrappers
  import opened PyStr
  import opened Host

  const UNDETERMINED := "Unable to determine"

  /** The gateway an `ipconfig` line gives: on a "Default Gateway" line, the
      stripped text after its LAST ':' (`line.split(":")[-1].strip()`), when
      that is not empty. */
  function IpconfigGateway(line: string): Option<string> {
    if Contains(line, "Default Gateway") then
      var gateway := Strip(AfterLast(line, ':'));
      if gateway != "" then Some(gateway) else None
    else None
  }

  /** The gateway an `ip route` line gives: on a line containing "default",
      its third whitespace-separated column, when there is one. */
  function RouteGateway(line: string): Option<string> {
    if Contains(line, "default") then
      var parts := Words(line);
      if |parts| >= 3 then Some(parts[2]) else None
    else None
  }

  /** The first line that gives a gateway. */
  function FirstGateway(lines: seq<string>, gatewayIn: string -> Option<string>): Option<string>
    decreases |lines|
  {
    if lines == [] then None
    else if gatewayIn(lines[0]).Some? then gatewayIn(lines[0])
    else FirstGateway(lines[1..], gatewayIn)
  }

  /** The reader for the system's command. */
  function ReaderFor(system: System): string -> Option<string> {
    if system == Windows then IpconfigGateway else RouteGateway
  }

  /** `get_gateway()` as a function of the system and its command's outcome;
      any exception is swallowed. */
  function GatewayOf(system: System, cmd: Command): string {
    if !cmd.Ran? then UNDETERMINED
    else FirstGateway(Split(cmd.output, '\n'), ReaderFor(system)).GetOr(UNDETERMINED)
  }

  /** `get_gateway()`: the loop returns at the first line that gives a gateway. */
  method GetGateway(system: System, cmd: Command) returns (gateway: string)
    ensures gateway == GatewayOf(system, cmd)
  {
    if !cmd.Ran? {
      return UNDETERMINED;
    }
    var lines := Split(cmd.output, '\n');
    var i := 0;
    while i < |lines|
      invariant 0 <= i <= |lines|
      invariant FirstGateway(lines, ReaderFor(system)) == FirstGateway(lines[i..], ReaderFor(system))
    {
      assert lines[i..][1..] == lines[i + 1..];
      var line := lines[i];
      if system == Windows {
        if Contains(line, "Default Gateway") {
          var candidate := Strip(AfterLast(line, ':'));
          if candidate != "" {
            return candidate;
          }
        }
      } else {
        if Contains(line, "default") {
          var parts := Words(line);
          if |parts| >= 3 {
            return parts[2];
          }
        }
      }
      i := i + 1;
    }
    gateway := UNDETERMINED;
  }

  /** The gateway found is given by some line, and no earlier line gives one;
      none is found exactly when no line gives one. */
  lemma {:induction false} FirstGatewayIsFirst(lines: seq<string>, gatewayIn: string -> Option<string>)
    ensures FirstGateway(lines, gatewayIn).None? <==> forall k | 0 <= k < |lines| :: gatewayIn(lines[k]).None?
    ensures FirstGateway(lines, gatewayIn).Some? ==> exists k | 0 <= k < |lines| ::
      gatewayIn(lines[k]) == FirstGateway(lines, gatewayIn)
      && forall j | 0 <= j < k :: gatewayIn(lines[j]).None?
    decreases |lines|
  {
    if lines != [] {
      assert forall j | 0 <= j < |lines| - 1 :: lines[1..][j] == lines[j + 1];
      if gatewayIn(lines[0]).None? {
        FirstGatewayIsFirst(lines[1..], gatewayIn);
        if FirstGateway(lines, gatewayIn).Some? {
          var k :| 0 <= k < |lines[1..]| && gatewayIn(lines[1..][k]) == FirstGateway(lines, gatewayIn)
            && forall j | 0 <= j < k :: gatewayIn(lines[1..][j]).None?;
          assert gatewayIn(lines[k + 1]) == FirstGateway(lines, gatewayIn);
          assert forall j | 0 <= j < k + 1 :: gatewayIn(lines[j]).None? by {
            forall j | 0 <= j < k + 1 ensures gatewayIn(lines[j]).None? {
              if j > 0 {
                assert lines[j] == lines[1..][j - 1];
              }
            }
          }
        }
      } else {
        assert gatewayIn(lines[0]) == FirstGateway(lines, gatewayIn);
      }
    }
  }

  /** A Windows gateway is non-empty, holds no ':' and has no surrounding
      whitespace; it comes from a "Default Gateway" line. */
  lemma IpconfigGatewayShape(line: string)
    requires IpconfigGateway(line).Some?
    ensures var g := IpconfigGateway(line).value;
      g != "" && ':' !in g && !IsSpace(g[0]) && !IsSpace(g[|g| - 1])
      && Contains(line, "Default Gateway")
  {
    var tail := AfterLast(line, ':');
    var parts := Split(line, ':');
    assert ':' !in tail;
    StripTrimmed(tail);
    StripKeepsChars(tail, ':');
  }

  /** A "Default Gateway" line whose text after the last ':' is an address
      gives that address, stripped. */
  lemma IpconfigGatewayOf(key: string, address: string)
    requires Contains(key + ":" + address, "Default Gateway")
    requires ':' !in address && Strip(address) != ""
    ensures IpconfigGateway(key + ":" + address) == Some(Strip(address))
  {
    AfterLastOf(key, ':', address);
  }

  /** An `ip route` line laid out as columns `ws` with any whitespace around
      and between them gives its third column when one of the columns is
      "default" and there are at least three, and nothing when there are fewer
      than three. */
  lemma RouteGatewayColumns(ws: seq<string>, gaps: seq<string>)
    requires |gaps| == |ws| + 1
    requires forall k | 0 <= k < |ws| :: IsToken(ws[k])
    requires forall k | 0 <= k < |gaps| :: AllSpace(gaps[k])
    requires forall k | 0 < k < |ws| :: gaps[k] != []
    ensures |ws| >= 3 && "default" in ws ==> RouteGateway(Padded(ws, gaps)) == Some(ws[2])
    ensures |ws| < 3 ==> RouteGateway(Padded(ws, gaps)) == None
  {
    WordsPadded(ws, gaps);
    if "default" in ws {
      var k :| 0 <= k < |ws| && ws[k] == "default";
      PaddedContains(ws, gaps, k);
    }
  }

  /** The answer is never empty: a gateway found is a non-empty column or value. */
  lemma GatewayNeverEmpty(system: System, cmd: Command)
    ensures GatewayOf(system, cmd) != ""
  {
    if cmd.Ran? {
      var lines := Split(cmd.output, '\n');
      var found := FirstGateway(lines, ReaderFor(system));
      FirstGatewayIsFirst(lines, ReaderFor(system));
      if found.Some? {
        var k :| 0 <= k < |lines| && ReaderFor(system)(lines[k]) == found
          && forall j | 0 <= j < k :: ReaderFor(system)(lines[j]).None?;
        if system != Windows {
          assert IsToken(Words(lines[k])[2]);
        }
      }
    }
  }

  // ---------------------------------------------------------------------
  // An IPv6 gateway

  /** ipconfig prints an IPv6 gateway such as `fe80::1%11` after the label's
      ':'; taking the text after the LAST ':' keeps only the address's last
      group: the gateway reported is `1%11`. */
  lemma IpconfigGatewayCutsIpv6(key: string, head: string, last: string)
    requires Contains(key, "Default Gateway") && ':' !in key
    requires ':' !in last && Strip(last) != ""
    ensures var address := head + ":" + last;
      IpconfigGateway(key + ":" + address) == Some(Strip(last))
  {
    var address := head + ":" + last;
    var line := key + ":" + address;
    assert line == key + (":" + address);
    ContainsWithin(key, ":" + address, "Default Gateway");
    assert line == (key + ":" + head) + [':'] + last;
    AfterLastOf(key + ":" + head, ':', last);
  }

  /** What a text contains, a longer text starting with it contains too. */
  lemma ContainsWithin(s: string, rest: string, sub: string)
    requires Contains(s, sub)
    ensures Contains(s + rest, sub)
  {
    var i :| 0 <= i <= |s| - |sub| && OccursAt(s, sub, i);
    assert (s + rest)[i..i + |sub|] == s[i..i + |sub|];
    assert OccursAt(s + rest, sub, i);
  }

  /** The gateway read as the whole value after the label's ':'
      (`line.split(":", 1)[1].strip()`). */
  function IpconfigGatewayValue(line: string): Option<string> {
    if Contains(line, "Default Gateway") then
      match FieldValue(line)
      case None => None
      case Some(gateway) => if gateway != "" then Some(gateway) else None
    else None
  }

  /** Read that way, a "Default Gateway" line gives its whole address, IPv6
      colons included. */
  lemma IpconfigGatewayValueKeepsAddress(key: string, address: string)
    requires Contains(key, "Default Gateway") && ':' !in key
    requires Strip(address) != ""
    ensures IpconfigGatewayValue(key + ":" + address) == Some(Strip(address))
  {
    var line := key + ":" + address;
    assert line == key + (":" + address);
    ContainsWithin(key, ":" + address, "Default Gateway");
    assert line == key + [':'] + address;
    AfterFirstOf(key, ':', address);
  }
}
