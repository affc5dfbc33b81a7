/**
 * The lookup tables and text helpers the GUI uses to show scan results (utils.py): port
 * descriptions, status colours and elapsed-time text.
 */
module Display {
  import opened Wrappers
  import opened Text
  import Scanner

  /** The description table of `get_port_description`. */
  function WellKnownPorts(): map<int, string> {
    map[
      21 := "FTP", 22 := "SSH", 23 := "Telnet", 25 := "SMTP", 53 := "DNS", 80 := "HTTP",
      110 := "POP3", 111 := "RPC", 135 := "RPC Endpoint", 139 := "NetBIOS", 143 := "IMAP",
      443 := "HTTPS", 993 := "IMAPS", 995 := "POP3S", 1723 := "PPTP", 3306 := "MySQL",
      3389 := "RDP", 5432 := "PostgreSQL", 5900 := "VNC", 8080 := "HTTP Proxy",
      8443 := "HTTPS Alt", 8888 := "HTTP Alt", 9090 := "HTTP Alt"
    ]
  }

  /** The prefix of the fallback description. */
  const PortPrefix := "Port "

  /** `get_port_description(port)`: the table entry, or `"Port <n>"` for a port not in the table. */
  function PortDescription(port: int): (d: string)
    ensures port in WellKnownPorts() ==> d == WellKnownPorts()[port]
    ensures port !in WellKnownPorts() ==> d == PortPrefix + IntToDecimal(port)
  {
    if port in WellKnownPorts() then WellKnownPorts()[port] else PortPrefix + IntToDecimal(port)
  }

  /** No name in the table looks like a fallback description. */
  lemma TableNamesAreNotFallbacks(port: int)
    requires port in WellKnownPorts()
    ensures !(|WellKnownPorts()[port]| >= |PortPrefix| && WellKnownPorts()[port][..|PortPrefix|] == PortPrefix)
  {
    var name := WellKnownPorts()[port];
    assert |name| < |PortPrefix| || name[1] != 'o' || name[2] != 'r';
  }

  /**
   * A description starts with `"Port "` exactly when the port is not in the table, and then the
   * rest of it reads back as the port number.
   */
  lemma DescriptionNamesUnknownPort(port: int)
    ensures var d := PortDescription(port);
      (|d| >= |PortPrefix| && d[..|PortPrefix|] == PortPrefix) <==> port !in WellKnownPorts()
    ensures port !in WellKnownPorts() ==> ParseInt(PortDescription(port)[|PortPrefix|..]) == Some(port)
  {
    if port in WellKnownPorts() {
      TableNamesAreNotFallbacks(port);
    } else {
      var d := PortDescription(port);
      assert d[..|PortPrefix|] == PortPrefix;
      assert d[|PortPrefix|..] == IntToDecimal(port);
      ParseIntOfDecimal(port);
    }
  }

  /** Every common port has a named entry in the description table, and the table has no others. */
  lemma CommonPortsDescribed()
    ensures forall i :: 0 <= i < |Scanner.CommonPorts()| ==> Scanner.CommonPorts()[i] in WellKnownPorts()
    ensures forall p :: p in WellKnownPorts() ==> p in Scanner.CommonPorts()
  {
  }

  // ---------------------------------------------------------------------------
  // get_status_color
  // ---------------------------------------------------------------------------

  const DefaultColor := "#000000"

  /** The colour table of `get_status_color`. */
  function StatusColors(): map<string, string> {
    map[
      Scanner.StatusOpen := "#4CAF50",
      Scanner.StatusClosed := "#9E9E9E",
      Scanner.StatusTimeout := "#FF9800",
      Scanner.StatusError := "#F44336"
    ]
  }

  /** `get_status_color(status)`: the mapped colour, black for any other status. */
  function StatusColor(status: string): (c: string)
    ensures status in StatusColors() ==> c == StatusColors()[status]
    ensures status !in StatusColors() ==> c == DefaultColor
  {
    if status in StatusColors() then StatusColors()[status] else DefaultColor
  }

  /**
   * The four statuses a probe can report get four different colours, none of them the default;
   * every other status gets the default.
   */
  lemma StatusColorsDistinct(s: string, t: string)
    ensures s in StatusColors() <==> s in {Scanner.StatusOpen, Scanner.StatusClosed, Scanner.StatusTimeout, Scanner.StatusError}
    ensures s in StatusColors() ==> StatusColor(s) != DefaultColor
    ensures s in StatusColors() && t in StatusColors() && s != t ==> StatusColor(s) != StatusColor(t)
  {
  }

  /** Every probe result is shown in one of the four colours, never the default. */
  lemma ProbeResultsAreColoured(port: int, outcome: Scanner.ConnectOutcome)
    ensures StatusColor(Scanner.ScanPort(port, outcome).status) != DefaultColor
  {
    StatusColorsDistinct(Scanner.ScanPort(port, outcome).status, Scanner.StatusOpen);
  }

  // ---------------------------------------------------------------------------
  // format_time
  // ---------------------------------------------------------------------------

  const NotAvailable := "N/A"
  const MillisSuffix := "ms"

  /**
   * `format_time(milliseconds)`: `"N/A"` for `None`, `"<n>ms"` below one second. `None` is
   * returned for one second or more, whose floating-point rendering is not modelled.
   */
  function FormatTime(milliseconds: Option<int>): (r: Option<string>)
    ensures milliseconds.None? ==> r == Some(NotAvailable)
    ensures milliseconds.Some? ==> (r.Some? <==> milliseconds.value < 1000)
  {
    match milliseconds
    case None => Some(NotAvailable)
    case Some(ms) => if ms < 1000 then Some(IntToDecimal(ms) + MillisSuffix) else None
  }

  /**
   * Below one second the text is a number followed by `"ms"`, and the number reads back as the
   * time it was made from.
   */
  lemma FormatTimeReadsBack(ms: int)
    requires ms < 1000
    ensures var t := FormatTime(Some(ms)).value;
      && |t| > |MillisSuffix|
      && t[|t| - |MillisSuffix|..] == MillisSuffix
      && ParseInt(t[..|t| - |MillisSuffix|]) == Some(ms)
  {
    var t := FormatTime(Some(ms)).value;
    assert t[..|t| - |MillisSuffix|] == IntToDecimal(ms);
    ParseIntOfDecimal(ms);
  }

  /** `"N/A"` is not the rendering of any time. */
  lemma NotAvailableIsNoTime(ms: int)
    requires ms < 1000
    ensures FormatTime(Some(ms)) != Some(NotAvailable)
  {
    FormatTimeReadsBack(ms);
    var t := FormatTime(Some(ms)).value;
    assert t[|t| - 1] == t[|t| - |MillisSuffix|..][1] == 's';
  }
}
