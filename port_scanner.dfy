/**
 * The TCP port scanner: the `start-end` range argument, the probe of one
 * port, the per-port bookkeeping of `scan_port` (a counter and the list of
 * open ports) and the closing summary.  The socket is an oracle; the thread
 * pool's `map` is run one port at a time, in range order.
 */
module PortScanner {

  import opened Wrappers
  import opened Strings
  import PyInt

  /** `common_services`: the service name printed beside a well-known port. */
  const CommonServices: map<int, string> := map[
    21 := "FTP", 22 := "SSH", 23 := "Telnet", 25 := "SMTP", 53 := "DNS",
    80 := "HTTP", 110 := "POP3", 115 := "SFTP", 135 := "RPC", 139 := "NetBIOS",
    143 := "IMAP", 443 := "HTTPS", 445 := "SMB", 1433 := "MSSQL", 3306 := "MySQL",
    3389 := "RDP", 5432 := "PostgreSQL", 5900 := "VNC", 8080 := "HTTP-Proxy", 8443 := "HTTPS-Alt"
  ]

  /** `common_services.get(port, "Unknown")`. */
  function Service(port: int): (name: string)
    ensures port in CommonServices ==> name == CommonServices[port]
    ensures port !in CommonServices ==> name == "Unknown"
  {
    if port in CommonServices then CommonServices[port] else "Unknown"
  }

  /** No table entry reads "Unknown", so the label tells a listed port from an unlisted one. */
  lemma UnknownMeansUnlisted(port: int)
    ensures Service(port) == "Unknown" <==> port !in CommonServices
  {
    if port in CommonServices {
      assert CommonServices[port] != "Unknown";
    }
  }

  // ---------------------------------------------------------------------
  // The range argument
  // ---------------------------------------------------------------------

  /**
   * Lines 47-49: split at '-', `int` of the first part, and of the second
   * when there is one (a third part is ignored).  `None` is the `ValueError`
   * that ends the program when a part is not a number.
   */
  function ParsePortRange(spec: string): (r: Option<(int, int)>)
    ensures r.Some? ==> PyInt.ParseInt(Split(spec, '-')[0], 10) == Some(r.value.0)
    ensures r.Some? && |Split(spec, '-')| == 1 ==> r.value.1 == r.value.0
    ensures r.Some? && |Split(spec, '-')| > 1 ==> PyInt.ParseInt(Split(spec, '-')[1], 10) == Some(r.value.1)
    ensures r.None? <==>
      PyInt.ParseInt(Split(spec, '-')[0], 10).None? ||
      (|Split(spec, '-')| > 1 && PyInt.ParseInt(Split(spec, '-')[1], 10).None?)
  {
    var parts := Split(spec, '-');
    match PyInt.ParseInt(parts[0], 10)
    case None => None
    case Some(start) =>
      if |parts| > 1 then
        match PyInt.ParseInt(parts[1], 10)
        case None => None
        case Some(end) => Some((start, end))
      else Some((start, start))
  }

  /** `range(start, end + 1)`; its length is `total_ports`. */
  function Ports(start: int, end: int): (ports: seq<int>)
    ensures |ports| == if end < start then 0 else end - start + 1
    ensures forall k :: 0 <= k < |ports| ==> ports[k] == start + k
    decreases end - start
  {
    if end < start then [] else [start] + Ports(start + 1, end)
  }

  /** The range holds exactly the ports from `start` to `end`, both included. */
  lemma PortsMembers(start: int, end: int, p: int)
    ensures p in Ports(start, end) <==> start <= p <= end
  {
    if start <= p <= end {
      assert Ports(start, end)[p - start] == p;
    }
  }

  /** The ports of a range come in strictly ascending order. */
  predicate Ascending(s: seq<int>) {
    forall i, j :: 0 <= i < j < |s| ==> s[i] < s[j]
  }

  lemma PortsAscending(start: int, end: int)
    ensures Ascending(Ports(start, end))
  {
  }

  /** "a-b", both written in decimal, reads back as `a` to `b`. */
  lemma {:induction false} RangeRoundTrip(a: nat, b: nat)
    ensures ParsePortRange(DecimalString(a) + "-" + DecimalString(b)) == Some((a, b))
  {
    var da, db := DecimalString(a), DecimalString(b);
    NoDash(da);
    NoDash(db);
    assert Join([db], '-') == db;
    assert Join([da, db], '-') == da + "-" + db;
    SplitJoin([da, db], '-');
    PyInt.DecimalRoundTrip(a);
    PyInt.DecimalRoundTrip(b);
  }

  /** A single decimal port reads back as the one-port range. */
  lemma {:induction false} SinglePortRoundTrip(a: nat)
    ensures ParsePortRange(DecimalString(a)) == Some((a, a))
    ensures Ports(a, a) == [a]
  {
    var da := DecimalString(a);
    NoDash(da);
    assert Join([da], '-') == da;
    SplitJoin([da], '-');
    PyInt.DecimalRoundTrip(a);
  }

  lemma NoDash(d: string)
    requires forall k :: 0 <= k < |d| ==> '0' <= d[k] <= '9'
    ensures '-' !in d
  {
  }

  // ---------------------------------------------------------------------
  // One probe
  // ---------------------------------------------------------------------

  /** What the socket calls of `probe_port` end in: `connect_ex`'s return value, or an exception from any of them. */
  datatype Outcome = Returned(code: int) | Raised

  /** The socket oracle: creating the socket, setting the timeout and `connect_ex` to `(ip, port)`. */
  type Connect = (string, int) -> Outcome

  /** `probe_port` with its default `result = 1`: 0 exactly when `connect_ex` returned 0. */
  function ProbePort(connect: Connect, ip: string, port: int): (r: int)
    ensures r == 0 || r == 1
    ensures r == 0 <==> connect(ip, port) == Returned(0)
  {
    match connect(ip, port)
    case Returned(code) => if code == 0 then code else 1
    case Raised => 1
  }

  /** The ports among `ports` whose probe returned 0, in the order they were probed. */
  function OpenPorts(connect: Connect, ip: string, ports: seq<int>): (open: seq<int>)
    ensures |open| <= |ports|
  {
    if ports == [] then []
    else
      var last := ports[|ports| - 1];
      OpenPorts(connect, ip, ports[..|ports| - 1]) + if ProbePort(connect, ip, last) == 0 then [last] else []
  }

  /** A port is recorded as open exactly when it was scanned and its probe returned 0. */
  lemma {:induction false} OpenPortsMembers(connect: Connect, ip: string, ports: seq<int>, p: int)
    ensures p in OpenPorts(connect, ip, ports) <==> p in ports && ProbePort(connect, ip, p) == 0
  {
    if ports != [] {
      var init := ports[..|ports| - 1];
      OpenPortsMembers(connect, ip, init, p);
      assert ports == init + [ports[|ports| - 1]];
    }
  }

  /** Scanning ports in ascending order records the open ones in ascending order, so each at most once. */
  lemma {:induction false} OpenPortsAscending(connect: Connect, ip: string, ports: seq<int>)
    requires Ascending(ports)
    ensures Ascending(OpenPorts(connect, ip, ports))
  {
    if ports != [] {
      var init := ports[..|ports| - 1];
      var last := ports[|ports| - 1];
      OpenPortsAscending(connect, ip, init);
      var prev := OpenPorts(connect, ip, init);
      forall q | q in prev ensures q < last {
        OpenPortsMembers(connect, ip, init, q);
        var k :| 0 <= k < |init| && init[k] == q;
        assert ports[k] == q;
      }
      if ProbePort(connect, ip, last) == 0 {
        forall i, j | 0 <= i < j < |prev| + 1 ensures (prev + [last])[i] < (prev + [last])[j] {
          if j == |prev| {
            assert prev[i] in prev;
          }
        }
      }
    }
  }

  // ---------------------------------------------------------------------
  // Sorting and the summary
  // ---------------------------------------------------------------------

  predicate Sorted(s: seq<int>) {
    forall i, j :: 0 <= i < j < |s| ==> s[i] <= s[j]
  }

  function Insert(x: int, s: seq<int>): (r: seq<int>)
    ensures multiset(r) == multiset(s) + multiset{x}
  {
    if s == [] then [x]
    else if x <= s[0] then [x] + s
    else
      assert s == [s[0]] + s[1..];
      [s[0]] + Insert(x, s[1..])
  }

  lemma {:induction false} InsertSorted(x: int, s: seq<int>)
    requires Sorted(s)
    ensures Sorted(Insert(x, s))
  {
    if s != [] && x > s[0] {
      var t := s[1..];
      InsertSorted(x, t);
      var r := Insert(x, t);
      forall k | 0 <= k < |r| ensures s[0] <= r[k] {
        assert r[k] in multiset(r);
        assert r[k] in multiset(t) || r[k] == x;
        if r[k] != x {
          var m :| 0 <= m < |t| && t[m] == r[k];
          assert s[m + 1] == t[m];
        }
      }
    }
  }

  /** `list.sort()` on integers: ascending, same elements. */
  function Sort(s: seq<int>): (r: seq<int>)
    ensures Sorted(r)
    ensures multiset(r) == multiset(s)
  {
    if s == [] then []
    else
      assert s == [s[0]] + s[1..];
      InsertSorted(s[0], Sort(s[1..]));
      Insert(s[0], Sort(s[1..]))
  }

  /** Sorting an already ascending list leaves it as it is. */
  lemma {:induction false} SortAscending(s: seq<int>)
    requires Sorted(s)
    ensures Sort(s) == s
  {
    if s != [] {
      SortAscending(s[1..]);
      assert Sort(s[1..]) == s[1..];
      if |s| > 1 {
        assert s[0] <= s[1..][0];
      }
    }
  }

  /** What `main` prints after the scan. */
  datatype Summary =
    | NoOpenPorts
    | Listing(entries: seq<(int, string)>, total: nat)

  /** Lines 103-111 on the (sorted) list: one `port: service` line per port and the total, or the "none" line. */
  function Summarize(openPorts: seq<int>): (s: Summary)
    ensures s.NoOpenPorts? <==> openPorts == []
    ensures s.Listing? ==> s.total == |s.entries| == |openPorts|
    ensures s.Listing? ==> forall k :: 0 <= k < |s.entries| ==> s.entries[k] == (openPorts[k], Service(openPorts[k]))
  {
    if openPorts == [] then NoOpenPorts
    else Listing(seq(|openPorts|, k requires 0 <= k < |openPorts| => (openPorts[k], Service(openPorts[k]))), |openPorts|)
  }

  /** The open ports of a finished range scan, sorted. */
  function RangeOpenPorts(connect: Connect, ip: string, start: int, end: int): (r: seq<int>)
    ensures Sorted(r)
    ensures |r| <= |Ports(start, end)|
  {
    var open := OpenPorts(connect, ip, Ports(start, end));
    assert |Sort(open)| == |multiset(Sort(open))| == |multiset(open)| == |open|;
    Sort(open)
  }

  /**
   * After scanning `start..end` the sorted list holds exactly the ports of
   * the range whose probe returned 0, in strictly ascending order, so each
   * once.
   */
  lemma {:induction false} RangeOpenPortsExact(connect: Connect, ip: string, start: int, end: int, p: int)
    ensures Ascending(RangeOpenPorts(connect, ip, start, end))
    ensures p in RangeOpenPorts(connect, ip, start, end) <==> start <= p <= end && ProbePort(connect, ip, p) == 0
  {
    var open := OpenPorts(connect, ip, Ports(start, end));
    PortsAscending(start, end);
    OpenPortsAscending(connect, ip, Ports(start, end));
    SortAscending(open);
    OpenPortsMembers(connect, ip, Ports(start, end), p);
    PortsMembers(start, end, p);
  }

  /** "No open ports found." is printed exactly when no port of the range probed open. */
  lemma {:induction false} NoOpenPortsExact(connect: Connect, ip: string, start: int, end: int)
    ensures Summarize(RangeOpenPorts(connect, ip, start, end)).NoOpenPorts? <==>
      forall p :: start <= p <= end ==> ProbePort(connect, ip, p) != 0
  {
    var open := RangeOpenPorts(connect, ip, start, end);
    if open != [] {
      RangeOpenPortsExact(connect, ip, start, end, open[0]);
    } else {
      forall p | start <= p <= end ensures ProbePort(connect, ip, p) != 0 {
        RangeOpenPortsExact(connect, ip, start, end, p);
      }
    }
  }

  // ---------------------------------------------------------------------
  // The scanner's state
  // ---------------------------------------------------------------------

  /** The globals `scan_port` updates: `ports_scanned` and `open_ports`. */
  class Scanner {
    const ip: string
    const connect: Connect
    var portsScanned: nat
    var openPorts: seq<int>

    constructor(ip: string, connect: Connect)
      ensures this.ip == ip && this.connect == connect
      ensures portsScanned == 0 && openPorts == []
    {
      this.ip := ip;
      this.connect := connect;
      portsScanned := 0;
      openPorts := [];
    }

    /** `scan_port`: probe, count the port, and append it when the probe returned 0. */
    method ScanPort(port: int)
      modifies this
      ensures portsScanned == old(portsScanned) + 1
      ensures openPorts == old(openPorts) + if ProbePort(connect, ip, port) == 0 then [port] else []
    {
      var response := ProbePort(connect, ip, port);
      portsScanned := portsScanned + 1;
      if response == 0 {
        openPorts := openPorts + [port];
      }
    }

    /** `executor.map(scan_port, ports)`, one port after the other. */
    method ScanAll(ports: seq<int>)
      modifies this
      ensures portsScanned == old(portsScanned) + |ports|
      ensures openPorts == old(openPorts) + OpenPorts(connect, ip, ports)
    {
      for i := 0 to |ports|
        invariant portsScanned == old(portsScanned) + i
        invariant openPorts == old(openPorts) + OpenPorts(connect, ip, ports[..i])
      {
        assert ports[..i + 1][..i] == ports[..i];
        ScanPort(ports[i]);
      }
      assert ports[..|ports|] == ports;
    }

    /** `open_ports.sort()` followed by the summary. */
    method Report() returns (s: Summary)
      modifies this
      ensures portsScanned == old(portsScanned)
      ensures openPorts == Sort(old(openPorts))
      ensures s == Summarize(openPorts)
    {
      openPorts := Sort(openPorts);
      s := Summarize(openPorts);
    }
  }

  /**
   * `main` on a parsed range: scan every port of `start..end` with fresh
   * globals, then sort and summarise; `ports_scanned` ends equal to
   * `total_ports`.
   */
  method ScanRange(connect: Connect, ip: string, start: int, end: int) returns (summary: Summary, scanned: nat)
    ensures scanned == |Ports(start, end)|
    ensures summary == Summarize(RangeOpenPorts(connect, ip, start, end))
  {
    var scanner := new Scanner(ip, connect);
    var ports := Ports(start, end);
    scanner.ScanAll(ports);
    assert scanner.openPorts == OpenPorts(connect, ip, ports);
    summary := scanner.Report();
    scanned := scanner.portsScanned;
  }
}
