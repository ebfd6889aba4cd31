/**
 * Port scanning of the discovery tool (network_discovery/discovery/port_scanner.py):
 * expansion of a target range into address strings, and the aggregation of
 * per-port probe outcomes into open-port lists and an IP-keyed result map.
 *
 * A probe (the TCP connect of `scan_single_port`) is an abstract outcome
 * supplied by the caller; the thread pools become sequential loops.
 */
module PortScanner {
  import opened Wrappers
  import Text
  import opened Address
  import IpParser

  // ---------------- target ranges ----------------

  /** How `_parse_ip_range` reads its argument, once the library parsers have run. */
  datatype Shape =
    | Block(n: Network)                          // text with '/' naming a network
    | Span(family: Family, lo: nat, hi: nat)     // `start-end`, both ends of one family
    | Mixed                                      // `start-end` with an IPv4 and an IPv6 end
    | Single(text: string)                       // one valid address
    | Invalid                                    // anything that raises ValueError

  /** The message of the TypeError raised when the two ends of a range differ in version. */
  const VersionMismatch := "addresses are not of the same version"

  function ShapeOf(x: V6Syntax, s: string): (r: Shape)
    ensures WellFormed(r)
    ensures r.Block? ==> '/' in s
    ensures r.Span? ==> '/' !in s
    ensures r.Single? ==> r.text == s && '/' !in s && '-' !in s
  {
    if '/' in s then
      var n := ParseNetwork(x, s);
      if n.Some? then Block(n.value) else Invalid
    else if '-' in s then
      var parts := Text.Split(s, '-');
      if |parts| != 2 then Invalid
      else
        var a := ParseAddr(x, Text.Strip(parts[0]));
        var b := ParseAddr(x, Text.Strip(parts[1]));
        if a.None? || b.None? then Invalid
        else if a.value.family != b.value.family then Mixed
        else Span(a.value.family, a.value.value, b.value.value)
    else if ParseAddr(x, s).Some? then Single(s)
    else Invalid
  }

  /** str() of the address with integer value `v` in family `f`. */
  function AddrText(x: V6Syntax, f: Family, v: nat): string
    requires v < Size(f)
  {
    Show(x, Addr(f, v))
  }

  /** The texts of `count` consecutive addresses starting at `lo`. */
  function Run(x: V6Syntax, f: Family, lo: nat, count: nat): (r: seq<string>)
    requires lo + count <= Size(f)
    ensures |r| == count
    ensures forall i | 0 <= i < count :: r[i] == AddrText(x, f, lo + i)
  {
    seq(count, i requires 0 <= i < count => AddrText(x, f, lo + i))
  }

  lemma RunStep(x: V6Syntax, f: Family, lo: nat, count: nat)
    requires lo + count + 1 <= Size(f)
    ensures Run(x, f, lo, count + 1) == Run(x, f, lo, count) + [AddrText(x, f, lo + count)]
  {
  }

  /** The last value network.hosts() yields lies inside the family. */
  lemma HostsFit(n: Network)
    requires ValidNetwork(n)
    ensures HostLow(n) + |Hosts(n)| <= Size(n.family)
  {
    BroadcastInRange(n);
  }

  /** The texts of network.hosts(), lowest first. */
  function HostTexts(x: V6Syntax, n: Network): (r: seq<string>)
    requires ValidNetwork(n)
    ensures |r| == |Hosts(n)|
  {
    HostsFit(n);
    Run(x, n.family, HostLow(n), |Hosts(n)|)
  }

  /** The shapes `ShapeOf` produces: valid networks, and range ends inside their family. */
  predicate WellFormed(sh: Shape)
  {
    (sh.Block? ==> ValidNetwork(sh.n))
    && (sh.Span? ==> sh.lo < Size(sh.family) && sh.hi < Size(sh.family))
  }

  /**
   * The list `_parse_ip_range` is meant to return for a shape: network
   * hosts, every address of a range inclusive, or the single address; []
   * for anything that raises ValueError.  A range whose ends differ in
   * version raises a TypeError, which nothing catches (Failure).
   */
  function Expand(x: V6Syntax, sh: Shape): (r: Result<seq<string>, string>)
    requires WellFormed(sh)
  {
    match sh
    case Block(n) => Success(HostTexts(x, n))
    case Span(f, lo, hi) => Success(if lo <= hi then Run(x, f, lo, hi - lo + 1) else [])
    case Mixed => Failure(VersionMismatch)
    case Single(t) => Success([t])
    case Invalid => Success([])
  }

  /**
   * What `_parse_ip_range` returns as written: as `Expand`, except that a
   * range ending at the last address of its family gives [], because the
   * step past that address raises AddressValueError, a ValueError, which
   * discards the list built so far.
   */
  function ExpandAsWritten(x: V6Syntax, sh: Shape): (r: Result<seq<string>, string>)
    requires WellFormed(sh)
  {
    if sh.Span? && sh.lo <= sh.hi && sh.hi == Size(sh.family) - 1 then Success([])
    else Expand(x, sh)
  }

  /** The intended result of `_parse_ip_range` on text. */
  function Targets(x: V6Syntax, s: string): (r: Result<seq<string>, string>)
  {
    Expand(x, ShapeOf(x, s))
  }

  /** The result of `_parse_ip_range` on text, as written. */
  function TargetsAsWritten(x: V6Syntax, s: string): (r: Result<seq<string>, string>)
  {
    ExpandAsWritten(x, ShapeOf(x, s))
  }

  /**
   * _parse_ip_range as written: the appending loops run, and when the range
   * loop steps past the last address of its family the AddressValueError
   * is caught as a ValueError and the list built so far is dropped.
   */
  method ParseIpRange(x: V6Syntax, s: string) returns (r: Result<seq<string>, string>)
    ensures r == TargetsAsWritten(x, s)
  {
    var shape := ShapeOf(x, s);
    if shape.Mixed? {
      return Failure(VersionMismatch);
    }
    var list, overflow := AppendTargets(x, shape, []);
    if overflow {
      return Success([]);
    }
    assert list == Expand(x, shape).value;
    return Success(list);
  }

  /**
   * _parse_ip_range, corrected: a range ending at the last address of its
   * family keeps the addresses it built.
   */
  method ParseIpRangeIntended(x: V6Syntax, s: string) returns (r: Result<seq<string>, string>)
    ensures r == Targets(x, s)
  {
    var shape := ShapeOf(x, s);
    r := ExpandRange(x, shape);
  }

  /**
   * The loops of _parse_ip_range, once the text has been read, corrected:
   * stepping past the last address ends the range loop instead of
   * discarding the list.
   */
  method ExpandRange(x: V6Syntax, shape: Shape) returns (r: Result<seq<string>, string>)
    requires WellFormed(shape)
    ensures r == Expand(x, shape)
  {
    if shape.Mixed? {
      return Failure(VersionMismatch);
    }
    var list, _ := AppendTargets(x, shape, []);
    assert list == Expand(x, shape).value;
    return Success(list);
  }

  /**
   * The appending loops shared by `_parse_ip_range` and `load_ip_list`:
   * the addresses of `shape` are appended to `acc`.  `overflow` reports that
   * the range loop then stepped past the last address of its family, which
   * raises AddressValueError after every address has been appended.
   */
  method AppendTargets(x: V6Syntax, shape: Shape, acc: seq<string>) returns (list: seq<string>, overflow: bool)
    requires WellFormed(shape) && !shape.Mixed?
    ensures Expand(x, shape).Success? && list == acc + Expand(x, shape).value
    ensures overflow <==> shape.Span? && shape.lo <= shape.hi && shape.hi == Size(shape.family) - 1
  {
    overflow := false;
    match shape {
      case Block(n) =>
        list := AppendHosts(x, n, acc);
      case Span(f, lo, hi) =>
        list, overflow := AppendSpan(x, f, lo, hi, acc);
      case Single(t) =>
        list := acc + [t];
      case Invalid =>
        list := acc;
    }
  }

  /** for ip in network.hosts(): ips.append(str(ip)) */
  method AppendHosts(x: V6Syntax, n: Network, acc: seq<string>) returns (list: seq<string>)
    requires ValidNetwork(n)
    ensures list == acc + HostTexts(x, n)
  {
    var hosts := Hosts(n);
    HostsFit(n);
    list := acc;
    var i := 0;
    while i < |hosts|
      invariant 0 <= i <= |hosts|
      invariant list == acc + Run(x, n.family, HostLow(n), i)
    {
      RunStep(x, n.family, HostLow(n), i);
      AppendStep(acc, Run(x, n.family, HostLow(n), i), AddrText(x, n.family, hosts[i]));
      list := list + [AddrText(x, n.family, hosts[i])];
      i := i + 1;
    }
  }

  /**
   * while current <= end: the range loop, which stops with `overflow` when
   * the step past the family's last address raises.
   */
  method AppendSpan(x: V6Syntax, f: Family, lo: nat, hi: nat, acc: seq<string>) returns (list: seq<string>, overflow: bool)
    requires lo < Size(f) && hi < Size(f)
    ensures list == acc + (if lo <= hi then Run(x, f, lo, hi - lo + 1) else [])
    ensures overflow <==> lo <= hi && hi == Size(f) - 1
  {
    list := acc;
    var current := lo;
    while current <= hi
      invariant lo <= current <= if lo <= hi then hi + 1 else lo
      invariant current < Size(f)
      invariant list == acc + Run(x, f, lo, current - lo)
      decreases hi + 1 - current
    {
      RunStep(x, f, lo, current - lo);
      AppendStep(acc, Run(x, f, lo, current - lo), AddrText(x, f, current));
      list := list + [AddrText(x, f, current)];
      if current + 1 >= Size(f) {
        // current + 1 is not an address of the family: AddressValueError
        assert current == hi;
        return list, true;
      }
      current := current + 1;
    }
    overflow := false;
  }

  lemma AppendStep(acc: seq<string>, done: seq<string>, e: string)
    ensures acc + done + [e] == acc + (done + [e])
  {
  }

  /** The two definitions differ only on a range that ends at the last address of its family. */
  lemma ExpandAgree(x: V6Syntax, sh: Shape)
    requires WellFormed(sh)
    ensures ExpandAsWritten(x, sh) != Expand(x, sh) <==>
              sh.Span? && sh.lo <= sh.hi && sh.hi == Size(sh.family) - 1
  {
  }

  /** A CIDR block gives its hosts, in ascending order, one text per host. */
  lemma BlockTargets(x: V6Syntax, n: Network)
    requires LawfulV6(x) && ValidNetwork(n)
    ensures var r := ExpandAsWritten(x, Block(n));
      && r.Success? && r == Expand(x, Block(n))
      && |r.value| == |Hosts(n)|
      && forall i | 0 <= i < |Hosts(n)| :: ParseAddr(x, r.value[i]) == Some(Addr(n.family, Hosts(n)[i]))
  {
    HostsFit(n);
    var r := Expand(x, Block(n)).value;
    forall i | 0 <= i < |Hosts(n)|
      ensures ParseAddr(x, r[i]) == Some(Addr(n.family, Hosts(n)[i]))
    {
      ParseShow(x, Addr(n.family, Hosts(n)[i]));
    }
  }

  /**
   * A range `start-end` gives every address from start to end inclusive in
   * ascending order, with no cap on the count, and nothing when start > end.
   */
  lemma SpanTargets(x: V6Syntax, f: Family, lo: nat, hi: nat)
    requires LawfulV6(x) && lo < Size(f) && hi < Size(f)
    ensures var r := Expand(x, Span(f, lo, hi));
      && r.Success?
      && (lo > hi ==> r.value == [])
      && (lo <= hi ==>
            |r.value| == hi - lo + 1
            && forall i | 0 <= i < |r.value| :: ParseAddr(x, r.value[i]) == Some(Addr(f, lo + i)))
  {
    if lo <= hi {
      var r := Expand(x, Span(f, lo, hi)).value;
      forall i | 0 <= i < |r|
        ensures ParseAddr(x, r[i]) == Some(Addr(f, lo + i))
      {
        ParseShow(x, Addr(f, lo + i));
      }
    }
  }

  /** Text with neither '/' nor '-' is kept verbatim when it is an address, and gives [] otherwise. */
  lemma SingleTarget(x: V6Syntax, s: string)
    requires '/' !in s && '-' !in s
    ensures ParseAddr(x, s).Some? ==> Targets(x, s) == Success([s])
    ensures ParseAddr(x, s).None? ==> Targets(x, s) == Success([])
  {
  }

  /** More than one '-' cannot be unpacked into two ends: ValueError, so []. */
  lemma ManyDashes(x: V6Syntax, s: string)
    requires '/' !in s && Text.CountChar(s, '-') >= 2
    ensures Targets(x, s) == Success([])
  {
    Text.SplitCount(s, '-');
    Text.CountCharIn(s, '-');
  }

  /** `a-b` for two IPv4 texts reads as the range between their values. */
  lemma DottedSpan(x: V6Syntax, a: string, b: string)
    requires ParseIPv4(a).Some? && ParseIPv4(b).Some?
    ensures ShapeOf(x, a + "-" + b) == Span(IPv4, ParseIPv4(a).value, ParseIPv4(b).value)
  {
    IpParser.IPv4Text(a);
    IpParser.IPv4Text(b);
    var l := a + "-" + b;
    assert l == a + ['-'] + b;
    IpParser.DashChars(a, b);
    IpParser.SplitTwo(a, b, '-');
    Text.StripKeeps(a);
    Text.StripKeeps(b);
  }

  /**
   * The range up to 255.255.255.255 loses every address: the list the code
   * returns is empty, while the intended list has one entry per address.
   */
  lemma LastAddressLost(x: V6Syntax, a: string, b: string)
    requires ParseIPv4(a).Some? && ParseIPv4(b) == Some(V4Size - 1)
    ensures TargetsAsWritten(x, a + "-" + b) == Success([])
    ensures ParseIPv4(a).value <= V4Size - 1 ==>
              |Targets(x, a + "-" + b).value| == V4Size - ParseIPv4(a).value
  {
    DottedSpan(x, a, b);
  }

  // ---------------- port probes ----------------

  /** What probing one port reported: connect_ex's result code, or an exception. */
  datatype Probe = Connected(code: int) | Raised

  /** A port is open when connect_ex returned 0; an exception counts as closed. */
  predicate IsOpen(p: Probe)
  {
    p.Connected? && p.code == 0
  }

  /** The requested ports whose probe reported them open, in request order. */
  function OpenPorts(probe: (string, int) -> Probe, ip: string, ports: seq<int>): (r: seq<int>)
    ensures forall p :: p in r <==> p in ports && IsOpen(probe(ip, p))
    ensures multiset(r) <= multiset(ports)
    ensures r == [] <==> forall p | p in ports :: !IsOpen(probe(ip, p))
  {
    if ports == [] then []
    else
      var rest := OpenPorts(probe, ip, ports[1..]);
      assert ports == [ports[0]] + ports[1..];
      assert forall p | p in ports :: p == ports[0] || p in ports[1..];
      if IsOpen(probe(ip, ports[0])) then [ports[0]] + rest else rest
  }

  /** scan_ports */
  method ScanPorts(probe: (string, int) -> Probe, ip: string, ports: seq<int>) returns (open: seq<int>)
    ensures open == OpenPorts(probe, ip, ports)
  {
    open := [];
    var i := |ports|;
    while i > 0
      invariant 0 <= i <= |ports|
      invariant open == OpenPorts(probe, ip, ports[i..])
    {
      i := i - 1;
      assert ports[i..][1..] == ports[i + 1..];
      if IsOpen(probe(ip, ports[i])) {
        open := [ports[i]] + open;
      }
    }
    assert ports[0..] == ports;
  }

  /** The ports of scan_common_ports. */
  const CommonPorts: seq<int> :=
    [21, 22, 23, 25, 53, 80, 110, 111, 135, 139, 143, 443, 445, 993, 995, 1723, 3306, 3389, 5432, 5900, 8080]

  /** The management ports of quick_scan. */
  const ManagementPorts: seq<int> := [22, 23, 80, 443, 2222]

  /** scan_common_ports */
  method ScanCommonPorts(probe: (string, int) -> Probe, ip: string) returns (open: seq<int>)
    ensures forall p :: p in open <==> p in CommonPorts && IsOpen(probe(ip, p))
  {
    open := ScanPorts(probe, ip, CommonPorts);
  }

  /** quick_scan: the device answers when any management port is open. */
  method QuickScan(probe: (string, int) -> Probe, ip: string) returns (up: bool)
    ensures up <==> exists p :: p in ManagementPorts && IsOpen(probe(ip, p))
  {
    var open := ScanPorts(probe, ip, ManagementPorts);
    up := |open| > 0;
    if up {
      assert open[0] in open;
    }
  }

  /**
   * scan_ip_range: one scan per target; only targets with at least one open
   * port get an entry.  An unparseable range gives {}.
   */
  method ScanIpRange(x: V6Syntax, probe: (string, int) -> Probe, range: string, ports: seq<int>)
    returns (r: Result<map<string, seq<int>>, string>)
    ensures TargetsAsWritten(x, range).Failure? <==> r.Failure?
    ensures r.Success? ==>
              forall ip :: ip in r.value <==> ip in TargetsAsWritten(x, range).value && OpenPorts(probe, ip, ports) != []
    ensures r.Success? ==> forall ip | ip in r.value :: r.value[ip] == OpenPorts(probe, ip, ports)
  {
    var targets := ParseIpRange(x, range);
    if targets.Failure? {
      return Failure(targets.error);
    }
    var result := ScanTargets(probe, targets.value, ports);
    return Success(result);
  }

  /** The loop of scan_ip_range: an entry for each target with an open port, holding its open ports. */
  method ScanTargets(probe: (string, int) -> Probe, ips: seq<string>, ports: seq<int>) returns (result: map<string, seq<int>>)
    ensures forall ip :: ip in result <==> ip in ips && OpenPorts(probe, ip, ports) != []
    ensures forall ip | ip in result :: result[ip] == OpenPorts(probe, ip, ports)
  {
    result := map[];
    var i := 0;
    while i < |ips|
      invariant 0 <= i <= |ips|
      invariant forall ip :: ip in result <==> ip in ips[..i] && OpenPorts(probe, ip, ports) != []
      invariant forall ip | ip in result :: result[ip] == OpenPorts(probe, ip, ports)
    {
      var open := ScanPorts(probe, ips[i], ports);
      if open != [] {
        result := result[ips[i] := open];
      }
      assert ips[..i + 1] == ips[..i] + [ips[i]];
      i := i + 1;
    }
    assert ips[..i] == ips;
  }
}
