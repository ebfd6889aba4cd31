/**
 * The protocol detector: which well-known services a device exposes, read
 * off one port scan. The scan itself is `PortScanner.ScanPorts` over a probe
 * supplied by the caller.
 */
module Protocols {
  import opened Wrappers
  import PortScanner
  import Dict

  /** The protocol catalog, in declaration order, with each protocol's ports. */
  const Catalog: seq<(string, seq<int>)> := [
    ("ssh", [22, 2222, 22222]),
    ("telnet", [23, 2323]),
    ("snmp", [161]),
    ("http", [80, 8080]),
    ("https", [443, 8443]),
    ("netconf", [830]),
    ("ftp", [21]),
    ("tftp", [69]),
    ("syslog", [514]),
    ("radius", [1812, 1813]),
    ("tacacs", [49]),
    ("dns", [53]),
    ("ntp", [123]),
    ("ldap", [389, 636]),
    ("kerberos", [88])
  ]

  /** PROTOCOL_PORTS.get(name, default) */
  function PortsOf(cat: seq<(string, seq<int>)>, name: string, default: seq<int>): (r: seq<int>)
    ensures name !in Dict.Keys(cat) ==> r == default
    ensures forall i | 0 <= i < |cat| && cat[i].0 == name && name !in Dict.Keys(cat[..i]) :: r == cat[i].1
    decreases |cat|
  {
    if cat == [] then default
    else if cat[0].0 == name then cat[0].1
    else
      assert forall i | 1 <= i <= |cat| :: cat[1..][..i - 1] == cat[..i][1..];
      assert Dict.Keys(cat) == [cat[0].0] + Dict.Keys(cat[1..]);
      PortsOf(cat[1..], name, default)
  }

  /** A catalog is a dictionary: every name occurs once. */
  predicate IsDict(cat: seq<(string, seq<int>)>)
  {
    forall i, j | 0 <= i < j < |cat| :: cat[i].0 != cat[j].0
  }

  lemma CatalogIsDict()
    ensures IsDict(Catalog)
  {
  }

  /** The port lists of the catalog joined in order. */
  function Flatten(cat: seq<(string, seq<int>)>): (r: seq<int>)
    decreases |cat|
  {
    if cat == [] then [] else Flatten(cat[..|cat| - 1]) + cat[|cat| - 1].1
  }

  /** A port is scanned exactly when some catalog protocol lists it. */
  lemma {:induction false} FlattenMembers(cat: seq<(string, seq<int>)>, p: int)
    ensures p in Flatten(cat) <==> exists i | 0 <= i < |cat| :: p in cat[i].1
    decreases |cat|
  {
    if cat != [] {
      var init := cat[..|cat| - 1];
      FlattenMembers(init, p);
      assert forall i | 0 <= i < |init| :: init[i] == cat[i];
      if p in cat[|cat| - 1].1 {
        assert p in Flatten(cat);
      }
    }
  }

  /** The ports detect_all_protocols scans: every catalog list, extended in order. */
  method AllPorts(cat: seq<(string, seq<int>)>) returns (ports: seq<int>)
    ensures ports == Flatten(cat)
    ensures forall p :: p in ports <==> exists i | 0 <= i < |cat| :: p in cat[i].1
  {
    ports := [];
    var i := 0;
    while i < |cat|
      invariant 0 <= i <= |cat|
      invariant ports == Flatten(cat[..i])
    {
      assert cat[..i + 1][..i] == cat[..i];
      ports := ports + cat[i].1;
      i := i + 1;
    }
    assert cat[..i] == cat;
    forall p
      ensures p in ports <==> exists i | 0 <= i < |cat| :: p in cat[i].1
    {
      FlattenMembers(cat, p);
    }
  }

  /** any(port in open for port in ports) */
  predicate AnyOpen(ports: seq<int>, open: seq<int>)
  {
    exists p | p in ports :: p in open
  }

  /** The first of `ports` that is open. */
  function FirstOpen(ports: seq<int>, open: seq<int>): (r: Option<int>)
    ensures r.None? <==> !AnyOpen(ports, open)
    ensures r.Some? ==> r.value in ports && r.value in open
    ensures r.Some? ==> exists k | 0 <= k < |ports| :: ports[k] == r.value && forall j | 0 <= j < k :: ports[j] !in open
    decreases |ports|
  {
    if ports == [] then None
    else if ports[0] in open then Some(ports[0])
    else
      var r := FirstOpen(ports[1..], open);
      if r.Some? then
        var k :| 0 <= k < |ports[1..]| && ports[1..][k] == r.value && forall j | 0 <= j < k :: ports[1..][j] !in open;
        assert ports[k + 1] == r.value && forall j | 0 <= j < k + 1 :: ports[j] !in open;
        r
      else
        assert forall p | p in ports :: p == ports[0] || p in ports[1..];
        r
  }

  /** The dictionary detect_all_protocols returns, with its keys grouped by kind. */
  datatype ProtocolInfo = ProtocolInfo(
    openPorts: seq<int>,
    available: map<string, bool>,  // '<protocol>': is any of its ports open
    port: map<string, int>,        // '<protocol>_port': only for available protocols
    hasManagement: bool,
    hasWeb: bool)

  /** dict.get(name, False) on the flags. */
  function Flag(info: ProtocolInfo, name: string): bool
  {
    if name in info.available then info.available[name] else false
  }

  /** What detect_all_protocols states about each protocol of the catalog, given the open ports. */
  ghost predicate Describes(info: ProtocolInfo, cat: seq<(string, seq<int>)>, open: seq<int>)
  {
    info.openPorts == open
    && (forall name :: name in info.available <==> name in Dict.Keys(cat))
    && (forall name | name in info.port :: name in info.available)
    && (forall i | 0 <= i < |cat| :: Reports(info.available, info.port, cat[i], open))
    && info.hasManagement == (Flag(info, "ssh") || Flag(info, "telnet"))
    && info.hasWeb == (Flag(info, "http") || Flag(info, "https"))
  }

  /** The flag of one protocol says whether any of its ports is open; its port key is the first open one. */
  predicate Reports(available: map<string, bool>, port: map<string, int>, entry: (string, seq<int>), open: seq<int>)
  {
    entry.0 in available
    && available[entry.0] == AnyOpen(entry.1, open)
    && (entry.0 in port <==> AnyOpen(entry.1, open))
    && (AnyOpen(entry.1, open) ==> port[entry.0] == FirstOpen(entry.1, open).value)
  }

  /** The protocol loop of detect_all_protocols, on the open ports of the scan. */
  method Classify(cat: seq<(string, seq<int>)>, open: seq<int>) returns (info: ProtocolInfo)
    requires IsDict(cat)
    ensures Describes(info, cat, open)
  {
    var available: map<string, bool> := map[];
    var port: map<string, int> := map[];
    var i := 0;
    while i < |cat|
      invariant 0 <= i <= |cat|
      invariant forall name :: name in available <==> name in Dict.Keys(cat[..i])
      invariant forall name | name in port :: name in available
      invariant forall k | 0 <= k < i :: Reports(available, port, cat[k], open)
    {
      var name := cat[i].0;
      var ports := cat[i].1;
      var isOpen := AnyOpen(ports, open);
      assert Dict.Keys(cat[..i + 1]) == Dict.Keys(cat[..i]) + [name];
      assert name !in port by {
        assert name !in Dict.Keys(cat[..i]);
      }
      var first := 0;
      if isOpen {
        first := FirstPort(ports, open);
      }
      RecordKeepsReports(available, port, cat, open, i, isOpen, first);
      available := available[name := isOpen];
      if isOpen {
        port := port[name := first];
      }
      i := i + 1;
    }
    assert cat[..i] == cat;
    info := ProtocolInfo(open, available, port, false, false);
    info := info.(hasManagement := Flag(info, "ssh") || Flag(info, "telnet"),
                  hasWeb := Flag(info, "http") || Flag(info, "https"));
  }

  /** Recording one more protocol keeps what is reported about the earlier ones and reports the new one. */
  lemma RecordKeepsReports(available: map<string, bool>, port: map<string, int>, cat: seq<(string, seq<int>)>,
                           open: seq<int>, i: int, isOpen: bool, first: int)
    requires IsDict(cat) && 0 <= i < |cat| && cat[i].0 !in port
    requires forall k | 0 <= k < i :: Reports(available, port, cat[k], open)
    requires isOpen == AnyOpen(cat[i].1, open)
    requires isOpen ==> FirstOpen(cat[i].1, open) == Some(first)
    ensures var a := available[cat[i].0 := isOpen];
      var p := if isOpen then port[cat[i].0 := first] else port;
      forall k | 0 <= k <= i :: Reports(a, p, cat[k], open)
  {
    var a := available[cat[i].0 := isOpen];
    var p := if isOpen then port[cat[i].0 := first] else port;
    forall k | 0 <= k <= i
      ensures Reports(a, p, cat[k], open)
    {
      if k < i {
        assert cat[k].0 != cat[i].0;
        assert Reports(available, port, cat[k], open);
      }
    }
  }

  /** The inner loop: the first port of the list that is open. */
  method FirstPort(ports: seq<int>, open: seq<int>) returns (p: int)
    requires AnyOpen(ports, open)
    ensures FirstOpen(ports, open) == Some(p)
  {
    var i := 0;
    while i < |ports|
      invariant 0 <= i <= |ports|
      invariant FirstOpen(ports, open) == FirstOpen(ports[i..], open)
    {
      assert ports[i..][1..] == ports[i + 1..];
      if ports[i] in open {
        return ports[i];
      }
      i := i + 1;
    }
    assert false;
  }

  /** detect_all_protocols: scan every catalog port once, then classify. */
  method DetectAllProtocols(probe: (string, int) -> PortScanner.Probe, ip: string) returns (info: ProtocolInfo)
    ensures Describes(info, Catalog, PortScanner.OpenPorts(probe, ip, Flatten(Catalog)))
  {
    var ports := AllPorts(Catalog);
    var open := PortScanner.ScanPorts(probe, ip, ports);
    CatalogIsDict();
    info := Classify(Catalog, open);
  }

  /** The management protocols, in the order they are scanned and reported. */
  const ManagementProtocols: seq<string> := ["ssh", "telnet", "http", "https"]

  /** detect_management_protocols: one flag per management protocol, from one scan of their ports. */
  method DetectManagementProtocols(cat: seq<(string, seq<int>)>, probe: (string, int) -> PortScanner.Probe, ip: string)
    returns (result: map<string, bool>)
    ensures result.Keys == {"ssh", "telnet", "http", "https"}
    ensures forall name | name in result ::
              result[name] <==> exists p | p in PortsOf(cat, name, []) :: PortScanner.IsOpen(probe(ip, p))
  {
    var ports: seq<int> := [];
    var i := 0;
    while i < |ManagementProtocols|
      invariant 0 <= i <= |ManagementProtocols|
      invariant forall n | n in ManagementProtocols[..i] :: forall p | p in PortsOf(cat, n, []) :: p in ports
    {
      ports := ports + PortsOf(cat, ManagementProtocols[i], []);
      i := i + 1;
    }
    assert ManagementProtocols[..i] == ManagementProtocols;
    var open := PortScanner.ScanPorts(probe, ip, ports);
    result := map[];
    i := 0;
    while i < |ManagementProtocols|
      invariant 0 <= i <= |ManagementProtocols|
      invariant result.Keys == set n | n in ManagementProtocols[..i]
      invariant forall name | name in result :: result[name] == AnyOpen(PortsOf(cat, name, []), open)
    {
      var name := ManagementProtocols[i];
      assert ManagementProtocols[..i + 1] == ManagementProtocols[..i] + [name];
      result := result[name := AnyOpen(PortsOf(cat, name, []), open)];
      i := i + 1;
    }
    assert ManagementProtocols[..i] == ManagementProtocols;
  }

  /** check_specific_protocol: unknown names are not scanned; a truthy port replaces the catalog list. */
  function CheckTargets(cat: seq<(string, seq<int>)>, protocol: string, port: Option<int>): (r: Option<seq<int>>)
    ensures r.None? <==> protocol !in Dict.Keys(cat)
    ensures r.Some? && port.Some? && port.value != 0 ==> r.value == [port.value]
    ensures r.Some? && (port.None? || port.value == 0) ==> r.value == PortsOf(cat, protocol, [])
  {
    if protocol !in Dict.Keys(cat) then None
    else if port.Some? && port.value != 0 then Some([port.value])
    else Some(PortsOf(cat, protocol, []))
  }

  method CheckSpecificProtocol(cat: seq<(string, seq<int>)>, probe: (string, int) -> PortScanner.Probe, ip: string,
                               protocol: string, port: Option<int>)
    returns (up: bool)
    ensures protocol !in Dict.Keys(cat) ==> !up
    ensures CheckTargets(cat, protocol, port).Some? ==>
              (up <==> exists p | p in CheckTargets(cat, protocol, port).value :: PortScanner.IsOpen(probe(ip, p)))
  {
    var targets := CheckTargets(cat, protocol, port);
    if targets.None? {
      return false;
    }
    var open := PortScanner.ScanPorts(probe, ip, targets.value);
    up := |open| > 0;
  }

  /** The answer of get_recommended_protocol. */
  datatype Recommendation = Recommendation(protocol: Option<string>, port: Option<int>, secure: bool)

  /** The priority list of get_recommended_protocol: a protocol and the port checked first. */
  const Priority: seq<(string, int)> := [("ssh", 22), ("ssh", 2222), ("telnet", 23), ("https", 443), ("http", 80)]

  function Found(protocol: string, port: int): Recommendation
  {
    Recommendation(Some(protocol), Some(port), protocol == "ssh" || protocol == "https")
  }

  /** get_recommended_protocol as written: walk the priority list, standard port first, then the catalog list. */
  function Recommend(cat: seq<(string, seq<int>)>, info: ProtocolInfo, prio: seq<(string, int)>): (r: Recommendation)
    ensures r.protocol.None? <==> r.port.None?
    ensures r.protocol.None? ==> !r.secure
    decreases |prio|
  {
    if prio == [] then Recommendation(None, None, false)
    else
      var (protocol, default) := prio[0];
      var ports := PortsOf(cat, protocol, [default]);
      if Flag(info, protocol) && default in info.openPorts then Found(protocol, default)
      else
        match FirstOpen(ports, info.openPorts)
        case Some(p) => Found(protocol, p)
        case None => Recommend(cat, info, prio[1..])
  }

  /** The recommendation as the order of preference states it: the first protocol with an open catalog port. */
  function Preferred(cat: seq<(string, seq<int>)>, open: seq<int>, order: seq<string>): (r: Recommendation)
    ensures r.protocol.None? <==> r.port.None?
    decreases |order|
  {
    if order == [] then Recommendation(None, None, false)
    else
      match FirstOpen(PortsOf(cat, order[0], []), open)
      case Some(p) => Found(order[0], p)
      case None => Preferred(cat, open, order[1..])
  }

  /**
   * On the result of a scan, get_recommended_protocol picks the first of
   * ssh, telnet, https, http with an open catalog port, and the first such
   * port; it is secure iff the protocol is ssh or https.
   */
  lemma RecommendPreferred(info: ProtocolInfo, open: seq<int>)
    requires Describes(info, Catalog, open)
    ensures Recommend(Catalog, info, Priority) == Preferred(Catalog, open, ["ssh", "telnet", "https", "http"])
  {
    assert Catalog[0] == ("ssh", [22, 2222, 22222]) && Reports(info.available, info.port, Catalog[0], open);
    assert Catalog[1] == ("telnet", [23, 2323]) && Reports(info.available, info.port, Catalog[1], open);
    assert Catalog[3] == ("http", [80, 8080]) && Reports(info.available, info.port, Catalog[3], open);
    assert Catalog[4] == ("https", [443, 8443]) && Reports(info.available, info.port, Catalog[4], open);
    assert FlagsMatch(info, open);
    RecommendFromSsh(info, open);
  }

  /** The flags of the four preferred protocols, as a scan of the catalog sets them. */
  predicate FlagsMatch(info: ProtocolInfo, open: seq<int>)
  {
    info.openPorts == open
    && Flag(info, "ssh") == AnyOpen([22, 2222, 22222], open)
    && Flag(info, "telnet") == AnyOpen([23, 2323], open)
    && Flag(info, "http") == AnyOpen([80, 8080], open)
    && Flag(info, "https") == AnyOpen([443, 8443], open)
  }

  lemma RecommendFromSsh(info: ProtocolInfo, open: seq<int>)
    requires FlagsMatch(info, open)
    ensures Recommend(Catalog, info, Priority) == Preferred(Catalog, open, ["ssh", "telnet", "https", "http"])
  {
    CatalogLookups();
    var p1 := Priority[1..];
    assert p1 == [("ssh", 2222), ("telnet", 23), ("https", 443), ("http", 80)];
    assert p1[1..] == [("telnet", 23), ("https", 443), ("http", 80)];
    assert ["ssh", "telnet", "https", "http"][1..] == ["telnet", "https", "http"];
    PriorityStep(Catalog, info, Priority);
    if !AnyOpen([22, 2222, 22222], open) {
      PriorityStep(Catalog, info, p1);
      RecommendFromTelnet(info, open);
    }
  }

  lemma RecommendFromTelnet(info: ProtocolInfo, open: seq<int>)
    requires FlagsMatch(info, open)
    ensures Recommend(Catalog, info, [("telnet", 23), ("https", 443), ("http", 80)])
              == Preferred(Catalog, open, ["telnet", "https", "http"])
  {
    CatalogLookups();
    var prio := [("telnet", 23), ("https", 443), ("http", 80)];
    assert prio[1..] == [("https", 443), ("http", 80)];
    assert ["telnet", "https", "http"][1..] == ["https", "http"];
    PriorityStep(Catalog, info, prio);
    if !AnyOpen([23, 2323], open) {
      RecommendFromHttps(info, open);
    }
  }

  lemma RecommendFromHttps(info: ProtocolInfo, open: seq<int>)
    requires FlagsMatch(info, open)
    ensures Recommend(Catalog, info, [("https", 443), ("http", 80)]) == Preferred(Catalog, open, ["https", "http"])
  {
    CatalogLookups();
    var prio := [("https", 443), ("http", 80)];
    assert prio[1..] == [("http", 80)];
    assert ["https", "http"][1..] == ["http"];
    PriorityStep(Catalog, info, prio);
    if !AnyOpen([443, 8443], open) {
      RecommendFromHttp(info, open);
    }
  }

  lemma RecommendFromHttp(info: ProtocolInfo, open: seq<int>)
    requires FlagsMatch(info, open)
    ensures Recommend(Catalog, info, [("http", 80)]) == Preferred(Catalog, open, ["http"])
  {
    CatalogLookups();
    assert [("http", 80)][1..] == [];
    assert ["http"][1..] == [];
    PriorityStep(Catalog, info, [("http", 80)]);
  }

  /** The port lists of the four preferred protocols, whatever default `get` is given. */
  lemma CatalogLookups()
    ensures forall d :: PortsOf(Catalog, "ssh", d) == [22, 2222, 22222]
    ensures forall d :: PortsOf(Catalog, "telnet", d) == [23, 2323]
    ensures forall d :: PortsOf(Catalog, "http", d) == [80, 8080]
    ensures forall d :: PortsOf(Catalog, "https", d) == [443, 8443]
  {
    assert Dict.Keys(Catalog[..0]) == [];
    assert Dict.Keys(Catalog[..1]) == ["ssh"];
    assert Dict.Keys(Catalog[..3]) == ["ssh", "telnet", "snmp"];
    assert Dict.Keys(Catalog[..4]) == ["ssh", "telnet", "snmp", "http"];
  }

  /**
   * One entry of the priority list: when its standard port is the first
   * catalog port, or none of its ports is open, the entry answers with the
   * first open catalog port, or passes on to the next entry.
   */
  lemma PriorityStep(cat: seq<(string, seq<int>)>, info: ProtocolInfo, prio: seq<(string, int)>)
    requires prio != []
    requires PortsOf(cat, prio[0].0, [prio[0].1]) == PortsOf(cat, prio[0].0, [])
    requires Flag(info, prio[0].0) == AnyOpen(PortsOf(cat, prio[0].0, []), info.openPorts)
    requires var ports := PortsOf(cat, prio[0].0, []);
             (|ports| > 0 && ports[0] == prio[0].1) || !AnyOpen(ports, info.openPorts)
    ensures Recommend(cat, info, prio) ==
              match FirstOpen(PortsOf(cat, prio[0].0, []), info.openPorts)
              case Some(p) => Found(prio[0].0, p)
              case None => Recommend(cat, info, prio[1..])
  {
    var ports := PortsOf(cat, prio[0].0, []);
    if Flag(info, prio[0].0) && prio[0].1 in info.openPorts {
      assert ports[0] in info.openPorts;
    }
  }

  /** The recommended port is open, and no protocol earlier in the preference order has an open port. */
  lemma {:induction false} PreferredIsFirst(cat: seq<(string, seq<int>)>, open: seq<int>, order: seq<string>)
    ensures Preferred(cat, open, order).protocol.Some? ==>
              Preferred(cat, open, order).port.value in open
              && Preferred(cat, open, order).port.value in PortsOf(cat, Preferred(cat, open, order).protocol.value, [])
    ensures Preferred(cat, open, order).protocol.None? <==>
              forall k | 0 <= k < |order| :: !AnyOpen(PortsOf(cat, order[k], []), open)
    decreases |order|
  {
    if order != [] {
      PreferredIsFirst(cat, open, order[1..]);
      if !AnyOpen(PortsOf(cat, order[0], []), open) {
        assert forall k | 1 <= k < |order| :: order[k] == order[1..][k - 1];
      }
    }
  }
}
