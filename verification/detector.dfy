/**
 * The device classifier: "show version"-style output becomes vendor, model,
 * OS version, serial number and Netmiko device type.  Every rule is an
 * ordered table searched first-match-wins.  Regular expressions go through
 * the abstract engine of module RegexOracle; patterns without
 * metacharacters are substring tests.
 *
 * The detector keeps a cache from the first 500 characters of an output to
 * the vendor and model found for it.
 */
module Detector {
  import opened Wrappers
  import Text
  import opened RegexOracle

  /** VENDOR_PATTERNS, in declaration order. */
  const VendorPatterns: seq<(string, seq<Pat>)> := [
    ("Cisco", [Plain("cisco"), Plain("ios"), Regex("ios\\s+xe"), Regex("ios\\s+xr"), Plain("nexus"), Plain("asa"),
               Regex("cat[0-9]+"), Regex("ws-[c|s]"), Regex("c[0-9]+"), Regex("asr[0-9]+"), Regex("isr[0-9]+")]),
    ("Juniper", [Plain("juniper"), Plain("junos"), Plain("srx"), Regex("ex[0-9]+"), Regex("mx[0-9]+"),
                 Regex("ptx[0-9]+"), Regex("qfx[0-9]+")]),
    ("HP/HPE/Aruba", [Plain("procurve"), Plain("aruba"), Plain("hp"), Plain("comware"), Plain("1910"), Plain("2920"),
                      Plain("3800"), Plain("5400"), Plain("8200")]),
    ("MikroTik", [Plain("mikrotik"), Plain("routeros"), Plain("ccr"), Plain("rb"), Plain("hex"), Plain("hap")]),
    ("Arista", [Plain("arista"), Plain("eos"), Plain("dcs")]),
    ("Palo Alto", [Plain("palo"), Plain("pan-os"), Regex("pa-[0-9]+")]),
    ("Fortinet", [Plain("fortinet"), Plain("fortios"), Plain("fortigate")]),
    ("Ubiquiti", [Plain("ubiquiti"), Plain("edgerouter"), Plain("edgeswitch"), Plain("unifi")]),
    ("Linux", [Plain("linux"), Plain("ubuntu"), Plain("debian"), Plain("centos"), Regex("red\\s+hat"), Plain("fedora")]),
    ("Huawei", [Plain("huawei"), Plain("vrp"), Regex("ce[0-9]+"), Regex("ne[0-9]+")]),
    ("Dell", [Plain("dell"), Plain("powerconnect"), Plain("force10"), Regex("n[0-9]+")]),
    ("Extreme", [Plain("extreme"), Plain("exos")]),
    ("Brocade", [Plain("brocade"), Plain("vdx"), Plain("netiron"), Plain("fastiron")]),
    ("Nokia", [Plain("nokia"), Regex("sr\\s+os"), Plain("alu")])
  ]

  // ---------------- vendor ----------------

  /** The position of the first table entry with a matching pattern. */
  function VendorIndex(search: Search, table: seq<(string, seq<Pat>)>, lower: string): (r: Option<nat>)
    ensures r.Some? ==> r.value < |table| && AnyHit(search, table[r.value].1, lower)
    ensures r.Some? ==> forall j | 0 <= j < r.value :: !AnyHit(search, table[j].1, lower)
    ensures r.None? ==> forall j | 0 <= j < |table| :: !AnyHit(search, table[j].1, lower)
    decreases |table|
  {
    if table == [] then None
    else if AnyHit(search, table[0].1, lower) then Some(0)
    else
      match VendorIndex(search, table[1..], lower)
      case Some(i) => Some(i + 1)
      case None => None
  }

  /** The keyword fallback of detect_vendor. */
  function Fallback(lower: string): Option<string>
  {
    if Text.Contains(lower, "cisco") then Some("Cisco")
    else if Text.Contains(lower, "juniper") then Some("Juniper")
    else if Text.Contains(lower, "mikrotik") then Some("MikroTik")
    else if Text.Contains(lower, "linux") then Some("Linux")
    else None
  }

  /** The model patterns of _extract_model for a vendor. */
  function ModelPatterns(vendor: string): seq<string>
  {
    if vendor == "Cisco" then
      ["[Cc]isco\\s+(\\S+)\\s+\\(", "[Mm]odel\\s*\\.*:\\s*(\\S+)", "[Pp]latform:\\s*(\\S+)", "[Cc][Ss][Rr]?([0-9]+)",
       "[Cc]atalyst\\s+([0-9]+)"]
    else if vendor == "Juniper" then
      ["[Mm]odel:\\s*(\\S+)", "[Mm]odel\\s+number:\\s*(\\S+)", "([SM]X|EX|QFX|PTX)[0-9]+"]
    else if vendor == "MikroTik" then
      ["platform:\\s*(\\S+)", "[Cc][Cc][Rr]([0-9]+)", "[Rr][Bb]([0-9]+)"]
    else if vendor == "Linux" then
      ["[Mm]odel\\s*\\.*:\\s*(\\S+)", "[Pp]roduct\\s+name:\\s*(\\S+)"]
    else
      ["[Mm]odel\\s*\\.*:\\s*(\\S+)", "[Pp]latform:\\s*(\\S+)", "[Pp]roduct\\s+name:\\s*(\\S+)"]
  }

  /** _extract_model: group 1 of the vendor's first matching model pattern. */
  function ExtractModel(search: Search, output: string, vendor: string): (r: Option<string>)
    ensures r.None? <==> forall k | 0 <= k < |ModelPatterns(vendor)| :: search(ModelPatterns(vendor)[k], output, true).None?
  {
    FirstGroup(search, ModelPatterns(vendor), output)
  }

  const VersionPatterns: seq<string> := [
    "[Vv]ersion\\s+(\\S+)", "[Ii][Oo][Ss]\\s+[Vv]ersion\\s+(\\S+)", "[Jj]UNOS\\s+(\\S+)",
    "[Vv]ERSION\\s*=\\s*\"([^\"]+)\"", "[Rr]elease\\s+(\\S+)", "[Ss]oftware\\s+[Vv]ersion\\s+(\\S+)"
  ]

  const SerialPatterns: seq<string> := [
    "[Ss]erial\\s+[Nn]umber\\s*\\.*:\\s*(\\S+)", "[Ss]erial\\s*#\\s*\\.*:\\s*(\\S+)", "[Ss][Nn]\\s*:\\s*(\\S+)",
    "[Ss]ystem\\s+[Ss]erial\\s+[Nn]umber\\s*\\.*:\\s*(\\S+)"
  ]

  /** extract_version */
  function ExtractVersion(search: Search, output: string): (r: Option<string>)
    ensures r.None? <==> forall k | 0 <= k < |VersionPatterns| :: search(VersionPatterns[k], output, true).None?
    ensures r.Some? ==> exists k | 0 <= k < |VersionPatterns| :: search(VersionPatterns[k], output, true) == r
                          && forall j | 0 <= j < k :: search(VersionPatterns[j], output, true).None?
  {
    FirstGroup(search, VersionPatterns, output)
  }

  /** extract_serial */
  function ExtractSerial(search: Search, output: string): (r: Option<string>)
    ensures r.None? <==> forall k | 0 <= k < |SerialPatterns| :: search(SerialPatterns[k], output, true).None?
    ensures r.Some? ==> exists k | 0 <= k < |SerialPatterns| :: search(SerialPatterns[k], output, true) == r
                          && forall j | 0 <= j < k :: search(SerialPatterns[j], output, true).None?
  {
    FirstGroup(search, SerialPatterns, output)
  }

  /** The vendor and model detect_vendor finds for an output, without the cache. */
  function Classified(search: Search, output: string): (Option<string>, Option<string>)
  {
    var lower := Text.Lower(output);
    match VendorIndex(search, VendorPatterns, lower)
    case Some(i) => (Some(VendorPatterns[i].0), ExtractModel(search, output, VendorPatterns[i].0))
    case None =>
      match Fallback(lower)
      case Some(v) => (Some(v), ExtractModel(search, output, v))
      case None => (None, None)
  }

  /**
   * The keyword fallback never names a vendor: each keyword is a plain
   * pattern of its vendor's table entry, so an output holding it has
   * already been classified by the table.
   */
  lemma FallbackUnreachable(search: Search, output: string)
    requires VendorIndex(search, VendorPatterns, Text.Lower(output)).None?
    ensures Fallback(Text.Lower(output)).None?
  {
    var lower := Text.Lower(output);
    assert !AnyHit(search, VendorPatterns[0].1, lower);
    assert !Hits(search, VendorPatterns[0].1[0], lower);
    assert !AnyHit(search, VendorPatterns[1].1, lower);
    assert !Hits(search, VendorPatterns[1].1[0], lower);
    assert !AnyHit(search, VendorPatterns[3].1, lower);
    assert !Hits(search, VendorPatterns[3].1[0], lower);
    assert !AnyHit(search, VendorPatterns[8].1, lower);
    assert !Hits(search, VendorPatterns[8].1[0], lower);
  }

  /** The vendor names of the table are distinct. */
  lemma VendorNamesDistinct()
    ensures forall i, j | 0 <= i < j < |VendorPatterns| :: VendorPatterns[i].0 != VendorPatterns[j].0
  {
  }

  /**
   * The vendor is the first table entry, in declaration order, with a
   * matching pattern; where in the output the match lies plays no part.
   * No match anywhere leaves both vendor and model unset.
   */
  lemma VendorIsFirstMatch(search: Search, output: string, v: string)
    ensures Classified(search, output).0 == Some(v) <==>
              exists i | 0 <= i < |VendorPatterns| ::
                VendorPatterns[i].0 == v && AnyHit(search, VendorPatterns[i].1, Text.Lower(output))
                && forall j | 0 <= j < i :: !AnyHit(search, VendorPatterns[j].1, Text.Lower(output))
    ensures Classified(search, output).0.None? <==>
              forall i | 0 <= i < |VendorPatterns| :: !AnyHit(search, VendorPatterns[i].1, Text.Lower(output))
    ensures Classified(search, output).0.None? ==> Classified(search, output).1.None?
  {
    var lower := Text.Lower(output);
    var r := VendorIndex(search, VendorPatterns, lower);
    if r.None? {
      FallbackUnreachable(search, output);
    } else {
      VendorNamesDistinct();
      forall i | 0 <= i < |VendorPatterns| && VendorPatterns[i].0 == v && AnyHit(search, VendorPatterns[i].1, lower)
                 && forall j | 0 <= j < i :: !AnyHit(search, VendorPatterns[j].1, lower)
        ensures i == r.value
      {
      }
    }
  }

  // ---------------- device type ----------------

  /** VENDOR_TO_DEVICE_TYPE for one vendor (Cisco is decided before the table is read). */
  function Subtypes(vendor: string): Option<seq<(string, string)>>
  {
    if vendor == "Cisco" then
      Some([("ios", "cisco_ios"), ("ios-xe", "cisco_xe"), ("ios-xr", "cisco_xr"), ("nx-os", "cisco_nxos"),
            ("asa", "cisco_asa"), ("s300", "cisco_s300"), ("wlc", "cisco_wlc"), ("ios-telnet", "cisco_ios_telnet"),
            ("xe-telnet", "cisco_xe_telnet")])
    else if vendor == "Juniper" then
      Some([("junos", "juniper"), ("junos-telnet", "juniper_telnet"), ("screenos", "juniper_screenos")])
    else if vendor == "HP/HPE/Aruba" then
      Some([("procurve", "hp_procurve"), ("comware", "hp_comware"), ("aruba", "aruba_osswitch"),
            ("procurve-telnet", "hp_procurve_telnet")])
    else if vendor == "MikroTik" then
      Some([("routeros", "mikrotik_routeros"), ("routeros-telnet", "mikrotik_routeros_telnet")])
    else if vendor == "Arista" then Some([("eos", "arista_eos"), ("eos-telnet", "arista_eos_telnet")])
    else if vendor == "Palo Alto" then Some([("pan-os", "paloalto_panos"), ("pan-os-telnet", "paloalto_panos_telnet")])
    else if vendor == "Fortinet" then Some([("fortios", "fortinet"), ("fortios-telnet", "fortinet_telnet")])
    else if vendor == "Ubiquiti" then Some([("edge", "ubiquiti_edge"), ("edgeswitch", "ubiquiti_edgeswitch")])
    else if vendor == "Linux" then Some([("linux", "linux"), ("linux-telnet", "linux_telnet")])
    else if vendor == "Huawei" then Some([("vrp", "huawei"), ("vrp-telnet", "huawei_telnet")])
    else if vendor == "Dell" then
      Some([("powerconnect", "dell_powerconnect"), ("force10", "dell_force10"), ("os6", "dell_os6"),
            ("os10", "dell_os10")])
    else None
  }

  /** The value of the first subtype whose key, with '-' read as ' ', occurs in the output. */
  function FirstSubtype(m: seq<(string, string)>, lower: string): (r: Option<string>)
    ensures r.Some? ==> exists k | 0 <= k < |m| :: r.value == m[k].1 && Text.Contains(lower, Text.ReplaceChar(m[k].0, '-', ' '))
                          && forall j | 0 <= j < k :: !Text.Contains(lower, Text.ReplaceChar(m[j].0, '-', ' '))
    ensures r.None? <==> forall k | 0 <= k < |m| :: !Text.Contains(lower, Text.ReplaceChar(m[k].0, '-', ' '))
    decreases |m|
  {
    if m == [] then None
    else if Text.Contains(lower, Text.ReplaceChar(m[0].0, '-', ' ')) then Some(m[0].1)
    else
      var r := FirstSubtype(m[1..], lower);
      if r.Some? then
        var k :| 0 <= k < |m[1..]| && r.value == m[1..][k].1 && Text.Contains(lower, Text.ReplaceChar(m[1..][k].0, '-', ' '))
                 && forall j | 0 <= j < k :: !Text.Contains(lower, Text.ReplaceChar(m[1..][j].0, '-', ' '));
        assert m[k + 1] == m[1..][k];
        assert forall j | 0 <= j < k + 1 :: !Text.Contains(lower, Text.ReplaceChar(m[j].0, '-', ' '));
        r
      else
        assert forall k | 1 <= k < |m| :: m[k] == m[1..][k - 1];
        r
  }

  /** determine_device_type */
  function DeviceType(vendor: Option<string>, output: string): (r: Option<string>)
    ensures vendor.None? || vendor == Some("") ==> r.None?
    ensures vendor.Some? && vendor.value != "Cisco" && Subtypes(vendor.value).None? ==> r.None?
  {
    if vendor.None? || vendor.value == "" then None
    else
      var lower := Text.Lower(output);
      if vendor.value == "Cisco" then Some(CiscoType(lower))
      else
        match Subtypes(vendor.value)
        case None => None
        case Some(m) =>
          match FirstSubtype(m, lower)
          case Some(t) => Some(t)
          case None => if m == [] then None else Some(m[0].1)
  }

  /** The Cisco chain: asa, then nexus or nx-os, then ios-xe, then ios-xr, else plain IOS. */
  function CiscoType(lower: string): (t: string)
    ensures t == "cisco_asa" <==> Text.Contains(lower, "asa")
    ensures t == "cisco_nxos" <==> !Text.Contains(lower, "asa") && (Text.Contains(lower, "nexus") || Text.Contains(lower, "nx-os"))
    ensures t == "cisco_xe" <==>
              !Text.Contains(lower, "asa") && !Text.Contains(lower, "nexus") && !Text.Contains(lower, "nx-os")
              && Text.Contains(lower, "ios-xe")
    ensures t == "cisco_xr" <==>
              !Text.Contains(lower, "asa") && !Text.Contains(lower, "nexus") && !Text.Contains(lower, "nx-os")
              && !Text.Contains(lower, "ios-xe") && Text.Contains(lower, "ios-xr")
    ensures t in {"cisco_asa", "cisco_nxos", "cisco_xe", "cisco_xr", "cisco_ios"}
  {
    if Text.Contains(lower, "asa") then "cisco_asa"
    else if Text.Contains(lower, "nexus") || Text.Contains(lower, "nx-os") then "cisco_nxos"
    else if Text.Contains(lower, "ios-xe") then "cisco_xe"
    else if Text.Contains(lower, "ios-xr") then "cisco_xr"
    else "cisco_ios"
  }

  /**
   * For a vendor of the table other than Cisco, the type is the value of the
   * first subtype key found in the output, or the first value of the map.
   */
  lemma MappedVendorType(vendor: string, output: string)
    requires vendor != "Cisco" && Subtypes(vendor).Some?
    ensures Subtypes(vendor).value != []
    ensures DeviceType(Some(vendor), output) ==
              match FirstSubtype(Subtypes(vendor).value, Text.Lower(output))
              case Some(t) => Some(t)
              case None => Some(Subtypes(vendor).value[0].1)
  {
  }

  /** Extreme, Brocade and Nokia are detected but get no device type. */
  lemma UnmappedVendors(output: string)
    ensures DeviceType(Some("Extreme"), output).None?
    ensures DeviceType(Some("Brocade"), output).None?
    ensures DeviceType(Some("Nokia"), output).None?
  {
  }

  /**
   * 'ubiquiti_edgeswitch' is never chosen: the key 'edge' comes first and is
   * part of 'edgeswitch', so it matches whenever 'edgeswitch' does.
   */
  lemma EdgeSwitchUnreachable(output: string)
    ensures DeviceType(Some("Ubiquiti"), output) != Some("ubiquiti_edgeswitch")
  {
    var lower := Text.Lower(output);
    var m := [("edge", "ubiquiti_edge"), ("edgeswitch", "ubiquiti_edgeswitch")];
    assert Subtypes("Ubiquiti") == Some(m);
    assert Text.ReplaceChar("edge", '-', ' ') == "edge";
    assert Text.ReplaceChar("edgeswitch", '-', ' ') == "edgeswitch";
    if Text.Contains(lower, "edgeswitch") {
      var i :| 0 <= i <= |lower| && Text.StartsWith(lower[i..], "edgeswitch");
      assert lower[i..][..4] == "edgeswitch"[..4] == "edge";
      assert Text.StartsWith(lower[i..], "edge");
    }
  }

  // ---------------- analysis ----------------

  /** The dictionary analyze_output returns. */
  datatype Analysis = Analysis(
    rawOutput: string,
    vendor: Option<string>,
    model: Option<string>,
    osVersion: Option<string>,
    serialNumber: Option<string>,
    deviceType: Option<string>)

  function Prefix(s: string, n: nat): (r: string)
    ensures |r| <= n && Text.StartsWith(s, r)
    ensures |s| <= n ==> r == s
  {
    if |s| <= n then s else s[..n]
  }

  /** Output too short to classify: empty, or fewer than ten characters once stripped. */
  predicate TooShort(output: string)
  {
    output == "" || |Text.Strip(output)| < 10
  }

  /** analyze_output, given the vendor and model detect_vendor answered. */
  function Analyze(search: Search, output: string, found: (Option<string>, Option<string>)): (r: Analysis)
    ensures r.rawOutput == Prefix(output, 1000)
    ensures TooShort(output) ==>
              r.vendor.None? && r.model.None? && r.osVersion.None? && r.serialNumber.None? && r.deviceType.None?
    ensures r.deviceType.Some? ==> r.vendor.Some?
  {
    if TooShort(output) then Analysis(Prefix(output, 1000), None, None, None, None, None)
    else
      var (vendor, model) := found;
      Analysis(Prefix(output, 1000), vendor, model, ExtractVersion(search, output), ExtractSerial(search, output),
               if vendor.Some? && vendor.value != "" then DeviceType(vendor, output) else None)
  }

  /** The cache key of an output: its first 500 characters. */
  function CacheKey(output: string): string
  {
    Prefix(output, 500)
  }

  /** Every cached answer is the classification of the output it was keyed by, and names a vendor. */
  ghost predicate CacheValid(search: Search, cache: map<string, (Option<string>, Option<string>)>, sources: map<string, string>)
  {
    forall k | k in cache ::
      k in sources && CacheKey(sources[k]) == k && cache[k] == Classified(search, sources[k]) && cache[k].0.Some?
  }

  /** Storing a classification that names a vendor under its output's key keeps the cache valid. */
  lemma StoreKeepsCacheValid(search: Search, cache: map<string, (Option<string>, Option<string>)>,
                             sources: map<string, string>, output: string)
    requires CacheValid(search, cache, sources) && Classified(search, output).0.Some?
    ensures CacheValid(search, cache[CacheKey(output) := Classified(search, output)], sources[CacheKey(output) := output])
  {
  }

  /** What detect_vendor answers against a given cache. */
  function Lookup(search: Search, cache: map<string, (Option<string>, Option<string>)>, output: string): (Option<string>, Option<string>)
  {
    if CacheKey(output) in cache then cache[CacheKey(output)] else Classified(search, output)
  }

  /** The cache after a detect_vendor call: a fresh answer that names a vendor is stored under the output's key. */
  function Remembered(search: Search, cache: map<string, (Option<string>, Option<string>)>, output: string)
    : (r: map<string, (Option<string>, Option<string>)>)
    ensures forall key | key in cache :: key in r && r[key] == cache[key]
    ensures forall key | key in r && key !in cache :: key == CacheKey(output) && r[key] == Classified(search, output)
    ensures CacheKey(output) in r <==> CacheKey(output) in cache || Classified(search, output).0.Some?
  {
    if CacheKey(output) in cache || Classified(search, output).0.None? then cache
    else cache[CacheKey(output) := Classified(search, output)]
  }

  /** The cache after analyze_output: a too-short output is never looked up. */
  function AnalyzedCache(search: Search, cache: map<string, (Option<string>, Option<string>)>, output: string)
    : (r: map<string, (Option<string>, Option<string>)>)
    ensures TooShort(output) ==> r == cache
    ensures !TooShort(output) ==> r == Remembered(search, cache, output)
  {
    if TooShort(output) then cache else Remembered(search, cache, output)
  }

  // ---------------- discovery over a session ----------------

  /** DISCOVERY_COMMANDS, tried in this order. */
  const DiscoveryCommands: seq<string> := [
    "show version", "show ver", "version", "display version", "cat /etc/os-release", "uname -a",
    "/system resource print", "get system status", "show system", "show inventory"
  ]

  /** What a session answers to one command: success flag and output, or an exception. */
  datatype Reply = Replied(ok: bool, output: string) | Raised

  /** Output worth classifying: a successful reply with more than ten characters once stripped. */
  predicate Usable(r: Reply)
  {
    r.Replied? && r.ok && r.output != "" && |Text.Strip(r.output)| > 10
  }

  /** How the command loop ends. */
  datatype Scan = Found(output: string) | Exhausted | Crashed

  /** The command loop: the first usable reply, the end of the list, or the first exception. */
  function ScanCommands(session: string -> Reply, cmds: seq<string>): (r: Scan)
    decreases |cmds|
  {
    if cmds == [] then Exhausted
    else
      var reply := session(cmds[0]);
      if reply.Raised? then Crashed
      else if Usable(reply) then Found(reply.output)
      else ScanCommands(session, cmds[1..])
  }

  /** A command the loop passes over: it answered, with nothing worth classifying. */
  predicate Skipped(reply: Reply)
  {
    reply.Replied? && !Usable(reply)
  }

  /**
   * The loop classifies the reply to the first command whose reply is
   * usable, all earlier commands having answered.
   */
  lemma {:induction false} ScanFindsFirst(session: string -> Reply, cmds: seq<string>) returns (k: nat)
    requires ScanCommands(session, cmds).Found?
    ensures k < |cmds| && Usable(session(cmds[k])) && session(cmds[k]).output == ScanCommands(session, cmds).output
    ensures forall j | 0 <= j < k :: Skipped(session(cmds[j]))
    decreases |cmds|
  {
    if Skipped(session(cmds[0])) {
      var rest := cmds[1..];
      assert ScanCommands(session, cmds) == ScanCommands(session, rest);
      var i := ScanFindsFirst(session, rest);
      k := i + 1;
      assert cmds[k] == rest[i];
      assert forall j | 0 <= j < k :: Skipped(session(cmds[j])) by {
        forall j | 0 < j < k
          ensures Skipped(session(cmds[j]))
        {
          assert cmds[j] == rest[j - 1];
        }
      }
    } else {
      k := 0;
    }
  }

  /** The loop runs out exactly when every command answered with nothing usable. */
  lemma {:induction false} ScanExhausted(session: string -> Reply, cmds: seq<string>)
    ensures ScanCommands(session, cmds).Exhausted? <==> forall k | 0 <= k < |cmds| :: Skipped(session(cmds[k]))
    decreases |cmds|
  {
    if cmds != [] {
      if Skipped(session(cmds[0])) {
        ScanExhausted(session, cmds[1..]);
        assert forall k | 1 <= k < |cmds| :: cmds[k] == cmds[1..][k - 1];
      } else {
        assert !Skipped(session(cmds[0]));
      }
    }
  }

  /** What discover_via_ssh / discover_via_telnet return: the analysis plus a hostname. */
  datatype DeviceInfo = DeviceInfo(analysis: Analysis, hostname: string)

  /** The result of a discovery session, given the detector's cache when it starts. */
  function Discovered(search: Search, cache: map<string, (Option<string>, Option<string>)>, ip: string,
                      connected: bool, session: string -> Reply): (r: Option<DeviceInfo>)
    ensures !connected ==> r.None?
  {
    if !connected then None
    else
      match ScanCommands(session, DiscoveryCommands)
      case Found(output) =>
        (match session("hostname")
         case Raised => None
         case Replied(ok, h) =>
           Some(DeviceInfo(Analyze(search, output, Lookup(search, cache, output)),
                           if ok && h != "" then Text.Strip(h) else ip)))
      case _ => None
  }

  /**
   * A discovered device was classified from the first usable reply in
   * command order, and its hostname is the stripped 'hostname' reply or the
   * address itself.
   */
  lemma DiscoveredFromFirstReply(search: Search, cache: map<string, (Option<string>, Option<string>)>, ip: string,
                                 session: string -> Reply)
    requires Discovered(search, cache, ip, true, session).Some?
    ensures var info := Discovered(search, cache, ip, true, session).value;
            exists k | 0 <= k < |DiscoveryCommands| ::
              Usable(session(DiscoveryCommands[k]))
              && info.analysis == Analyze(search, session(DiscoveryCommands[k]).output,
                                          Lookup(search, cache, session(DiscoveryCommands[k]).output))
              && forall j | 0 <= j < k :: Skipped(session(DiscoveryCommands[j]))
    ensures var info := Discovered(search, cache, ip, true, session).value;
            info.hostname == ip || (session("hostname").ok && info.hostname == Text.Strip(session("hostname").output))
  {
    var k := ScanFindsFirst(session, DiscoveryCommands);
  }

  // ---------------- the detector object ----------------

  class DeviceDetector {
    /** Python's regex engine. */
    const search: Search
    /** self.cache: cache key to (vendor, model). */
    var cache: map<string, (Option<string>, Option<string>)>
    /** For each cached key, an output it was computed from. */
    ghost var sources: map<string, string>

    /** Every cached answer is the classification of an output with that key, and names a vendor. */
    ghost predicate Valid()
      reads this
    {
      CacheValid(search, cache, sources)
    }

    constructor(search: Search)
      ensures Valid() && this.search == search && cache == map[]
    {
      this.search := search;
      cache := map[];
      sources := map[];
    }

    /** detect_vendor: the cached answer for the key, or a fresh classification, stored when it names a vendor. */
    method DetectVendor(output: string) returns (vendor: Option<string>, model: Option<string>)
      requires Valid()
      modifies this
      ensures Valid()
      ensures (vendor, model) == Lookup(search, old(cache), output)
      ensures cache == if CacheKey(output) in old(cache) || vendor.None? then old(cache)
                       else old(cache)[CacheKey(output) := (vendor, model)]
      ensures cache == Remembered(search, old(cache), output)
    {
      var key := CacheKey(output);
      if key in cache {
        return cache[key].0, cache[key].1;
      }
      vendor := VendorName(search, output);
      ClassifiedModel(search, output);
      model := None;
      if vendor.Some? {
        model := ExtractModel(search, output, vendor.value);
        StoreKeepsCacheValid(search, cache, sources, output);
        cache := cache[key := (vendor, model)];
        sources := sources[key := output];
      }
    }

    /** analyze_output: a too-short output is not looked up, so it leaves the cache alone. */
    method AnalyzeOutput(output: string) returns (a: Analysis)
      requires Valid()
      modifies this
      ensures Valid()
      ensures a == Analyze(search, output, Lookup(search, old(cache), output))
      ensures cache == AnalyzedCache(search, old(cache), output)
    {
      a := Analysis(Prefix(output, 1000), None, None, None, None, None);
      if TooShort(output) {
        return;
      }
      var vendor, model := DetectVendor(output);
      a := a.(vendor := vendor, model := model);
      a := a.(osVersion := ExtractVersion(search, output));
      a := a.(serialNumber := ExtractSerial(search, output));
      if vendor.Some? && vendor.value != "" {
        a := a.(deviceType := DeviceType(vendor, output));
      }
    }

    /**
     * discover_via_ssh and discover_via_telnet: the two differ only in the
     * client, so one method takes whether the login worked and the
     * session's answer to each command.  Any exception gives None.
     */
    method Discover(ip: string, connected: bool, session: string -> Reply) returns (r: Option<DeviceInfo>)
      requires Valid()
      modifies this
      ensures Valid()
      ensures r == Discovered(search, old(cache), ip, connected, session)
      ensures cache == if connected && ScanCommands(session, DiscoveryCommands).Found?
                       then AnalyzedCache(search, old(cache), ScanCommands(session, DiscoveryCommands).output)
                       else old(cache)
    {
      if !connected {
        return None;
      }
      var scan := FirstUsable(session, DiscoveryCommands);
      if !scan.Found? {
        return None;
      }
      var info := AnalyzeOutput(scan.output);
      match session("hostname")
      case Raised =>
        return None;
      case Replied(ok, h) =>
        return Some(DeviceInfo(info, if ok && h != "" then Text.Strip(h) else ip));
    }
  }

  /** The command loop of discover_via_*: stop at the first usable reply or the first exception. */
  method FirstUsable(session: string -> Reply, cmds: seq<string>) returns (scan: Scan)
    ensures scan == ScanCommands(session, cmds)
  {
    var i := 0;
    while i < |cmds|
      invariant 0 <= i <= |cmds|
      invariant ScanCommands(session, cmds) == ScanCommands(session, cmds[i..])
    {
      assert cmds[i..][1..] == cmds[i + 1..];
      var reply := session(cmds[i]);
      if reply.Raised? {
        return Crashed;
      }
      if reply.ok && reply.output != "" && |Text.Strip(reply.output)| > 10 {
        return Found(reply.output);
      }
      i := i + 1;
    }
    return Exhausted;
  }

  /** The vendor half of detect_vendor: the table loop, then the keyword fallback. */
  method VendorName(search: Search, output: string) returns (vendor: Option<string>)
    ensures vendor == Classified(search, output).0
  {
    var lower := Text.Lower(output);
    var index := FirstVendor(search, VendorPatterns, lower);
    if index.Some? {
      vendor := Some(VendorPatterns[index.value].0);
    } else if Text.Contains(lower, "cisco") {
      vendor := Some("Cisco");
    } else if Text.Contains(lower, "juniper") {
      vendor := Some("Juniper");
    } else if Text.Contains(lower, "mikrotik") {
      vendor := Some("MikroTik");
    } else if Text.Contains(lower, "linux") {
      vendor := Some("Linux");
    } else {
      vendor := None;
    }
  }

  /** The model is looked for only once a vendor is known, with that vendor's patterns. */
  lemma ClassifiedModel(search: Search, output: string)
    ensures Classified(search, output).1 ==
              if Classified(search, output).0.Some? then ExtractModel(search, output, Classified(search, output).0.value)
              else None
  {
  }

  /** The first table entry with a matching pattern: the nested loop of detect_vendor. */
  method FirstVendor(search: Search, table: seq<(string, seq<Pat>)>, lower: string) returns (r: Option<nat>)
    ensures r == VendorIndex(search, table, lower)
  {
    var i := 0;
    while i < |table|
      invariant 0 <= i <= |table|
      invariant forall j | 0 <= j < i :: !AnyHit(search, table[j].1, lower)
    {
      var patterns := table[i].1;
      var k := 0;
      while k < |patterns|
        invariant 0 <= k <= |patterns|
        invariant forall q | 0 <= q < k :: !Hits(search, patterns[q], lower)
      {
        if Hits(search, patterns[k], lower) {
          return Some(i);
        }
        k := k + 1;
      }
      i := i + 1;
    }
    return None;
  }

  /**
   * A cached answer is exact for an output shorter than 500 characters: the
   * key is then the whole output.  For longer outputs the cache answers for
   * any earlier output sharing the first 500 characters.
   */
  lemma CacheExactForShortOutput(d: DeviceDetector, output: string)
    requires d.Valid() && |output| < 500
    ensures Lookup(d.search, d.cache, output) == Classified(d.search, output)
  {
    var key := CacheKey(output);
    if key in d.cache {
      var s := d.sources[key];
      assert CacheKey(s) == output;
      assert s == output;
    }
  }
}
