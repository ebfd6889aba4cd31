/**
 * The inventory builders of inventory/saver.py: the CSV rows, the Netmiko
 * inventory split by protocol, the Ansible inventory with its host groups,
 * and the counters of the text report. Each works on `devices.values()`,
 * given here as the sequence of device records in map order; serialising
 * and writing the files is not modelled.
 */
module Saver {
  import opened Wrappers
  import Text
  import Dict
  import Counter
  import opened Device
  import Engine

  // ---------------- CSV ----------------

  datatype CsvRow = CsvRow(
    ipAddress: string,
    hostname: string,
    deviceType: string,
    vendor: string,
    model: string,
    osVersion: string,
    serialNumber: string,
    protocol: string,
    username: string,
    sshPort: int,
    telnetPort: int,
    status: string,
    lastSeen: string)

  /** The row save_csv writes for a device: a missing optional text is written empty. */
  function CsvRowOf(d: Device): (r: CsvRow)
    ensures r.hostname == d.hostname.GetOr("") && r.deviceType == d.deviceType.GetOr("")
    ensures r.vendor == d.vendor.GetOr("") && r.model == d.model.GetOr("")
    ensures r.osVersion == d.osVersion.GetOr("") && r.serialNumber == d.serialNumber.GetOr("")
    ensures r.username == d.username.GetOr("")
    ensures r.ipAddress == d.ip && r.protocol == d.protocol && r.status == d.status && r.lastSeen == d.lastSeen
    ensures r.sshPort == d.sshPort && r.telnetPort == d.telnetPort
  {
    CsvRow(d.ip, OrElse(d.hostname, ""), OrElse(d.deviceType, ""), OrElse(d.vendor, ""), OrElse(d.model, ""),
           OrElse(d.osVersion, ""), OrElse(d.serialNumber, ""), d.protocol, OrElse(d.username, ""),
           d.sshPort, d.telnetPort, d.status, d.lastSeen)
  }

  /** save_csv's rows, one per device in order. */
  method CsvRows(devs: seq<Device>) returns (rows: seq<CsvRow>)
    ensures |rows| == |devs|
    ensures forall i | 0 <= i < |devs| :: rows[i] == CsvRowOf(devs[i])
  {
    rows := [];
    for i := 0 to |devs|
      invariant |rows| == i
      invariant forall j | 0 <= j < i :: rows[j] == CsvRowOf(devs[j])
    {
      rows := rows + [CsvRowOf(devs[i])];
    }
  }

  // ---------------- Netmiko ----------------

  /** A Netmiko entry: the device's connection parameters, named by hostname or else by address. */
  function NetmikoEntry(d: Device): (r: NetmikoConfig)
    ensures r == ToNetmikoConfig(d).(name := r.name)
    ensures r.name.Some?
    ensures Truthy(d.hostname) ==> r.name.value == d.hostname.value
    ensures !Truthy(d.hostname) ==> r.name.value == d.ip
  {
    ToNetmikoConfig(d).(name := Some(OrElse(d.hostname, d.ip)))
  }

  datatype NetmikoInventory = NetmikoInventory(
    sshDevices: seq<NetmikoConfig>,
    telnetDevices: seq<NetmikoConfig>,
    allDevices: seq<NetmikoConfig>)

  /** The devices using `protocol`, in order. */
  function Using(devs: seq<Device>, protocol: string): (r: seq<Device>)
    ensures |r| == Engine.ProtocolCount(devs, protocol)
    ensures forall d :: d in r <==> d in devs && d.protocol == protocol
    decreases |devs|
  {
    if devs == [] then []
    else Using(devs[..|devs| - 1], protocol)
         + (if devs[|devs| - 1].protocol == protocol then [devs[|devs| - 1]] else [])
  }

  function Entries(devs: seq<Device>): (r: seq<NetmikoConfig>)
    ensures |r| == |devs| && forall i | 0 <= i < |devs| :: r[i] == NetmikoEntry(devs[i])
  {
    seq(|devs|, i requires 0 <= i < |devs| => NetmikoEntry(devs[i]))
  }

  /** Growing the prefix by one device adds its entry at the end. */
  lemma EntriesStep(devs: seq<Device>, i: int)
    requires 0 <= i < |devs|
    ensures Entries(devs[..i + 1]) == Entries(devs[..i]) + [NetmikoEntry(devs[i])]
  {
    assert devs[..i + 1] == devs[..i] + [devs[i]];
    EntriesAppend(devs[..i], devs[i]);
  }

  /** Growing the prefix by one device adds it to the devices using its protocol. */
  lemma UsingStep(devs: seq<Device>, i: int, protocol: string)
    requires 0 <= i < |devs|
    ensures Using(devs[..i + 1], protocol)
            == Using(devs[..i], protocol) + (if devs[i].protocol == protocol then [devs[i]] else [])
  {
    assert devs[..i + 1][..i] == devs[..i];
  }

  lemma EntriesAppend(devs: seq<Device>, d: Device)
    ensures Entries(devs + [d]) == Entries(devs) + [NetmikoEntry(d)]
  {
  }

  /**
   * save_netmiko_inventory: every device is in all_devices; the ssh and
   * telnet lists hold the devices using that protocol, in order, and a
   * device using any other protocol is only in all_devices.
   */
  method NetmikoInventoryOf(devs: seq<Device>) returns (inv: NetmikoInventory)
    ensures inv.allDevices == Entries(devs)
    ensures inv.sshDevices == Entries(Using(devs, "ssh"))
    ensures inv.telnetDevices == Entries(Using(devs, "telnet"))
  {
    inv := NetmikoInventory([], [], []);
    for i := 0 to |devs|
      invariant inv.allDevices == Entries(devs[..i])
      invariant inv.sshDevices == Entries(Using(devs[..i], "ssh"))
      invariant inv.telnetDevices == Entries(Using(devs[..i], "telnet"))
    {
      var d := devs[i];
      var config := NetmikoEntry(d);
      EntriesStep(devs, i);
      UsingStep(devs, i, "ssh");
      UsingStep(devs, i, "telnet");
      EntriesAppend(Using(devs[..i], "ssh"), d);
      EntriesAppend(Using(devs[..i], "telnet"), d);
      inv := inv.(allDevices := inv.allDevices + [config]);
      if d.protocol == "ssh" {
        inv := inv.(sshDevices := inv.sshDevices + [config]);
      } else if d.protocol == "telnet" {
        inv := inv.(telnetDevices := inv.telnetDevices + [config]);
      }
    }
    assert devs[..|devs|] == devs;
  }

  /** The ssh and telnet lists together hold no more entries than all_devices. */
  lemma NetmikoSplit(devs: seq<Device>)
    ensures |Entries(Using(devs, "ssh"))| + |Entries(Using(devs, "telnet"))| <= |Entries(devs)|
  {
    Engine.ProtocolCountsDisjoint(devs);
  }

  // ---------------- Ansible ----------------

  /** The variables of one Ansible host. */
  datatype HostVars = HostVars(
    ansibleHost: string,
    ansibleUser: Option<string>,
    ansibleSshPass: Option<string>,
    ansibleBecomePass: Option<string>,
    ansibleNetworkOs: Option<string>,
    ansiblePort: int,
    deviceVendor: Option<string>,
    deviceModel: Option<string>,
    deviceOsVersion: Option<string>,
    deviceProtocol: string)

  /**
   * The `all` section: the hosts, and the child groups, each the list of its
   * host names in the order they were first added.
   */
  datatype AnsibleInventory = AnsibleInventory(
    hosts: Dict.Dict<string, HostVars>,
    children: Dict.Dict<string, seq<string>>)

  /** The name a device is listed under: its hostname, or its address. */
  function HostKey(d: Device): string
  {
    OrElse(d.hostname, d.ip)
  }

  function HostVarsOf(d: Device): (r: HostVars)
    ensures r.ansiblePort == if d.protocol == "ssh" then d.sshPort else d.telnetPort
    ensures r.ansibleHost == d.ip && r.deviceProtocol == d.protocol
  {
    HostVars(d.ip, d.username, d.password, d.enablePassword, d.deviceType,
             if d.protocol == "ssh" then d.sshPort else d.telnetPort,
             d.vendor, d.model, d.osVersion, d.protocol)
  }

  /** The vendor group: lower case, with '/' and ' ' turned into '_'. */
  function VendorGroup(vendor: string): (r: string)
    ensures |r| == |vendor| && '/' !in r && ' ' !in r
  {
    Text.ReplaceChar(Text.ReplaceChar(Text.Lower(vendor), '/', '_'), ' ', '_')
  }

  /** The device-type group: lower case, with '_' turned into '-'. */
  function TypeGroup(deviceType: string): (r: string)
    ensures |r| == |deviceType| && '_' !in r
  {
    Text.ReplaceChar(Text.Lower(deviceType), '_', '-')
  }

  function ProtocolGroup(protocol: string): (r: string)
  {
    protocol + "_devices"
  }

  /** The groups a device joins: vendor, type and protocol, each only when it is set. */
  function GroupsOf(d: Device): (r: seq<string>)
    ensures |r| <= 3
  {
    (if Truthy(d.vendor) then [VendorGroup(d.vendor.value)] else [])
    + (if Truthy(d.deviceType) then [TypeGroup(d.deviceType.value)] else [])
    + (if d.protocol != "" then [ProtocolGroup(d.protocol)] else [])
  }

  /** children[group]['hosts'][host] = {}, creating the group when it is new. */
  function Join(children: Dict.Dict<string, seq<string>>, group: string, host: string): Dict.Dict<string, seq<string>>
  {
    var members := Dict.Get(children, group).GetOr([]);
    Dict.Put(children, group, if host in members then members else members + [host])
  }

  function JoinAll(children: Dict.Dict<string, seq<string>>, groups: seq<string>, host: string)
    : Dict.Dict<string, seq<string>>
    decreases |groups|
  {
    if groups == [] then children else JoinAll(Join(children, groups[0], host), groups[1..], host)
  }

  /** One device added to the inventory. */
  function AddHost(inv: AnsibleInventory, d: Device): AnsibleInventory
  {
    AnsibleInventory(Dict.Put(inv.hosts, HostKey(d), HostVarsOf(d)), JoinAll(inv.children, GroupsOf(d), HostKey(d)))
  }

  function AnsibleOf(devs: seq<Device>): AnsibleInventory
    decreases |devs|
  {
    if devs == [] then AnsibleInventory([], [])
    else AddHost(AnsibleOf(devs[..|devs| - 1]), devs[|devs| - 1])
  }

  /** save_ansible_inventory's in-memory inventory. */
  method AnsibleInventoryOf(devs: seq<Device>) returns (inv: AnsibleInventory)
    ensures inv == AnsibleOf(devs)
  {
    var hosts: Dict.Dict<string, HostVars> := [];
    var children: Dict.Dict<string, seq<string>> := [];
    for i := 0 to |devs|
      invariant AnsibleInventory(hosts, children) == AnsibleOf(devs[..i])
    {
      var d := devs[i];
      var hostname := HostKey(d);
      hosts := Dict.Put(hosts, hostname, HostVarsOf(d));
      ghost var before := children;
      if Truthy(d.vendor) {
        children := Join(children, VendorGroup(d.vendor.value), hostname);
      }
      if Truthy(d.deviceType) {
        children := Join(children, TypeGroup(d.deviceType.value), hostname);
      }
      if d.protocol != "" {
        children := Join(children, ProtocolGroup(d.protocol), hostname);
      }
      JoinAllSteps(before, d, hostname);
      assert devs[..i + 1][..i] == devs[..i];
    }
    assert devs[..|devs|] == devs;
    return AnsibleInventory(hosts, children);
  }

  /** Joining the device's groups one by one, each only when it is set, is joining GroupsOf. */
  lemma JoinAllSteps(c: Dict.Dict<string, seq<string>>, d: Device, host: string)
    ensures JoinAll(c, GroupsOf(d), host)
            == var c1 := if Truthy(d.vendor) then Join(c, VendorGroup(d.vendor.value), host) else c;
               var c2 := if Truthy(d.deviceType) then Join(c1, TypeGroup(d.deviceType.value), host) else c1;
               if d.protocol != "" then Join(c2, ProtocolGroup(d.protocol), host) else c2
  {
    var v := if Truthy(d.vendor) then [VendorGroup(d.vendor.value)] else [];
    var t := if Truthy(d.deviceType) then [TypeGroup(d.deviceType.value)] else [];
    var p := if d.protocol != "" then [ProtocolGroup(d.protocol)] else [];
    JoinAllAppend(c, v, t + p, host);
    JoinAllAppend(JoinAll(c, v, host), t, p, host);
    assert GroupsOf(d) == v + (t + p);
  }

  lemma {:induction false} JoinAllAppend(c: Dict.Dict<string, seq<string>>, a: seq<string>, b: seq<string>, host: string)
    ensures JoinAll(c, a + b, host) == JoinAll(JoinAll(c, a, host), b, host)
    decreases |a|
  {
    if a != [] {
      assert (a + b)[0] == a[0] && (a + b)[1..] == a[1..] + b;
      JoinAllAppend(Join(c, a[0], host), a[1..], b, host);
    } else {
      assert a + b == b;
    }
  }

  /** The variables stored under a host name: those of the last device listed under that name, or none. */
  function LastVars(devs: seq<Device>, key: string): Option<HostVars>
    decreases |devs|
  {
    if devs == [] then None
    else if HostKey(devs[|devs| - 1]) == key then Some(HostVarsOf(devs[|devs| - 1]))
    else LastVars(devs[..|devs| - 1], key)
  }

  /**
   * A later device listed under the same name overwrites the earlier one:
   * each host name holds the variables of the last device listed under it.
   */
  lemma {:induction false} AnsibleHostsLast(devs: seq<Device>, key: string)
    ensures Dict.UniqueKeys(AnsibleOf(devs).hosts)
    ensures Dict.Get(AnsibleOf(devs).hosts, key) == LastVars(devs, key)
    decreases |devs|
  {
    if devs != [] {
      var front := devs[..|devs| - 1];
      var d := devs[|devs| - 1];
      AnsibleHostsLast(front, key);
      AnsibleHostsLast(front, HostKey(d));
      var h := AnsibleOf(front).hosts;
      Dict.PutUnique(h, HostKey(d), HostVarsOf(d));
      if HostKey(d) == key {
        Dict.GetPutSame(h, key, HostVarsOf(d));
      } else {
        Dict.GetPutOther(h, HostKey(d), HostVarsOf(d), key);
      }
    }
  }

  /** The hosts of a group. */
  function Members(inv: AnsibleInventory, group: string): seq<string>
  {
    Dict.Get(inv.children, group).GetOr([])
  }

  lemma JoinMembers(c: Dict.Dict<string, seq<string>>, group: string, host: string, g: string, h: string)
    requires Dict.UniqueKeys(c)
    ensures Dict.UniqueKeys(Join(c, group, host))
    ensures h in Dict.Get(Join(c, group, host), g).GetOr([])
            <==> h in Dict.Get(c, g).GetOr([]) || (g == group && h == host)
  {
    var members := Dict.Get(c, group).GetOr([]);
    var m := if host in members then members else members + [host];
    Dict.PutUnique(c, group, m);
    if g == group {
      Dict.GetPutSame(c, group, m);
    } else {
      Dict.GetPutOther(c, group, m, g);
    }
  }

  lemma {:induction false} JoinAllMembers(c: Dict.Dict<string, seq<string>>, groups: seq<string>, host: string,
                                          g: string, h: string)
    requires Dict.UniqueKeys(c)
    ensures Dict.UniqueKeys(JoinAll(c, groups, host))
    ensures h in Dict.Get(JoinAll(c, groups, host), g).GetOr([])
            <==> h in Dict.Get(c, g).GetOr([]) || (g in groups && h == host)
    decreases |groups|
  {
    if groups != [] {
      JoinMembers(c, groups[0], host, g, h);
      JoinAllMembers(Join(c, groups[0], host), groups[1..], host, g, h);
      assert g in groups <==> g == groups[0] || g in groups[1..];
    }
  }

  /** Some device listed under `h` joined group `g`. */
  predicate JoinedBy(devs: seq<Device>, g: string, h: string)
  {
    exists i | 0 <= i < |devs| :: HostKey(devs[i]) == h && g in GroupsOf(devs[i])
  }

  lemma JoinedByStep(devs: seq<Device>, g: string, h: string)
    requires devs != []
    ensures JoinedBy(devs, g, h) <==> JoinedBy(devs[..|devs| - 1], g, h)
                                      || (HostKey(devs[|devs| - 1]) == h && g in GroupsOf(devs[|devs| - 1]))
  {
    var front := devs[..|devs| - 1];
    if JoinedBy(devs, g, h) {
      var i :| 0 <= i < |devs| && HostKey(devs[i]) == h && g in GroupsOf(devs[i]);
      if i < |front| {
        assert front[i] == devs[i];
      }
    }
    if JoinedBy(front, g, h) {
      var i :| 0 <= i < |front| && HostKey(front[i]) == h && g in GroupsOf(front[i]);
      assert devs[i] == front[i];
    }
  }

  /** A group lists exactly the host names of the devices that joined it. */
  lemma {:induction false} AnsibleGroups(devs: seq<Device>, g: string, h: string)
    ensures Dict.UniqueKeys(AnsibleOf(devs).children)
    ensures h in Members(AnsibleOf(devs), g) <==> JoinedBy(devs, g, h)
    decreases |devs|
  {
    if devs != [] {
      var front := devs[..|devs| - 1];
      var d := devs[|devs| - 1];
      AnsibleGroups(front, g, h);
      JoinAllMembers(AnsibleOf(front).children, GroupsOf(d), HostKey(d), g, h);
      JoinedByStep(devs, g, h);
    }
  }

  // ---------------- report counters ----------------

  datatype ReportCounts = ReportCounts(
    vendors: Counter.Counts<string>,
    deviceTypes: Counter.Counts<string>,
    ssh: nat,
    telnet: nat)

  /**
   * save_report's statistics: vendors (or 'Неизвестно') and device types
   * (or 'unknown') counted per device, protocols counted only for ssh and
   * telnet. The tables are those of the discovery statistics.
   */
  method ReportCountsOf(devs: seq<Device>) returns (r: ReportCounts)
    ensures r.vendors == Counter.Tally([], Engine.VendorKeys(devs))
    ensures r.deviceTypes == Counter.Tally([], Engine.TypeKeys(devs))
    ensures r.ssh == Engine.ProtocolCount(devs, "ssh") && r.telnet == Engine.ProtocolCount(devs, "telnet")
  {
    var vendors: Counter.Counts<string> := [];
    var deviceTypes: Counter.Counts<string> := [];
    var ssh, telnet := 0, 0;
    ghost var vendorKeys, typeKeys := Engine.VendorKeys(devs), Engine.TypeKeys(devs);
    for i := 0 to |devs|
      invariant vendors == Counter.Tally([], vendorKeys[..i])
      invariant deviceTypes == Counter.Tally([], typeKeys[..i])
      invariant ssh == Engine.ProtocolCount(devs[..i], "ssh") && telnet == Engine.ProtocolCount(devs[..i], "telnet")
    {
      var d := devs[i];
      var vendor := OrElse(d.vendor, Engine.UnknownVendor);
      var deviceType := OrElse(d.deviceType, Engine.UnknownType);
      Counter.TallyStep([], vendorKeys, i);
      Counter.TallyStep([], typeKeys, i);
      vendors := Counter.Bump(vendors, vendor);
      deviceTypes := Counter.Bump(deviceTypes, deviceType);
      assert devs[..i + 1][..i] == devs[..i];
      if d.protocol == "ssh" {
        ssh := ssh + 1;
      } else if d.protocol == "telnet" {
        telnet := telnet + 1;
      }
    }
    assert devs[..|devs|] == devs;
    assert vendorKeys[..|devs|] == vendorKeys && typeKeys[..|devs|] == typeKeys;
    return ReportCounts(vendors, deviceTypes, ssh, telnet);
  }

  /** The report's vendor and type counts each sum to the number of devices, and its protocol counts to at most that. */
  lemma ReportSums(devs: seq<Device>)
    ensures Counter.Total(Counter.Tally([], Engine.VendorKeys(devs))) == |devs|
    ensures Counter.Total(Counter.Tally([], Engine.TypeKeys(devs))) == |devs|
    ensures Engine.ProtocolCount(devs, "ssh") + Engine.ProtocolCount(devs, "telnet") <= |devs|
  {
    Counter.TallyTotal([], Engine.VendorKeys(devs));
    Counter.TallyTotal([], Engine.TypeKeys(devs));
    Engine.ProtocolCountsDisjoint(devs);
  }
}
