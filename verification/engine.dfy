/**
 * The discovery engine (network_discovery/discovery/engine.py): the
 * per-host prober that tries SSH credentials and then Telnet credentials,
 * the capability list of a host, the IP-keyed map of discovered devices,
 * and the statistics and filters over that map.
 *
 * The transports are abstract: an `Attempt` says, for one credential, what
 * the detector's SSH (or Telnet) discovery session returned.  The worker
 * pool is a sequential loop over the addresses.
 */
module Engine {
  import opened Wrappers
  import Text
  import opened Dict
  import Counter
  import opened Address
  import opened Device
  import Protocols
  import Detector

  /** One discovery session per credential: the device information, or None when it failed. */
  type Attempt = Credentials -> Option<Detector.DeviceInfo>

  /** What probing one host gives: a device, None, or an exception (the factory's ValueError). */
  type Outcome = Result<Option<Device>, string>

  // ---------------- capabilities ----------------

  /** The protocols _get_capabilities reports, in the order it reports them. */
  const CapabilityOrder: seq<string> := ["ssh", "telnet", "http", "https", "snmp", "netconf", "ftp", "tftp"]

  /** `a` is `b` with some elements left out, the rest in order. */
  predicate IsSubsequence<T(==)>(a: seq<T>, b: seq<T>)
    decreases |b|
  {
    a == [] || (b != [] && ((a[0] == b[0] && IsSubsequence(a[1..], b[1..])) || IsSubsequence(a, b[1..])))
  }

  /** The names whose protocol flag is set, in list order. */
  function Keep(names: seq<string>, info: Protocols.ProtocolInfo): (r: seq<string>)
    ensures forall n :: n in r <==> n in names && Protocols.Flag(info, n)
    ensures IsSubsequence(r, names)
    decreases |names|
  {
    if names == [] then []
    else if Protocols.Flag(info, names[0]) then [names[0]] + Keep(names[1..], info)
    else Keep(names[1..], info)
  }

  /** _get_capabilities: the sublist of CapabilityOrder whose flags are true. */
  function Capabilities(info: Protocols.ProtocolInfo): (r: seq<string>)
    ensures forall n :: n in r <==> n in CapabilityOrder && Protocols.Flag(info, n)
    ensures IsSubsequence(r, CapabilityOrder)
  {
    Keep(CapabilityOrder, info)
  }

  // ---------------- probing one host ----------------

  /** The first credential, in list order, whose attempt succeeds, with what it returned. */
  function FirstSuccess(attempt: Attempt, creds: seq<Credentials>): (r: Option<(Credentials, Detector.DeviceInfo)>)
    ensures r.None? <==> forall i | 0 <= i < |creds| :: attempt(creds[i]).None?
    ensures r.Some? ==> exists i | 0 <= i < |creds| :: creds[i] == r.value.0 && attempt(creds[i]) == Some(r.value.1)
                          && forall j | 0 <= j < i :: attempt(creds[j]).None?
    decreases |creds|
  {
    if creds == [] then None
    else if attempt(creds[0]).Some? then Some((creds[0], attempt(creds[0]).value))
    else
      var r := FirstSuccess(attempt, creds[1..]);
      if r.Some? then
        var k :| 0 <= k < |creds[1..]| && creds[1..][k] == r.value.0 && attempt(creds[1..][k]) == Some(r.value.1)
                 && forall j | 0 <= j < k :: attempt(creds[1..][j]).None?;
        assert creds[k + 1] == r.value.0 && attempt(creds[k + 1]) == Some(r.value.1);
        assert forall j | 0 <= j < k + 1 :: attempt(creds[j]).None?;
        r
      else
        assert forall k | 1 <= k < |creds| :: creds[k] == creds[1..][k - 1];
        r
  }

  /** `i` is the first credential whose attempt succeeds. */
  predicate FirstAt(attempt: Attempt, creds: seq<Credentials>, i: int)
  {
    0 <= i < |creds| && attempt(creds[i]).Some? && forall j | 0 <= j < i :: attempt(creds[j]).None?
  }

  /** FirstSuccess picks exactly the first succeeding credential. */
  lemma FirstSuccessAt(attempt: Attempt, creds: seq<Credentials>, i: int)
    requires FirstAt(attempt, creds, i)
    ensures FirstSuccess(attempt, creds) == Some((creds[i], attempt(creds[i]).value))
  {
    var r := FirstSuccess(attempt, creds);
    var k :| 0 <= k < |creds| && creds[k] == r.value.0 && attempt(creds[k]) == Some(r.value.1)
             && forall j | 0 <= j < k :: attempt(creds[j]).None?;
    assert k == i;
  }

  /** The factory call for a successful session over `protocol`. */
  function Build(x: V6Syntax, ip: string, info: Protocols.ProtocolInfo, protocol: string, c: Credentials,
                 d: Detector.DeviceInfo, now: string): (r: Outcome)
    ensures r.Success? <==> ParseAddr(x, ip).Some?
    ensures r.Success? ==> r.value.Some? && r.value.value.protocol == protocol
                           && r.value.value.username == Some(c.username)
                           && r.value.value.password == Some(c.password)
                           && r.value.value.capabilities == Capabilities(info)
                           && r.value.value.hostname == Some(d.hostname)
                           && r.value.value.vendor == d.analysis.vendor
                           && r.value.value.deviceType == d.analysis.deviceType
                           && r.value.value.model == d.analysis.model
                           && r.value.value.osVersion == d.analysis.osVersion
                           && r.value.value.serialNumber == d.analysis.serialNumber
    requires protocol == "ssh" || protocol == "telnet"
  {
    var e := Extras(Some(d.hostname), d.analysis.model, d.analysis.osVersion, d.analysis.serialNumber,
                    Capabilities(info));
    var made := if protocol == "ssh" then FromSshDiscovery(x, ip, d.analysis.deviceType, d.analysis.vendor, c, e, now)
                else FromTelnetDiscovery(x, ip, d.analysis.deviceType, d.analysis.vendor, c, e, now);
    match made
    case Success(dev) => Success(Some(dev))
    case Failure(err) => Failure(err)
  }

  /**
   * discover_single_device, given the host's protocol scan: no management
   * port gives None; otherwise SSH credentials are tried in order when SSH
   * is open, then Telnet credentials when Telnet is open; the first success
   * becomes the device.
   */
  function Probed(x: V6Syntax, ip: string, info: Protocols.ProtocolInfo, creds: seq<Credentials>,
                  ssh: Attempt, telnet: Attempt, now: string): (r: Outcome)
    ensures !info.hasManagement ==> r == Success(None)
  {
    if !info.hasManagement then Success(None)
    else
      var viaSsh := if Protocols.Flag(info, "ssh") then FirstSuccess(ssh, creds) else None;
      if viaSsh.Some? then Build(x, ip, info, "ssh", viaSsh.value.0, viaSsh.value.1, now)
      else
        var viaTelnet := if Protocols.Flag(info, "telnet") then FirstSuccess(telnet, creds) else None;
        if viaTelnet.Some? then Build(x, ip, info, "telnet", viaTelnet.value.0, viaTelnet.value.1, now)
        else Success(None)
  }

  /** The first SSH credential that works decides the device, whatever Telnet would give. */
  lemma ProbedViaSsh(x: V6Syntax, ip: string, info: Protocols.ProtocolInfo, creds: seq<Credentials>,
                     ssh: Attempt, telnet: Attempt, now: string, i: int)
    requires info.hasManagement && Protocols.Flag(info, "ssh") && FirstAt(ssh, creds, i)
    ensures Probed(x, ip, info, creds, ssh, telnet, now) == Build(x, ip, info, "ssh", creds[i], ssh(creds[i]).value, now)
  {
    FirstSuccessAt(ssh, creds, i);
  }

  /**
   * Telnet is tried only when SSH is closed or no SSH credential worked; then
   * the first Telnet credential that works decides the device.
   */
  lemma ProbedViaTelnet(x: V6Syntax, ip: string, info: Protocols.ProtocolInfo, creds: seq<Credentials>,
                        ssh: Attempt, telnet: Attempt, now: string, i: int)
    requires info.hasManagement && Protocols.Flag(info, "telnet") && FirstAt(telnet, creds, i)
    requires !Protocols.Flag(info, "ssh") || forall j | 0 <= j < |creds| :: ssh(creds[j]).None?
    ensures Probed(x, ip, info, creds, ssh, telnet, now)
            == Build(x, ip, info, "telnet", creds[i], telnet(creds[i]).value, now)
  {
    FirstSuccessAt(telnet, creds, i);
  }

  /** A device over Telnet means SSH was closed or every SSH credential failed. */
  lemma TelnetOnlyAfterSsh(x: V6Syntax, ip: string, info: Protocols.ProtocolInfo, creds: seq<Credentials>,
                           ssh: Attempt, telnet: Attempt, now: string)
    requires var r := Probed(x, ip, info, creds, ssh, telnet, now);
             r.Success? && r.value.Some? && r.value.value.protocol == "telnet"
    ensures info.hasManagement && Protocols.Flag(info, "telnet")
    ensures !Protocols.Flag(info, "ssh") || forall j | 0 <= j < |creds| :: ssh(creds[j]).None?
    ensures exists i :: FirstAt(telnet, creds, i)
  {
    var viaSsh := if Protocols.Flag(info, "ssh") then FirstSuccess(ssh, creds) else None;
    assert viaSsh.None?;
    var viaTelnet := FirstSuccess(telnet, creds);
    assert viaTelnet.Some?;
    var i :| 0 <= i < |creds| && creds[i] == viaTelnet.value.0 && telnet(creds[i]) == Some(viaTelnet.value.1)
             && forall j | 0 <= j < i :: telnet(creds[j]).None?;
    assert FirstAt(telnet, creds, i);
  }

  /** With no working credential on an open protocol, the host gives None. */
  lemma ProbedNothing(x: V6Syntax, ip: string, info: Protocols.ProtocolInfo, creds: seq<Credentials>,
                      ssh: Attempt, telnet: Attempt, now: string)
    requires !Protocols.Flag(info, "ssh") || forall j | 0 <= j < |creds| :: ssh(creds[j]).None?
    requires !Protocols.Flag(info, "telnet") || forall j | 0 <= j < |creds| :: telnet(creds[j]).None?
    ensures Probed(x, ip, info, creds, ssh, telnet, now) == Success(None)
  {
  }

  // ---------------- filters ----------------

  /** `field and field.lower() == wanted.lower()` */
  predicate SameText(field: Option<string>, wanted: string)
  {
    Truthy(field) && Text.Lower(field.value) == Text.Lower(wanted)
  }

  /** The devices, in order, whose `field` (the vendor, or the device type) is `wanted` ignoring case. */
  function Matching(devs: seq<Device>, field: Device -> Option<string>, wanted: string): (r: seq<Device>)
    ensures forall d :: d in r <==> d in devs && SameText(field(d), wanted)
    ensures IsSubsequence(r, devs)
    decreases |devs|
  {
    if devs == [] then []
    else if SameText(field(devs[0]), wanted) then [devs[0]] + Matching(devs[1..], field, wanted)
    else Matching(devs[1..], field, wanted)
  }

  // ---------------- statistics ----------------

  /** The statistics dictionary; the protocol dictionary only ever has the keys 'ssh' and 'telnet'. */
  datatype Statistics = Statistics(
    totalDevices: nat,
    vendors: Counter.Counts<string>,
    deviceTypes: Counter.Counts<string>,
    ssh: nat,
    telnet: nat,
    status: Counter.Counts<string>)

  const UnknownVendor := "Неизвестно"
  const UnknownType := "unknown"
  const StatusInit: Counter.Counts<string> := [("active", 0), ("unknown", 0)]

  function VendorKeys(devs: seq<Device>): (r: seq<string>)
    ensures |r| == |devs|
    ensures forall i | 0 <= i < |devs| :: r[i] == OrElse(devs[i].vendor, UnknownVendor)
  {
    seq(|devs|, i requires 0 <= i < |devs| => OrElse(devs[i].vendor, UnknownVendor))
  }

  function TypeKeys(devs: seq<Device>): (r: seq<string>)
    ensures |r| == |devs|
    ensures forall i | 0 <= i < |devs| :: r[i] == OrElse(devs[i].deviceType, UnknownType)
  {
    seq(|devs|, i requires 0 <= i < |devs| => OrElse(devs[i].deviceType, UnknownType))
  }

  function StatusKeys(devs: seq<Device>): (r: seq<string>)
    ensures |r| == |devs|
    ensures forall i | 0 <= i < |devs| :: r[i] == devs[i].status
  {
    seq(|devs|, i requires 0 <= i < |devs| => devs[i].status)
  }

  /** How many devices use `protocol`. */
  function ProtocolCount(devs: seq<Device>, protocol: string): (r: nat)
    ensures r <= |devs|
    decreases |devs|
  {
    if devs == [] then 0
    else ProtocolCount(devs[..|devs| - 1], protocol) + (if devs[|devs| - 1].protocol == protocol then 1 else 0)
  }

  /** A device is counted under at most one protocol. */
  lemma {:induction false} ProtocolCountsDisjoint(devs: seq<Device>)
    ensures ProtocolCount(devs, "ssh") + ProtocolCount(devs, "telnet") <= |devs|
    decreases |devs|
  {
    if devs != [] {
      ProtocolCountsDisjoint(devs[..|devs| - 1]);
    }
  }

  /** One device's contribution: its vendor, type and status are counted, and its protocol if it is ssh or telnet. */
  function CountDevice(s: Statistics, d: Device): Statistics
  {
    s.(vendors := Counter.Bump(s.vendors, OrElse(d.vendor, UnknownVendor)),
       deviceTypes := Counter.Bump(s.deviceTypes, OrElse(d.deviceType, UnknownType)),
       ssh := if d.protocol == "ssh" then s.ssh + 1 else s.ssh,
       telnet := if d.protocol == "telnet" then s.telnet + 1 else s.telnet,
       status := Counter.Bump(s.status, d.status))
  }

  /** The statistics after counting `devs` in order, starting from `s`. */
  function Counted(s: Statistics, devs: seq<Device>): Statistics
    decreases |devs|
  {
    if devs == [] then s else CountDevice(Counted(s, devs[..|devs| - 1]), devs[|devs| - 1])
  }

  /** The body of get_statistics' loop: one device's counters are bumped. */
  method CountOne(s: Statistics, d: Device) returns (t: Statistics)
    ensures t == CountDevice(s, d)
  {
    t := s.(vendors := Counter.Bump(s.vendors, OrElse(d.vendor, UnknownVendor)));
    t := t.(deviceTypes := Counter.Bump(t.deviceTypes, OrElse(d.deviceType, UnknownType)));
    if d.protocol == "ssh" {
      t := t.(ssh := t.ssh + 1);
    } else if d.protocol == "telnet" {
      t := t.(telnet := t.telnet + 1);
    }
    t := t.(status := Counter.Bump(t.status, d.status));
  }

  lemma CountedStep(s: Statistics, devs: seq<Device>, i: int)
    requires 0 <= i < |devs|
    ensures Counted(s, devs[..i + 1]) == CountDevice(Counted(s, devs[..i]), devs[i])
  {
    assert devs[..i + 1][..i] == devs[..i];
  }

  /** get_statistics over the devices, in map order. */
  function StatisticsOf(devs: seq<Device>): Statistics
  {
    Counted(Statistics(|devs|, [], [], 0, 0, StatusInit), devs)
  }

  /** Counting device by device is tallying the list of their vendors, types and statuses. */
  lemma {:induction false} CountedTallies(s: Statistics, devs: seq<Device>)
    ensures Counted(s, devs).totalDevices == s.totalDevices
    ensures Counted(s, devs).vendors == Counter.Tally(s.vendors, VendorKeys(devs))
    ensures Counted(s, devs).deviceTypes == Counter.Tally(s.deviceTypes, TypeKeys(devs))
    ensures Counted(s, devs).status == Counter.Tally(s.status, StatusKeys(devs))
    ensures Counted(s, devs).ssh == s.ssh + ProtocolCount(devs, "ssh")
    ensures Counted(s, devs).telnet == s.telnet + ProtocolCount(devs, "telnet")
    decreases |devs|
  {
    if devs != [] {
      var front := devs[..|devs| - 1];
      CountedTallies(s, front);
      KeysFront(devs);
    }
  }

  /** The keys of all but the last device are the keys' prefix. */
  lemma KeysFront(devs: seq<Device>)
    requires devs != []
    ensures var front := devs[..|devs| - 1];
      VendorKeys(front) == VendorKeys(devs)[..|devs| - 1]
      && TypeKeys(front) == TypeKeys(devs)[..|devs| - 1]
      && StatusKeys(front) == StatusKeys(devs)[..|devs| - 1]
  {
  }

  /**
   * Every device is counted once under its vendor (or 'Неизвестно'), once
   * under its device type (or 'unknown') and once under its status, so each
   * table sums to the number of devices; only 'ssh' and 'telnet' are counted
   * among protocols.
   */
  lemma StatisticsSums(devs: seq<Device>)
    ensures Counter.Total(StatisticsOf(devs).vendors) == StatisticsOf(devs).totalDevices == |devs|
    ensures Counter.Total(StatisticsOf(devs).deviceTypes) == StatisticsOf(devs).totalDevices
    ensures Counter.Total(StatisticsOf(devs).status) == StatisticsOf(devs).totalDevices
    ensures StatisticsOf(devs).ssh == ProtocolCount(devs, "ssh")
    ensures StatisticsOf(devs).telnet == ProtocolCount(devs, "telnet")
    ensures StatisticsOf(devs).ssh + StatisticsOf(devs).telnet <= StatisticsOf(devs).totalDevices
  {
    CountedTallies(Statistics(|devs|, [], [], 0, 0, StatusInit), devs);
    Counter.TallyTotal([], VendorKeys(devs));
    Counter.TallyTotal([], TypeKeys(devs));
    Counter.TallyTotal(StatusInit, StatusKeys(devs));
    assert Counter.Total(StatusInit) == 0;
    ProtocolCountsDisjoint(devs);
  }

  /** The count under a vendor name is the number of devices carrying that name (or lacking one, for 'Неизвестно'). */
  lemma VendorCount(devs: seq<Device>, vendor: string)
    ensures Counter.CountOf(StatisticsOf(devs).vendors, vendor) == multiset(VendorKeys(devs))[vendor]
  {
    CountedTallies(Statistics(|devs|, [], [], 0, 0, StatusInit), devs);
    Counter.TallyCount([], VendorKeys(devs), vendor);
  }

  /** The count under a device type is the number of devices of that type (or lacking one, for 'unknown'). */
  lemma TypeCount(devs: seq<Device>, deviceType: string)
    ensures Counter.CountOf(StatisticsOf(devs).deviceTypes, deviceType) == multiset(TypeKeys(devs))[deviceType]
  {
    CountedTallies(Statistics(|devs|, [], [], 0, 0, StatusInit), devs);
    Counter.TallyCount([], TypeKeys(devs), deviceType);
  }

  // ---------------- the engine ----------------

  class DiscoveryEngine {
    /** discovered_devices: IP address to device, in insertion order. */
    var discovered: Dict<string, Device>

    predicate Valid()
      reads this
    {
      UniqueKeys(discovered)
    }

    constructor ()
      ensures Valid() && discovered == []
    {
      discovered := [];
    }

    /** discover_single_device, given the protocol scan of the host. */
    method DiscoverSingle(x: V6Syntax, ip: string, info: Protocols.ProtocolInfo, creds: seq<Credentials>,
                          ssh: Attempt, telnet: Attempt, now: string) returns (r: Outcome)
      ensures r == Probed(x, ip, info, creds, ssh, telnet, now)
    {
      if !info.hasManagement {
        return Success(None);
      }
      if Protocols.Flag(info, "ssh") {
        var i := 0;
        while i < |creds|
          invariant 0 <= i <= |creds|
          invariant forall j | 0 <= j < i :: ssh(creds[j]).None?
        {
          var found := ssh(creds[i]);
          if found.Some? {
            FirstSuccessAt(ssh, creds, i);
            return Build(x, ip, info, "ssh", creds[i], found.value, now);
          }
          i := i + 1;
        }
      }
      if Protocols.Flag(info, "telnet") {
        var i := 0;
        while i < |creds|
          invariant 0 <= i <= |creds|
          invariant forall j | 0 <= j < i :: telnet(creds[j]).None?
        {
          var found := telnet(creds[i]);
          if found.Some? {
            FirstSuccessAt(telnet, creds, i);
            return Build(x, ip, info, "telnet", creds[i], found.value, now);
          }
          i := i + 1;
        }
      }
      return Success(None);
    }

    /**
     * discover_devices: every address is probed; a device is stored under
     * its address, a host with no device or an exception adds nothing, and
     * earlier entries stay.
     */
    method DiscoverDevices(x: V6Syntax, ips: seq<string>, creds: seq<Credentials>,
                           scan: string -> Protocols.ProtocolInfo,
                           ssh: string -> Attempt, telnet: string -> Attempt, now: string)
      returns (r: Dict<string, Device>)
      requires Valid()
      modifies this
      ensures Valid()
      ensures discovered == Recorded(old(discovered), ips, Outcomes(x, creds, scan, ssh, telnet, now))
      ensures r == discovered
    {
      var i := 0;
      while i < |ips|
        invariant 0 <= i <= |ips|
        invariant Valid()
        invariant discovered == Recorded(old(discovered), ips[..i], Outcomes(x, creds, scan, ssh, telnet, now))
      {
        var ip := ips[i];
        var outcome := DiscoverSingle(x, ip, scan(ip), creds, ssh(ip), telnet(ip), now);
        if outcome.Success? && outcome.value.Some? {
          PutUnique(discovered, ip, outcome.value.value);
          discovered := Put(discovered, ip, outcome.value.value);
        }
        assert ips[..i + 1][..i] == ips[..i];
        i := i + 1;
      }
      assert ips[..i] == ips;
      return discovered;
    }

    /** get_statistics */
    method GetStatistics() returns (s: Statistics)
      ensures s == StatisticsOf(Values(discovered))
    {
      var devs := Values(discovered);
      s := Statistics(|devs|, [], [], 0, 0, StatusInit);
      ghost var init := s;
      assert devs[..0] == [];
      assert s == Counted(init, devs[..0]);
      var i := 0;
      while i < |devs|
        invariant 0 <= i <= |devs|
        invariant s == Counted(init, devs[..i])
      {
        s := CountOne(s, devs[i]);
        CountedStep(init, devs, i);
        assert s == Counted(init, devs[..i + 1]);
        i := i + 1;
      }
      assert devs[..i] == devs;
    }

    /** get_devices_by_vendor */
    function DevicesByVendor(vendor: string): (r: seq<Device>)
      reads this
      ensures forall d :: d in r <==> d in Values(discovered) && SameText(d.vendor, vendor)
    {
      Matching(Values(discovered), (d: Device) => d.vendor, vendor)
    }

    /** get_devices_by_type */
    function DevicesByType(deviceType: string): (r: seq<Device>)
      reads this
      ensures forall d :: d in r <==> d in Values(discovered) && SameText(d.deviceType, deviceType)
    {
      Matching(Values(discovered), (d: Device) => d.deviceType, deviceType)
    }

    /** clear */
    method Clear()
      modifies this
      ensures Valid() && discovered == []
    {
      discovered := [];
    }
  }

  /** The outcome of probing each address. */
  function Outcomes(x: V6Syntax, creds: seq<Credentials>, scan: string -> Protocols.ProtocolInfo,
                    ssh: string -> Attempt, telnet: string -> Attempt, now: string): string -> Outcome
  {
    ip => Probed(x, ip, scan(ip), creds, ssh(ip), telnet(ip), now)
  }

  /** A successful probe that produced a device. */
  predicate Found(o: Outcome)
  {
    o.Success? && o.value.Some?
  }

  /** The map after processing `ips` in order, starting from `before`. */
  function Recorded(before: Dict<string, Device>, ips: seq<string>, outcome: string -> Outcome): Dict<string, Device>
    decreases |ips|
  {
    if ips == [] then before
    else
      var prev := Recorded(before, ips[..|ips| - 1], outcome);
      var ip := ips[|ips| - 1];
      if Found(outcome(ip)) then Put(prev, ip, outcome(ip).value.value) else prev
  }

  /** The addresses in the map after a batch: those there before, and those whose probe found a device. */
  lemma {:induction false} RecordedKeys(before: Dict<string, Device>, ips: seq<string>, outcome: string -> Outcome,
                                        ip: string)
    ensures HasKey(Recorded(before, ips, outcome), ip) <==> HasKey(before, ip) || (ip in ips && Found(outcome(ip)))
    decreases |ips|
  {
    if ips != [] {
      var front := ips[..|ips| - 1];
      var last := ips[|ips| - 1];
      RecordedKeys(before, front, outcome, ip);
      if Found(outcome(last)) {
        HasKeyPut(Recorded(before, front, outcome), last, outcome(last).value.value, ip);
      }
      assert ips == front + [last];
    }
  }

  /** A found address maps to its device; an address outside the batch keeps what it had. */
  lemma {:induction false} RecordedValues(before: Dict<string, Device>, ips: seq<string>, outcome: string -> Outcome,
                                          ip: string)
    requires UniqueKeys(before)
    ensures UniqueKeys(Recorded(before, ips, outcome))
    ensures ip in ips && Found(outcome(ip)) ==> Get(Recorded(before, ips, outcome), ip) == Some(outcome(ip).value.value)
    ensures ip !in ips ==> Get(Recorded(before, ips, outcome), ip) == Get(before, ip)
    decreases |ips|
  {
    if ips != [] {
      var front := ips[..|ips| - 1];
      var last := ips[|ips| - 1];
      var prev := Recorded(before, front, outcome);
      RecordedValues(before, front, outcome, ip);
      if Found(outcome(last)) {
        PutUnique(prev, last, outcome(last).value.value);
        if ip == last {
          GetPutSame(prev, last, outcome(last).value.value);
        } else {
          GetPutOther(prev, last, outcome(last).value.value, ip);
        }
      }
      assert ips == front + [last];
    }
  }

}
