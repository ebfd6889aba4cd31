/**
 * The data models of the discovery tool (network_discovery/models/device.py):
 * login credentials, a discovered device, the Netmiko connection settings
 * derived from a device, and the factory that builds device records after
 * a successful SSH or Telnet discovery.
 *
 * Constructors that validate in the original (a raised ValueError) return a
 * `Result`.  Optional fields are `Option`s; Python's truthiness of such a
 * field is `Truthy`.
 */
module Device {
  import opened Wrappers
  import Text
  import opened Address

  /** Python's truthiness of an optional string: present and non-empty. */
  predicate Truthy(o: Option<string>)
  {
    o.Some? && o.value != ""
  }

  /** `a or b` for an optional string and a fallback. */
  function OrElse(o: Option<string>, b: string): (r: string)
    ensures Truthy(o) ==> r == o.value
    ensures !Truthy(o) ==> r == b
  {
    if Truthy(o) then o.value else b
  }

  // ---------------- credentials ----------------

  datatype Credentials = Credentials(
    username: string,
    password: string,
    enablePassword: Option<string>,
    sshPort: int,
    telnetPort: int,
    sshTimeout: int,
    telnetTimeout: int,
    description: string)

  const EmptyUsername := "Имя пользователя не может быть пустым"

  predicate ValidPort(p: int)
  {
    0 < p <= 65535
  }

  /** What construction accepts: a non-empty username and both ports in 1..65535. */
  predicate ValidCredentials(c: Credentials)
  {
    c.username != "" && ValidPort(c.sshPort) && ValidPort(c.telnetPort)
  }

  /** DeviceCredentials(...): the checks of __post_init__, in their order. */
  function NewCredentials(c: Credentials): (r: Result<Credentials, string>)
    ensures r.Success? <==> ValidCredentials(c)
    ensures r.Success? ==> r.value == c
    ensures c.username == "" ==> r == Failure(EmptyUsername)
  {
    if c.username == "" then Failure(EmptyUsername)
    else if !ValidPort(c.sshPort) then Failure("Неверный SSH порт: " + Text.IntToString(c.sshPort))
    else if !ValidPort(c.telnetPort) then Failure("Неверный Telnet порт: " + Text.IntToString(c.telnetPort))
    else Success(c)
  }

  /** DeviceCredentials(username, password, enable_password) with every other field at its default. */
  function Login(username: string, password: string, enable: Option<string>): (c: Credentials)
    ensures c.sshPort == 22 && c.telnetPort == 23 && c.sshTimeout == 10 && c.telnetTimeout == 10
    ensures c.username != "" ==> ValidCredentials(c)
  {
    Credentials(username, password, enable, 22, 23, 10, 10, "")
  }

  /** The parameters for_ssh and for_telnet return. */
  datatype ConnectParams = ConnectParams(username: string, password: string, port: int, timeout: int)

  function ForSsh(c: Credentials): (r: ConnectParams)
    ensures r.username == c.username && r.password == c.password
    ensures r.port == c.sshPort && r.timeout == c.sshTimeout
  {
    ConnectParams(c.username, c.password, c.sshPort, c.sshTimeout)
  }

  function ForTelnet(c: Credentials): (r: ConnectParams)
    ensures r.username == c.username && r.password == c.password
    ensures r.port == c.telnetPort && r.timeout == c.telnetTimeout
  {
    ConnectParams(c.username, c.password, c.telnetPort, c.telnetTimeout)
  }

  /** The two parameter sets differ only in the protocol-specific port and timeout. */
  lemma SshTelnetParams(c: Credentials)
    ensures ForSsh(c).(port := c.telnetPort, timeout := c.telnetTimeout) == ForTelnet(c)
    ensures ValidCredentials(c) ==> ValidPort(ForSsh(c).port) && ValidPort(ForTelnet(c).port)
  {
  }

  // ---------------- discovered devices ----------------

  datatype Device = Device(
    ip: string,
    hostname: Option<string>,
    deviceType: Option<string>,
    vendor: Option<string>,
    model: Option<string>,
    osVersion: Option<string>,
    serialNumber: Option<string>,
    username: Option<string>,
    password: Option<string>,
    enablePassword: Option<string>,
    sshPort: int,
    telnetPort: int,
    snmpCommunity: Option<string>,
    protocol: string,
    capabilities: seq<string>,
    status: string,
    lastSeen: string)

  /** A record with every field at its default; `lastSeen` is the clock reading taken at construction. */
  function Blank(ip: string, lastSeen: string): (d: Device)
    ensures d.ip == ip && d.protocol == "unknown" && d.status == "unknown"
    ensures d.sshPort == 22 && d.telnetPort == 23 && d.capabilities == []
  {
    Device(ip, None, None, None, None, None, None, None, None, None, 22, 23, None, "unknown", [], "unknown", lastSeen)
  }

  /** DiscoveredDevice(...): construction fails exactly when the IP text is not an address. */
  function NewDevice(x: V6Syntax, d: Device): (r: Result<Device, string>)
    ensures r.Success? <==> ParseAddr(x, d.ip).Some?
    ensures r.Success? ==> r.value == d
  {
    if ParseAddr(x, d.ip).Some? then Success(d) else Failure("Неверный IP адрес: " + d.ip)
  }

  /** The Netmiko device types to_netmiko_config maps for Telnet. */
  const TelnetMapping: seq<(string, string)> := [
    ("cisco_ios", "cisco_ios_telnet"),
    ("cisco_xe", "cisco_xe_telnet"),
    ("cisco_xr", "cisco_xr_telnet"),
    ("cisco_nxos", "cisco_nxos_telnet"),
    ("cisco_asa", "cisco_asa_telnet"),
    ("juniper", "juniper_telnet"),
    ("arista_eos", "arista_eos_telnet"),
    ("hp_procurve", "hp_procurve_telnet"),
    ("hp_comware", "hp_comware_telnet"),
    ("mikrotik_routeros", "mikrotik_routeros_telnet"),
    ("linux", "linux_telnet")
  ]

  const TelnetSuffix := "_telnet"

  /** telnet_mapping.get(t, default) */
  function TelnetMapped(t: string, default: string): (r: string)
  {
    if exists i | 0 <= i < |TelnetMapping| :: TelnetMapping[i].0 == t then
      var i :| 0 <= i < |TelnetMapping| && TelnetMapping[i].0 == t;
      TelnetMapping[i].1
    else default
  }

  /** Every mapped Telnet type is its key with the `_telnet` suffix. */
  lemma MappingIsSuffix()
    ensures forall i | 0 <= i < |TelnetMapping| :: TelnetMapping[i].1 == TelnetMapping[i].0 + TelnetSuffix
  {
    assert "cisco_ios_telnet" == "cisco_ios" + TelnetSuffix;
    assert "cisco_xe_telnet" == "cisco_xe" + TelnetSuffix;
    assert "cisco_xr_telnet" == "cisco_xr" + TelnetSuffix;
    assert "cisco_nxos_telnet" == "cisco_nxos" + TelnetSuffix;
    assert "cisco_asa_telnet" == "cisco_asa" + TelnetSuffix;
    assert "juniper_telnet" == "juniper" + TelnetSuffix;
    assert "arista_eos_telnet" == "arista_eos" + TelnetSuffix;
    assert "hp_procurve_telnet" == "hp_procurve" + TelnetSuffix;
    assert "hp_comware_telnet" == "hp_comware" + TelnetSuffix;
    assert "mikrotik_routeros_telnet" == "mikrotik_routeros" + TelnetSuffix;
    assert "linux_telnet" == "linux" + TelnetSuffix;
  }

  /** The Netmiko device type of to_netmiko_config. */
  function NetmikoType(d: Device): (r: string)
    ensures d.protocol == "telnet" && Truthy(d.deviceType) ==> Text.EndsWith(r, TelnetSuffix)
    ensures d.protocol == "telnet" && Truthy(d.deviceType) ==>
              r == if Text.EndsWith(d.deviceType.value, TelnetSuffix) then d.deviceType.value
                   else d.deviceType.value + TelnetSuffix
    ensures !(d.protocol == "telnet" && Truthy(d.deviceType)) ==> r == OrElse(d.deviceType, "autodetect")
  {
    if d.protocol == "telnet" && Truthy(d.deviceType) then
      var t := d.deviceType.value;
      if !Text.EndsWith(t, TelnetSuffix) then
        MappingIsSuffix();
        SuffixEnds(t, TelnetSuffix);
        TelnetMapped(t, t + TelnetSuffix)
      else t
    else OrElse(d.deviceType, "autodetect")
  }

  lemma SuffixEnds(t: string, suffix: string)
    ensures Text.EndsWith(t + suffix, suffix)
  {
    assert (t + suffix)[|t|..] == suffix;
  }

  /**
   * The dictionary to_netmiko_config returns.  `username` and `password` are
   * always present (None when the device has none); for `secret`, `vendor`,
   * `model`, `os_version` and `name`, None means the key is absent.
   */
  datatype NetmikoConfig = NetmikoConfig(
    deviceType: string,
    host: string,
    username: Option<string>,
    password: Option<string>,
    port: int,
    timeout: int,
    globalDelayFactor: int,
    secret: Option<string>,
    vendor: Option<string>,
    model: Option<string>,
    osVersion: Option<string>,
    name: Option<string>)

  /** The optional entry for a field: present exactly when the field is truthy. */
  function Optional(o: Option<string>): (r: Option<string>)
    ensures r.Some? <==> Truthy(o)
    ensures r.Some? ==> r == o
  {
    if Truthy(o) then o else None
  }

  /** The port a device is reached on: the SSH port for protocol 'ssh', the Telnet port for anything else. */
  function Port(d: Device): (r: int)
    ensures d.protocol == "ssh" ==> r == d.sshPort
    ensures d.protocol != "ssh" ==> r == d.telnetPort
  {
    if d.protocol == "ssh" then d.sshPort else d.telnetPort
  }

  /** to_netmiko_config */
  function ToNetmikoConfig(d: Device): (r: NetmikoConfig)
    ensures r.deviceType == NetmikoType(d) && r.host == d.ip && r.port == Port(d)
    ensures r.username == d.username && r.password == d.password
    ensures r.timeout == 10 && r.globalDelayFactor == 2
    ensures r.secret.Some? <==> Truthy(d.enablePassword)
    ensures r.vendor.Some? <==> Truthy(d.vendor)
    ensures r.model.Some? <==> Truthy(d.model)
    ensures r.osVersion.Some? <==> Truthy(d.osVersion)
    ensures r.name.Some? <==> Truthy(d.hostname)
    ensures r.secret.Some? ==> r.secret == d.enablePassword
    ensures r.name.Some? ==> r.name == d.hostname
    ensures r.vendor.Some? ==> r.vendor == d.vendor
    ensures r.model.Some? ==> r.model == d.model
    ensures r.osVersion.Some? ==> r.osVersion == d.osVersion
  {
    NetmikoConfig(NetmikoType(d), d.ip, d.username, d.password, Port(d), 10, 2,
                  Optional(d.enablePassword), Optional(d.vendor), Optional(d.model),
                  Optional(d.osVersion), Optional(d.hostname))
  }

  /** The dictionary get_connection_info returns. */
  datatype ConnectionInfo = ConnectionInfo(
    ip: string,
    hostname: Option<string>,
    protocol: string,
    port: int,
    username: Option<string>,
    deviceType: Option<string>,
    vendor: Option<string>)

  function GetConnectionInfo(d: Device): (r: ConnectionInfo)
    ensures r.ip == d.ip && r.protocol == d.protocol && r.port == Port(d)
    ensures r.hostname == d.hostname && r.username == d.username
    ensures r.deviceType == d.deviceType && r.vendor == d.vendor
  {
    ConnectionInfo(d.ip, d.hostname, d.protocol, Port(d), d.username, d.deviceType, d.vendor)
  }

  /** The connection summary and the Netmiko settings name the same host, port and user. */
  lemma InfoMatchesConfig(d: Device)
    ensures GetConnectionInfo(d).port == ToNetmikoConfig(d).port
    ensures GetConnectionInfo(d).ip == ToNetmikoConfig(d).host
    ensures GetConnectionInfo(d).username == ToNetmikoConfig(d).username
  {
  }

  // ---------------- the factory ----------------

  /** The keyword arguments the discovery engine passes to the factory. */
  datatype Extras = Extras(
    hostname: Option<string>,
    model: Option<string>,
    osVersion: Option<string>,
    serialNumber: Option<string>,
    capabilities: seq<string>)

  /** The record a factory method builds, before validation. */
  function Discovered(ip: string, deviceType: Option<string>, vendor: Option<string>, c: Credentials,
                      protocol: string, e: Extras, lastSeen: string): Device
  {
    var d := Blank(ip, lastSeen).(
      deviceType := deviceType, vendor := vendor,
      username := Some(c.username), password := Some(c.password), enablePassword := c.enablePassword,
      protocol := protocol, status := "active",
      hostname := e.hostname, model := e.model, osVersion := e.osVersion,
      serialNumber := e.serialNumber, capabilities := e.capabilities);
    if protocol == "ssh" then d.(sshPort := c.sshPort) else d.(telnetPort := c.telnetPort)
  }

  /** DeviceFactory.from_ssh_discovery */
  function FromSshDiscovery(x: V6Syntax, ip: string, deviceType: Option<string>, vendor: Option<string>,
                            c: Credentials, e: Extras, lastSeen: string): (r: Result<Device, string>)
    ensures r.Success? <==> ParseAddr(x, ip).Some?
    ensures r.Success? ==> r.value.protocol == "ssh" && r.value.status == "active"
    ensures r.Success? ==> r.value.username == Some(c.username) && r.value.password == Some(c.password)
                           && r.value.enablePassword == c.enablePassword
    ensures r.Success? ==> r.value.sshPort == c.sshPort && r.value.telnetPort == 23
    ensures r.Success? ==> r.value.ip == ip && r.value.deviceType == deviceType && r.value.vendor == vendor
    ensures r.Success? ==> r.value.hostname == e.hostname && r.value.model == e.model && r.value.osVersion == e.osVersion
                           && r.value.serialNumber == e.serialNumber && r.value.capabilities == e.capabilities
                           && r.value.lastSeen == lastSeen
  {
    NewDevice(x, Discovered(ip, deviceType, vendor, c, "ssh", e, lastSeen))
  }

  /** DeviceFactory.from_telnet_discovery */
  function FromTelnetDiscovery(x: V6Syntax, ip: string, deviceType: Option<string>, vendor: Option<string>,
                               c: Credentials, e: Extras, lastSeen: string): (r: Result<Device, string>)
    ensures r.Success? <==> ParseAddr(x, ip).Some?
    ensures r.Success? ==> r.value.protocol == "telnet" && r.value.status == "active"
    ensures r.Success? ==> r.value.username == Some(c.username) && r.value.password == Some(c.password)
                           && r.value.enablePassword == c.enablePassword
    ensures r.Success? ==> r.value.telnetPort == c.telnetPort && r.value.sshPort == 22
    ensures r.Success? ==> r.value.ip == ip && r.value.deviceType == deviceType && r.value.vendor == vendor
    ensures r.Success? ==> r.value.hostname == e.hostname && r.value.model == e.model && r.value.osVersion == e.osVersion
                           && r.value.serialNumber == e.serialNumber && r.value.capabilities == e.capabilities
                           && r.value.lastSeen == lastSeen
  {
    NewDevice(x, Discovered(ip, deviceType, vendor, c, "telnet", e, lastSeen))
  }

  /**
   * A device discovered over SSH (Telnet) is reached again with the
   * credentials' SSH (Telnet) parameters: same user, same password, same port.
   */
  lemma FactoryReconnects(x: V6Syntax, ip: string, t: Option<string>, v: Option<string>, c: Credentials,
                          e: Extras, now: string)
    ensures var r := FromSshDiscovery(x, ip, t, v, c, e, now);
      r.Success? ==> ToNetmikoConfig(r.value).port == ForSsh(c).port
                     && ToNetmikoConfig(r.value).username == Some(ForSsh(c).username)
                     && ToNetmikoConfig(r.value).password == Some(ForSsh(c).password)
    ensures var r := FromTelnetDiscovery(x, ip, t, v, c, e, now);
      r.Success? ==> ToNetmikoConfig(r.value).port == ForTelnet(c).port
                     && ToNetmikoConfig(r.value).username == Some(ForTelnet(c).username)
                     && ToNetmikoConfig(r.value).password == Some(ForTelnet(c).password)
  {
  }
}
