/**
 * The records of the backup tool (network_backup_tool/src/models.py).
 *
 * A dataclass does not check its annotations: a device record holds
 * whatever values the device file gave it, so each of its fields is a
 * `Json` value.
 */
module BackupModels {
  import opened Wrappers
  import opened Json
  import Dict

  datatype DeviceConfig = DeviceConfig(
    host: Json,
    deviceType: Json,
    username: Json,
    password: Json,
    port: Json,
    secret: Json,
    timeout: Json,
    useKeys: Json,
    keyFile: Json,
    transport: Json)

  /** The keyword arguments DeviceConfig accepts, in declaration order. */
  const FieldNames: seq<string> :=
    ["host", "device_type", "username", "password", "port", "secret", "timeout", "use_keys", "key_file", "transport"]

  /** The fields without a default. */
  const RequiredFields: seq<string> := ["host", "device_type", "username", "password"]

  /** The declared default of an optional field (none for a required one). */
  function DefaultOf(name: string): Option<Json>
  {
    if name == "port" then Some(JInt(22))
    else if name == "secret" then Some(JStr(""))
    else if name == "timeout" then Some(JInt(30))
    else if name == "use_keys" then Some(JBool(false))
    else if name == "key_file" then Some(JStr(""))
    else if name == "transport" then Some(JStr("ssh"))
    else None
  }

  /** Only the required fields lack a default. */
  lemma DefaultsCoverOptional(name: string)
    requires name in FieldNames
    ensures DefaultOf(name).None? <==> name in RequiredFields
  {
  }

  /** to_dict: asdict(self), one entry per field in declaration order. */
  function ToDict(d: DeviceConfig): (r: Dict.Dict<string, Json>)
    ensures Dict.Keys(r) == FieldNames
  {
    [("host", d.host), ("device_type", d.deviceType), ("username", d.username),
     ("password", d.password), ("port", d.port), ("secret", d.secret),
     ("timeout", d.timeout), ("use_keys", d.useKeys), ("key_file", d.keyFile),
     ("transport", d.transport)]
  }

  /** Why cls(**data) raises TypeError. */
  datatype ArgError =
    | UnexpectedKeyword(name: string)
    | MissingArguments(names: seq<string>)

  /** The keys of `data` that name no field, in dict order. */
  function UnexpectedKeys(data: Dict.Dict<string, Json>): (r: seq<string>)
    ensures forall k :: k in r <==> k in Dict.Keys(data) && k !in FieldNames
    ensures r == [] <==> forall k | k in Dict.Keys(data) :: k in FieldNames
    decreases |data|
  {
    if data == [] then []
    else
      var rest := UnexpectedKeys(data[1..]);
      assert Dict.Keys(data) == [data[0].0] + Dict.Keys(data[1..]);
      if data[0].0 in FieldNames then rest else [data[0].0] + rest
  }

  /** The required fields `data` does not give, in declaration order. */
  function MissingFields(data: Dict.Dict<string, Json>, names: seq<string>): (r: seq<string>)
    ensures forall k :: k in r <==> k in names && !Dict.HasKey(data, k)
    ensures r == [] <==> forall k | k in names :: Dict.HasKey(data, k)
    decreases |names|
  {
    if names == [] then []
    else
      var rest := MissingFields(data, names[1..]);
      if Dict.HasKey(data, names[0]) then rest else [names[0]] + rest
  }

  /** The value a keyword argument gives a field, or the field's default. */
  function Arg(data: Dict.Dict<string, Json>, name: string): Json
  {
    match Dict.Get(data, name)
    case Some(v) => v
    case None => DefaultOf(name).GetOr(JNull)
  }

  /**
   * from_dict: cls(**data).  An unknown keyword is reported before missing
   * required arguments, as Python binds keywords first.
   */
  function FromDict(data: Dict.Dict<string, Json>): (r: Result<DeviceConfig, ArgError>)
    ensures r.Success? <==>
              (forall k | k in Dict.Keys(data) :: k in FieldNames)
              && (forall f | f in RequiredFields :: Dict.HasKey(data, f))
    ensures r.Failure? && r.error.UnexpectedKeyword? ==> r.error.name !in FieldNames
  {
    var extra := UnexpectedKeys(data);
    if extra != [] then
      assert extra[0] in extra;
      Failure(UnexpectedKeyword(extra[0]))
    else
      var missing := MissingFields(data, RequiredFields);
      if missing != [] then
        assert missing[0] in missing;
        Failure(MissingArguments(missing))
      else
        Success(DeviceConfig(
          Arg(data, "host"), Arg(data, "device_type"), Arg(data, "username"),
          Arg(data, "password"), Arg(data, "port"), Arg(data, "secret"),
          Arg(data, "timeout"), Arg(data, "use_keys"), Arg(data, "key_file"),
          Arg(data, "transport")))
  }

  /** No two fields share a name. */
  lemma FieldNamesDistinct()
    ensures forall i, j | 0 <= i < j < |FieldNames| :: FieldNames[i] != FieldNames[j]
  {
  }

  /** Each entry of to_dict(d) is the one its key reads back. */
  lemma ToDictGets(d: DeviceConfig)
    ensures var m := ToDict(d);
      forall k | 0 <= k < |m| :: Dict.Get(m, m[k].0) == Some(m[k].1)
  {
    var m := ToDict(d);
    FieldNamesDistinct();
    forall k | 0 <= k < |m|
      ensures Dict.Get(m, m[k].0) == Some(m[k].1)
    {
      assert forall j | 0 <= j < k :: m[j].0 != m[k].0 by {
        assert forall j | 0 <= j < |m| :: m[j].0 == FieldNames[j];
      }
      Dict.GetFirst(m, m[k].0, k);
    }
  }

  /** Every field of to_dict(d) reads back as the field of `d`. */
  lemma ToDictFields(d: DeviceConfig)
    ensures var m := ToDict(d);
      Arg(m, "host") == d.host && Arg(m, "device_type") == d.deviceType
      && Arg(m, "username") == d.username && Arg(m, "password") == d.password
      && Arg(m, "port") == d.port && Arg(m, "secret") == d.secret
      && Arg(m, "timeout") == d.timeout && Arg(m, "use_keys") == d.useKeys
      && Arg(m, "key_file") == d.keyFile && Arg(m, "transport") == d.transport
  {
    var m := ToDict(d);
    ToDictGets(d);
    assert Dict.Get(m, m[0].0) == Some(d.host) && Dict.Get(m, m[1].0) == Some(d.deviceType);
    assert Dict.Get(m, m[2].0) == Some(d.username) && Dict.Get(m, m[3].0) == Some(d.password);
    assert Dict.Get(m, m[4].0) == Some(d.port) && Dict.Get(m, m[5].0) == Some(d.secret);
    assert Dict.Get(m, m[6].0) == Some(d.timeout) && Dict.Get(m, m[7].0) == Some(d.useKeys);
    assert Dict.Get(m, m[8].0) == Some(d.keyFile) && Dict.Get(m, m[9].0) == Some(d.transport);
  }

  /** to_dict(d) names every field and no other. */
  lemma ToDictAccepted(d: DeviceConfig)
    ensures FromDict(ToDict(d)).Success?
  {
    var m := ToDict(d);
    assert m[0].0 == "host" && m[1].0 == "device_type" && m[2].0 == "username" && m[3].0 == "password";
  }

  /** from_dict(to_dict(d)) == d */
  lemma RoundTrip(d: DeviceConfig)
    ensures FromDict(ToDict(d)) == Success(d)
  {
    ToDictAccepted(d);
    ToDictFields(d);
  }

  /** The dict holding only the required fields. */
  function RequiredOnly(host: Json, deviceType: Json, username: Json, password: Json): (m: Dict.Dict<string, Json>)
    ensures Dict.Keys(m) == RequiredFields
  {
    [("host", host), ("device_type", deviceType), ("username", username), ("password", password)]
  }

  /** A field other than the required ones is absent from that dict and takes its default. */
  lemma OptionalDefault(host: Json, deviceType: Json, username: Json, password: Json, name: string)
    requires name !in RequiredFields
    ensures Arg(RequiredOnly(host, deviceType, username, password), name) == DefaultOf(name).GetOr(JNull)
  {
  }

  /** Each required field reads back from that dict. */
  lemma RequiredOnlyGets(host: Json, deviceType: Json, username: Json, password: Json)
    ensures var m := RequiredOnly(host, deviceType, username, password);
      Dict.Get(m, "host") == Some(host) && Dict.Get(m, "device_type") == Some(deviceType)
      && Dict.Get(m, "username") == Some(username) && Dict.Get(m, "password") == Some(password)
  {
    var m := RequiredOnly(host, deviceType, username, password);
    assert m[0].0 == "host" && m[1].0 == "device_type" && m[2].0 == "username" && m[3].0 == "password";
    Dict.GetFirst(m, "host", 0);
    Dict.GetFirst(m, "device_type", 1);
    Dict.GetFirst(m, "username", 2);
    Dict.GetFirst(m, "password", 3);
  }

  /** The six optional fields of that dict read as their declared defaults. */
  lemma OptionalDefaults(host: Json, deviceType: Json, username: Json, password: Json)
    ensures var m := RequiredOnly(host, deviceType, username, password);
      Arg(m, "port") == JInt(22) && Arg(m, "secret") == JStr("")
      && Arg(m, "timeout") == JInt(30) && Arg(m, "use_keys") == JBool(false)
      && Arg(m, "key_file") == JStr("") && Arg(m, "transport") == JStr("ssh")
  {
    OptionalDefault(host, deviceType, username, password, "port");
    OptionalDefault(host, deviceType, username, password, "secret");
    OptionalDefault(host, deviceType, username, password, "timeout");
    OptionalDefault(host, deviceType, username, password, "use_keys");
    OptionalDefault(host, deviceType, username, password, "key_file");
    OptionalDefault(host, deviceType, username, password, "transport");
  }

  /** That dict is accepted, each field read by Arg. */
  lemma RequiredOnlyAccepted(host: Json, deviceType: Json, username: Json, password: Json)
    ensures var m := RequiredOnly(host, deviceType, username, password);
      FromDict(m) == Success(DeviceConfig(
          Arg(m, "host"), Arg(m, "device_type"), Arg(m, "username"),
          Arg(m, "password"), Arg(m, "port"), Arg(m, "secret"),
          Arg(m, "timeout"), Arg(m, "use_keys"), Arg(m, "key_file"),
          Arg(m, "transport")))
  {
    var m := RequiredOnly(host, deviceType, username, password);
    assert forall k | k in RequiredFields :: k in FieldNames by {
      assert RequiredFields == FieldNames[..4];
    }
    assert UnexpectedKeys(m) == [];
    forall f | f in RequiredFields
      ensures Dict.HasKey(m, f)
    {
      var i :| 0 <= i < 4 && RequiredFields[i] == f;
      assert m[i].0 == f;
    }
    assert MissingFields(m, RequiredFields) == [];
  }

  /** A dict holding only the required fields gives the declared defaults. */
  lemma Defaults(host: Json, deviceType: Json, username: Json, password: Json)
    ensures var r := FromDict(RequiredOnly(host, deviceType, username, password));
      r.Success?
      && r.value.host == host && r.value.deviceType == deviceType
      && r.value.username == username && r.value.password == password
      && r.value.port == JInt(22) && r.value.secret == JStr("")
      && r.value.timeout == JInt(30) && r.value.useKeys == JBool(false)
      && r.value.keyFile == JStr("") && r.value.transport == JStr("ssh")
  {
    var m := RequiredOnly(host, deviceType, username, password);
    RequiredOnlyAccepted(host, deviceType, username, password);
    RequiredOnlyGets(host, deviceType, username, password);
    OptionalDefaults(host, deviceType, username, password);
  }

  /** A point in time as datetime.now() gives it, to the second. */
  datatype DateTime = DateTime(year: int, month: int, day: int, hour: int, minute: int, second: int)

  datatype BackupResult = BackupResult(
    device: DeviceConfig,
    success: bool,
    hostname: Json,
    config: string,
    error: string,
    backupPath: string,
    timestamp: DateTime)

  /**
   * BackupResult(device=..., success=..., error=..., timestamp=...): the
   * text fields default to empty, and __post_init__ fills in the clock's
   * time only when no timestamp was given.
   */
  function NewBackupResult(device: DeviceConfig, success: bool, error: string,
                           stamp: Option<DateTime>, now: DateTime): (r: BackupResult)
    ensures stamp.Some? ==> r.timestamp == stamp.value
    ensures stamp.None? ==> r.timestamp == now
    ensures r.device == device && r.success == success && r.error == error
    ensures r.hostname == JStr("") && r.config == "" && r.backupPath == ""
  {
    BackupResult(device, success, JStr(""), "", error, "", stamp.GetOr(now))
  }

  datatype CommandMapping = CommandMapping(
    hostnameCmd: string,
    configCmd: string,
    hostnamePattern: string,
    postLoginCmd: string,
    preLogoutCmd: string,
    enablePassword: bool,
    disablePaging: bool)

  /** CommandMapping(hostname_cmd, config_cmd, hostname_pattern) with the declared defaults. */
  function NewCommandMapping(hostnameCmd: string, configCmd: string, hostnamePattern: string): (m: CommandMapping)
    ensures m.hostnameCmd == hostnameCmd && m.configCmd == configCmd && m.hostnamePattern == hostnamePattern
    ensures m.postLoginCmd == "" && m.preLogoutCmd == ""
    ensures !m.enablePassword && m.disablePaging
  {
    CommandMapping(hostnameCmd, configCmd, hostnamePattern, "", "", false, true)
  }
}
