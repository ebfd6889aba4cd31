/**
 * The configuration manager of the backup tool
 * (network_backup_tool/src/config_manager.py): the built-in settings, the
 * recursive merge of the user's settings into them, the command table and
 * its fallback, the ignore patterns, and the device list.
 *
 * The files are read outside the model: a YAML or JSON document arrives
 * parsed, or as None when the file is missing or cannot be read or parsed.
 */
module BackupConfig {
  import opened Wrappers
  import opened Json
  import Dict
  import opened BackupModels

  /** The entries of a dict read from YAML or JSON. */
  type Fields = Dict.Dict<string, Json>

  /**
   * The loop of _deep_merge over `update`, starting from the copy `result`:
   * each key's value replaces the current one, except that two dicts are
   * merged recursively.
   */
  function Merge(result: Fields, update: Fields): Fields
    decreases update
  {
    if update == [] then result
    else
      assert update[0].1 < update[0];
      Merge(Dict.Put(result, update[0].0, Combined(Dict.Get(result, update[0].0), update[0].1)), update[1..])
  }

  /** result[key] = _deep_merge(result[key], value) or value */
  function Step(result: Fields, key: string, value: Json): Fields
  {
    Dict.Put(result, key, Combined(Dict.Get(result, key), value))
  }

  /** The value a key ends up with: two dicts merge, anything else is replaced. */
  function Combined(current: Option<Json>, value: Json): Json
    decreases value
  {
    if current.Some? && current.value.JObj? && value.JObj? then JObj(Merge(current.value.fields, value.fields))
    else value
  }

  /** _deep_merge(base, update); the base itself is a value and stays as it was. */
  method DeepMerge(base: Fields, update: Fields) returns (result: Fields)
    ensures result == Merge(base, update)
    ensures update == [] ==> result == base
    decreases update
  {
    result := base;
    var i := 0;
    while i < |update|
      invariant 0 <= i <= |update|
      invariant Merge(result, update[i..]) == Merge(base, update)
    {
      var key, value := update[i].0, update[i].1;
      var current := Dict.Get(result, key);
      var merged := value;
      if current.Some? && current.value.JObj? && value.JObj? {
        assert update[i].1 < update[i];
        var inner := DeepMerge(current.value.fields, value.fields);
        merged := JObj(inner);
      }
      assert update[i..][0] == update[i] && update[i..][1..] == update[i + 1..];
      result := Dict.Put(result, key, merged);
      i := i + 1;
    }
  }

  /** The merged dict has exactly the keys of both inputs. */
  lemma {:induction false} MergeKeys(result: Fields, update: Fields, k: string)
    ensures Dict.HasKey(Merge(result, update), k) <==> Dict.HasKey(result, k) || Dict.HasKey(update, k)
    decreases update
  {
    if update != [] {
      var key, value := update[0].0, update[0].1;
      var step := Step(result, key, value);
      MergeKeys(step, update[1..], k);
      Dict.HasKeyPut(result, key, Combined(Dict.Get(result, key), value), k);
      if Dict.HasKey(update[1..], k) {
        var i :| 0 <= i < |update[1..]| && update[1..][i].0 == k;
        assert update[i + 1].0 == k;
      }
      if Dict.HasKey(update, k) && key != k {
        var i :| 0 <= i < |update| && update[i].0 == k;
        assert update[1..][i - 1].0 == k;
      }
    }
  }

  /** Merging never loses a key of the base. */
  lemma MergeKeepsKeys(result: Fields, update: Fields)
    ensures forall k | Dict.HasKey(result, k) :: Dict.HasKey(Merge(result, update), k)
  {
    forall k | Dict.HasKey(result, k)
      ensures Dict.HasKey(Merge(result, update), k)
    {
      MergeKeys(result, update, k);
    }
  }

  /**
   * What each key reads after the merge: a key of the update gets its value,
   * merged recursively with the base's when both are dicts; any other key
   * keeps the base's value.
   */
  lemma {:induction false} MergeGet(result: Fields, update: Fields, k: string)
    requires Dict.UniqueKeys(update)
    ensures Dict.Get(Merge(result, update), k) ==
              if Dict.HasKey(update, k) then Some(Combined(Dict.Get(result, k), Dict.Get(update, k).value))
              else Dict.Get(result, k)
    decreases update
  {
    if update != [] {
      var key, value := update[0].0, update[0].1;
      var step := Step(result, key, value);
      var rest := update[1..];
      assert Dict.UniqueKeys(rest) by {
        forall i, j | 0 <= i < j < |rest|
          ensures rest[i].0 != rest[j].0
        {
          assert rest[i] == update[i + 1] && rest[j] == update[j + 1];
        }
      }
      MergeGet(step, rest, k);
      Dict.GetFirst(update, key, 0);
      if k == key {
        assert !Dict.HasKey(rest, k) by {
          forall i | 0 <= i < |rest|
            ensures rest[i].0 != k
          {
            assert rest[i] == update[i + 1];
          }
        }
        Dict.GetPutSame(result, key, Combined(Dict.Get(result, key), value));
      } else {
        Dict.GetPutOther(result, key, Combined(Dict.Get(result, key), value), k);
        Dict.GetTail(update, k);
      }
    }
  }

  /** Merging keeps the keys of a dict distinct. */
  lemma {:induction false} MergeUnique(result: Fields, update: Fields)
    requires Dict.UniqueKeys(result)
    ensures Dict.UniqueKeys(Merge(result, update))
    decreases update
  {
    if update != [] {
      var key, value := update[0].0, update[0].1;
      Dict.PutUnique(result, key, Combined(Dict.Get(result, key), value));
      MergeUnique(Step(result, key, value), update[1..]);
    }
  }

  /** The settings used when the user's file gives none. */
  const DefaultConfig: Fields := [
    ("global", JObj([
      ("username", JStr("admin")),
      ("password", JStr("")),
      ("port", JInt(22)),
      ("timeout", JInt(30)),
      ("use_keys", JBool(false)),
      ("key_file", JStr("~/.ssh/id_rsa")),
      ("transport", JStr("ssh"))])),
    ("backup", JObj([
      ("backup_dir", JStr("backups")),
      ("reports_dir", JStr("reports")),
      ("logs_dir", JStr("logs")),
      ("max_backups", JInt(30)),
      ("max_workers", JInt(5)),
      ("parallel_mode", JBool(true))])),
    ("comparison", JObj([
      ("context_lines", JInt(3)),
      ("ignore_patterns", JObj([
        ("common", JList([
          JStr("^! Time:.*"),
          JStr("^! Last configuration change.*"),
          JStr("^! NVRAM config last updated.*"),
          JStr("^Building configuration.*"),
          JStr("^Current configuration :.*"),
          JStr("^## Last commit:.*"),
          JStr("^## .*"),
          JStr("^# .*")]))]))]))]

  /**
   * _load_config: the user's document, or {} when it is empty, merged into
   * the defaults.  A missing or unreadable file, or a document that is not
   * a dict (merging it raises), leaves the defaults as they are.
   */
  function LoadConfig(defaults: Fields, file: Option<Json>): (r: Fields)
    ensures forall k | Dict.HasKey(defaults, k) :: Dict.HasKey(r, k)
    ensures file.None? ==> r == defaults
    ensures file.Some? && Truthy(file.value) && !file.value.JObj? ==> r == defaults
    ensures file.Some? && !Truthy(file.value) ==> r == defaults
    ensures file.Some? && Truthy(file.value) && file.value.JObj? ==> r == Merge(defaults, file.value.fields)
  {
    match file
    case None => defaults
    case Some(doc) =>
      var user := if Truthy(doc) then doc else JObj([]);
      if user.JObj? then
        MergeKeepsKeys(defaults, user.fields);
        Merge(defaults, user.fields)
      else defaults
  }

  /** The command table used when the command file is missing or unreadable. */
  const DefaultCommands: Json := JObj([
    ("cisco_ios", JObj([
      ("hostname_cmd", JStr("show running-config | include hostname")),
      ("config_cmd", JStr("show running-config")),
      ("hostname_pattern", JStr("hostname\\s+(\\S+)")),
      ("enable_password", JBool(true)),
      ("disable_paging", JBool(true))])),
    ("cisco_nxos", JObj([
      ("hostname_cmd", JStr("show running-config | include hostname")),
      ("config_cmd", JStr("show running-config")),
      ("hostname_pattern", JStr("hostname\\s+(\\S+)")),
      ("disable_paging", JBool(true))])),
    ("juniper_junos", JObj([
      ("hostname_cmd", JStr("show configuration system host-name")),
      ("config_cmd", JStr("show configuration | display set")),
      ("hostname_pattern", JStr("host-name\\s+(\\S+);")),
      ("disable_paging", JBool(true))])),
    ("huawei", JObj([
      ("hostname_cmd", JStr("display current-configuration | include sysname")),
      ("config_cmd", JStr("display current-configuration")),
      ("hostname_pattern", JStr("sysname\\s+(\\S+)")),
      ("disable_paging", JStr("screen-length 0 temporary"))])),
    ("arista_eos", JObj([
      ("hostname_cmd", JStr("show running-config | include hostname")),
      ("config_cmd", JStr("show running-config")),
      ("hostname_pattern", JStr("hostname\\s+(\\S+)")),
      ("disable_paging", JBool(true))]))])

  /**
   * _load_commands: a file that exists is used as it is, or as {} when it
   * is empty; only a missing or unreadable one gives the built-in table.
   */
  function LoadCommands(defaults: Json, file: Option<Json>): (r: Json)
    ensures file.None? ==> r == defaults
    ensures file.Some? && !Truthy(file.value) ==> r == JObj([])
    ensures file.Some? && Truthy(file.value) ==> r == file.value
  {
    match file
    case None => defaults
    case Some(doc) => if Truthy(doc) then doc else JObj([])
  }

  /** A value Python can use as a dict key: lists and dicts cannot. */
  predicate Hashable(j: Json)
  {
    !j.JList? && !j.JObj?
  }

  /** d.get(key) for a hashable key; only text equals a text key. */
  function Lookup(d: Fields, key: Json): (r: Option<Json>)
    ensures r.Some? ==> key.JStr? && Dict.HasKey(d, key.s)
    ensures key.JStr? && Dict.HasKey(d, key.s) ==> r.Some?
  {
    if key.JStr? then Dict.Get(d, key.s) else None
  }

  /**
   * get_device_commands: the entry of the device type, else the cisco_ios
   * entry, else {}.  None when the call raises: the table is not a dict, or
   * the type cannot be a key.
   */
  function GetDeviceCommands(commands: Json, deviceType: Json): (r: Option<Json>)
    ensures r.Some? <==> commands.JObj? && Hashable(deviceType)
    ensures r.Some? && Lookup(commands.fields, deviceType).Some? ==>
              r.value == Lookup(commands.fields, deviceType).value
    ensures r.Some? && Lookup(commands.fields, deviceType).None? && Dict.HasKey(commands.fields, "cisco_ios") ==>
              r.value == Dict.Get(commands.fields, "cisco_ios").value
    ensures r.Some? && Lookup(commands.fields, deviceType).None? && !Dict.HasKey(commands.fields, "cisco_ios") ==>
              r.value == JObj([])
  {
    if commands.JObj? && Hashable(deviceType) then
      var fallback := Dict.Get(commands.fields, "cisco_ios").GetOr(JObj([]));
      Some(Lookup(commands.fields, deviceType).GetOr(fallback))
    else None
  }

  /** config['comparison']['ignore_patterns'], when both subscripts succeed and give a dict. */
  function IgnoreTable(config: Fields): Option<Fields>
  {
    var c := Dict.Get(config, "comparison");
    if c.Some? && c.value.JObj? then
      var t := Dict.Get(c.value.fields, "ignore_patterns");
      if t.Some? && t.value.JObj? then Some(t.value.fields) else None
    else None
  }

  /** The items list.extend(x) appends: a list's items, a text's characters, a dict's keys; None when x is not iterable. */
  function ExtendItems(x: Json): (r: Option<seq<Json>>)
    ensures x.JList? ==> r == Some(x.items)
    ensures x.JStr? ==> r.Some? && |r.value| == |x.s|
    ensures x.JObj? ==> r.Some? && |r.value| == |x.fields|
    ensures x.JNull? || x.JBool? || x.JInt? || x.JFloat? ==> r.None?
  {
    match x
    case JList(items) => Some(items)
    case JStr(s) => Some(seq(|s|, i requires 0 <= i < |s| => JStr([s[i]])))
    case JObj(fields) => Some(seq(|fields|, i requires 0 <= i < |fields| => JStr(fields[i].0)))
    case _ => None
  }

  /** ignore_patterns.get('common', []) */
  function CommonEntry(table: Fields): Json
  {
    Dict.Get(table, "common").GetOr(JList([]))
  }

  /** The device type's own patterns, ignore_patterns.get(device_type, []), as extend reads them. */
  function DevicePatterns(table: Fields, deviceType: Json): Option<seq<Json>>
  {
    if Hashable(deviceType) then ExtendItems(Lookup(table, deviceType).GetOr(JList([]))) else None
  }

  /**
   * What get_ignore_patterns returns: the common list followed by the
   * device type's patterns; None when it raises (a section missing or not a
   * dict, a common entry that is not a list, device patterns that are not
   * iterable or a type that cannot be a key).
   */
  function IgnorePatterns(config: Fields, deviceType: Json): (r: Option<seq<Json>>)
    ensures r.Some? ==> IgnoreTable(config).Some? && CommonEntry(IgnoreTable(config).value).JList?
    ensures r.Some? ==> var table := IgnoreTable(config).value;
              DevicePatterns(table, deviceType).Some?
              && r.value == CommonEntry(table).items + DevicePatterns(table, deviceType).value
    ensures (IgnoreTable(config).Some? && CommonEntry(IgnoreTable(config).value).JList?
             && DevicePatterns(IgnoreTable(config).value, deviceType).Some?) ==> r.Some?
  {
    match IgnoreTable(config)
    case None => None
    case Some(table) =>
      var common := CommonEntry(table);
      var extra := DevicePatterns(table, deviceType);
      if common.JList? && extra.Some? then Some(common.items + extra.value) else None
  }

  /** The configuration after common.extend(...): the stored common list, when there is one, now holds `items`. */
  function WithCommon(config: Fields, items: seq<Json>): Fields
  {
    match IgnoreTable(config)
    case Some(table) =>
      if Dict.HasKey(table, "common") then
        var c := Dict.Get(config, "comparison").value.fields;
        Dict.Put(config, "comparison", JObj(Dict.Put(c, "ignore_patterns", JObj(Dict.Put(table, "common", JList(items))))))
      else config
    case None => config
  }

  /** After the common list has been extended in place, the ignore table reads it back. */
  lemma WithCommonTable(config: Fields, items: seq<Json>)
    requires IgnoreTable(config).Some? && Dict.HasKey(IgnoreTable(config).value, "common")
    ensures IgnoreTable(WithCommon(config, items)) == Some(Dict.Put(IgnoreTable(config).value, "common", JList(items)))
  {
    var table := IgnoreTable(config).value;
    var c := Dict.Get(config, "comparison").value.fields;
    var t := Dict.Put(table, "common", JList(items));
    var c2 := Dict.Put(c, "ignore_patterns", JObj(t));
    Dict.GetPutSame(config, "comparison", JObj(c2));
    Dict.GetPutSame(c, "ignore_patterns", JObj(t));
  }

  /**
   * The patterns of one call stay in the stored common list: a second call
   * returns the common patterns, the first type's and then the second's.
   */
  lemma IgnorePatternsAccumulate(config: Fields, t1: Json, t2: Json)
    requires IgnorePatterns(config, t1).Some? && IgnorePatterns(config, t2).Some?
    requires Dict.HasKey(IgnoreTable(config).value, "common")
    requires t2 != JStr("common")
    ensures var table := IgnoreTable(config).value;
      IgnorePatterns(WithCommon(config, IgnorePatterns(config, t1).value), t2)
        == Some(CommonEntry(table).items + DevicePatterns(table, t1).value + DevicePatterns(table, t2).value)
  {
    var table := IgnoreTable(config).value;
    var p1 := IgnorePatterns(config, t1).value;
    WithCommonTable(config, p1);
    var t := Dict.Put(table, "common", JList(p1));
    Dict.GetPutSame(table, "common", JList(p1));
    if t2.JStr? {
      Dict.GetPutOther(table, "common", JList(p1), t2.s);
    }
    assert DevicePatterns(t, t2) == DevicePatterns(table, t2);
  }

  class ConfigManager {
    /** self.config */
    var config: Fields
    /** self.commands */
    const commands: Json

    /** __init__: both files are loaded once. */
    constructor (configFile: Option<Json>, commandsFile: Option<Json>)
      ensures config == LoadConfig(DefaultConfig, configFile)
      ensures commands == LoadCommands(DefaultCommands, commandsFile)
    {
      config := LoadConfig(DefaultConfig, configFile);
      commands := LoadCommands(DefaultCommands, commandsFile);
    }

    /**
     * get_ignore_patterns: the list returned is the stored common list
     * itself, extended in place, so the device patterns stay in it for
     * later calls; without a common entry a fresh list is returned and
     * nothing is stored.
     */
    method GetIgnorePatterns(deviceType: Json) returns (patterns: Option<seq<Json>>)
      modifies this
      ensures patterns == IgnorePatterns(old(config), deviceType)
      ensures patterns.Some? ==> config == WithCommon(old(config), patterns.value)
      ensures patterns.None? ==> config == old(config)
    {
      patterns := IgnorePatterns(config, deviceType);
      if patterns.Some? {
        config := WithCommon(config, patterns.value);
      }
    }

    /** load_devices, reading the settings it has loaded. */
    method LoadDevices(file: DevicesFile) returns (devices: seq<DeviceConfig>)
      ensures devices == LoadedDevices(config, file)
    {
      if !(file.Parsed? && file.data.JList?) {
        return [];
      }
      devices := BuildDevices(GlobalOk(config), GlobalOf(config), file.data.items);
    }
  }

  /**
   * The loop of load_devices over the entries of a list document: [] as
   * soon as building a record raises (an entry that is not a dict, or
   * global defaults that cannot be read), otherwise the records whose host
   * is not empty.
   */
  method BuildDevices(globalOk: bool, global: Fields, items: seq<Json>) returns (devices: seq<DeviceConfig>)
    ensures devices == Built(globalOk, global, items)
  {
    devices := [];
    var i := 0;
    while i < |items|
      invariant 0 <= i <= |items|
      invariant forall j | 0 <= j < i :: items[j].JObj?
      invariant i > 0 ==> globalOk
      invariant devices == Kept(Records(global, items[..i]))
    {
      if !items[i].JObj? || !globalOk {
        return [];
      }
      var r := Record(global, items[i]);
      if r.Some? {
        devices := devices + [r.value];
      }
      ghost var before := Records(global, items[..i]);
      ghost var after := Records(global, items[..i + 1]);
      assert after == before + [r] by {
        forall j | 0 <= j < |after|
          ensures after[j] == (before + [r])[j]
        {
          assert items[..i + 1][j] == if j < i then items[..i][j] else items[i];
        }
      }
      i := i + 1;
    }
    assert items[..i] == items;
  }

  /** What the loop of load_devices returns. */
  function Built(globalOk: bool, global: Fields, items: seq<Json>): seq<DeviceConfig>
  {
    if (exists i | 0 <= i < |items| :: !items[i].JObj?) || (items != [] && !globalOk) then []
    else Kept(Records(global, items))
  }

  /** How the device file reads: missing, unreadable or invalid JSON, or a parsed document. */
  datatype DevicesFile = NoFile | Unreadable | Parsed(data: Json)

  /** The global defaults load_devices subscripts. */
  const GlobalKeys: seq<string> := ["username", "password", "port", "timeout", "use_keys", "transport"]

  /** config['global'][name] succeeds for each name load_devices subscripts. */
  predicate GlobalOk(config: Fields)
  {
    var g := Dict.Get(config, "global");
    g.Some? && g.value.JObj? && forall name | name in GlobalKeys :: Dict.HasKey(g.value.fields, name)
  }

  /** The global section as a dict ([] when it is not one). */
  function GlobalOf(config: Fields): Fields
  {
    var g := Dict.Get(config, "global");
    if g.Some? && g.value.JObj? then g.value.fields else []
  }

  /** d.get(name, default), searching the entries in order. */
  function Field(d: Fields, name: string, default: Json): Json
    decreases |d|
  {
    if d == [] then default
    else if d[0].0 == name then d[0].1
    else Field(d[1..], name, default)
  }

  /** The search agrees with the dict's lookup. */
  lemma {:induction false} FieldGet(d: Fields, name: string, default: Json)
    ensures Field(d, name, default) == Dict.Get(d, name).GetOr(default)
    decreases |d|
  {
    if d != [] {
      if d[0].0 == name {
        Dict.GetFirst(d, name, 0);
      } else {
        Dict.GetTail(d, name);
        FieldGet(d[1..], name, default);
      }
    }
  }

  /**
   * The record load_devices builds from one entry: each field the entry
   * gives, else the global default; device_type defaults to 'cisco_ios',
   * host and secret to ''.
   */
  function DeviceOf(global: Fields, item: Fields): DeviceConfig
  {
    DeviceConfig(
      Field(item, "host", JStr("")),
      Field(item, "device_type", JStr("cisco_ios")),
      Field(item, "username", Field(global, "username", JNull)),
      Field(item, "password", Field(global, "password", JNull)),
      Field(item, "port", Field(global, "port", JNull)),
      Field(item, "secret", JStr("")),
      Field(item, "timeout", Field(global, "timeout", JNull)),
      Field(item, "use_keys", Field(global, "use_keys", JNull)),
      Field(item, "key_file", Field(global, "key_file", JStr(""))),
      Field(item, "transport", Field(global, "transport", JNull)))
  }

  /** A field the entry gives is taken from it. */
  predicate Given(item: Fields, name: string, v: Json)
  {
    Dict.HasKey(item, name) ==> v == Dict.Get(item, name).value
  }

  /** Every field the entry gives is taken from it. */
  lemma DeviceOfGiven(global: Fields, item: Fields)
    ensures var d := DeviceOf(global, item);
      Given(item, "host", d.host) && Given(item, "device_type", d.deviceType)
      && Given(item, "username", d.username) && Given(item, "password", d.password)
      && Given(item, "port", d.port) && Given(item, "secret", d.secret)
      && Given(item, "timeout", d.timeout) && Given(item, "use_keys", d.useKeys)
      && Given(item, "key_file", d.keyFile) && Given(item, "transport", d.transport)
  {
    FieldGet(item, "host", JStr(""));
    FieldGet(item, "device_type", JStr("cisco_ios"));
    FieldGet(item, "secret", JStr(""));
    FieldGet(item, "username", Field(global, "username", JNull));
    FieldGet(item, "password", Field(global, "password", JNull));
    FieldGet(item, "port", Field(global, "port", JNull));
    FieldGet(item, "timeout", Field(global, "timeout", JNull));
    FieldGet(item, "use_keys", Field(global, "use_keys", JNull));
    FieldGet(item, "key_file", Field(global, "key_file", JStr("")));
    FieldGet(item, "transport", Field(global, "transport", JNull));
  }

  /** A field the entry leaves out takes the default given. */
  lemma FieldAbsent(item: Fields, name: string, default: Json)
    requires !Dict.HasKey(item, name)
    ensures Field(item, name, default) == default
  {
    FieldGet(item, name, default);
  }

  /** A field the entry leaves out takes the fixed default or the global one. */
  lemma DeviceOfDefaults(global: Fields, item: Fields)
    ensures var d := DeviceOf(global, item);
      (!Dict.HasKey(item, "host") ==> d.host == JStr(""))
      && (!Dict.HasKey(item, "device_type") ==> d.deviceType == JStr("cisco_ios"))
      && (!Dict.HasKey(item, "secret") ==> d.secret == JStr(""))
      && (!Dict.HasKey(item, "username") ==> d.username == Field(global, "username", JNull))
      && (!Dict.HasKey(item, "password") ==> d.password == Field(global, "password", JNull))
      && (!Dict.HasKey(item, "port") ==> d.port == Field(global, "port", JNull))
      && (!Dict.HasKey(item, "timeout") ==> d.timeout == Field(global, "timeout", JNull))
      && (!Dict.HasKey(item, "use_keys") ==> d.useKeys == Field(global, "use_keys", JNull))
      && (!Dict.HasKey(item, "key_file") ==> d.keyFile == Field(global, "key_file", JStr("")))
      && (!Dict.HasKey(item, "transport") ==> d.transport == Field(global, "transport", JNull))
  {
    var d := DeviceOf(global, item);
    if !Dict.HasKey(item, "host") { FieldAbsent(item, "host", JStr("")); }
    if !Dict.HasKey(item, "device_type") { FieldAbsent(item, "device_type", JStr("cisco_ios")); }
    if !Dict.HasKey(item, "secret") { FieldAbsent(item, "secret", JStr("")); }
    if !Dict.HasKey(item, "username") { FieldAbsent(item, "username", Field(global, "username", JNull)); }
    if !Dict.HasKey(item, "password") { FieldAbsent(item, "password", Field(global, "password", JNull)); }
    if !Dict.HasKey(item, "port") { FieldAbsent(item, "port", Field(global, "port", JNull)); }
    if !Dict.HasKey(item, "timeout") { FieldAbsent(item, "timeout", Field(global, "timeout", JNull)); }
    if !Dict.HasKey(item, "use_keys") { FieldAbsent(item, "use_keys", Field(global, "use_keys", JNull)); }
    if !Dict.HasKey(item, "key_file") { FieldAbsent(item, "key_file", Field(global, "key_file", JStr(""))); }
    if !Dict.HasKey(item, "transport") { FieldAbsent(item, "transport", Field(global, "transport", JNull)); }
  }

  /** The record an entry contributes: none when its host is empty. */
  function Record(global: Fields, item: Json): (r: Option<DeviceConfig>)
    requires item.JObj?
    ensures r.Some? ==> Truthy(r.value.host)
  {
    var d := DeviceOf(global, item.fields);
    if Truthy(d.host) then Some(d) else None
  }

  /** What each dict entry contributes, in file order. */
  function Records(global: Fields, items: seq<Json>): (r: seq<Option<DeviceConfig>>)
    requires forall i | 0 <= i < |items| :: items[i].JObj?
    ensures |r| == |items| && forall i | 0 <= i < |items| :: r[i] == Record(global, items[i])
  {
    seq(|items|, i requires 0 <= i < |items| && items[i].JObj? => Record(global, items[i]))
  }

  /** The records that are there, in order. */
  function Kept(records: seq<Option<DeviceConfig>>): seq<DeviceConfig>
  {
    if records == [] then []
    else
      var rest := Kept(records[..|records| - 1]);
      match records[|records| - 1]
      case Some(d) => rest + [d]
      case None => rest
  }

  /**
   * What load_devices returns: [] for a missing or unreadable file, for a
   * document that is not a list, and whenever building a record raises (an
   * entry that is not a dict, a global default that cannot be read).
   */
  function LoadedDevices(config: Fields, file: DevicesFile): (r: seq<DeviceConfig>)
    ensures !(file.Parsed? && file.data.JList?) ==> r == []
    ensures file.Parsed? && file.data.JList? && (exists i | 0 <= i < |file.data.items| :: !file.data.items[i].JObj?) ==> r == []
  {
    if file.Parsed? && file.data.JList? then Built(GlobalOk(config), GlobalOf(config), file.data.items)
    else []
  }

  /** Keeping distributes over concatenation: the kept records stay in file order. */
  lemma {:induction false} KeptAppend(a: seq<Option<DeviceConfig>>, b: seq<Option<DeviceConfig>>)
    ensures Kept(a + b) == Kept(a) + Kept(b)
    decreases |b|
  {
    if b == [] {
      assert a + b == a;
    } else {
      var b' := b[..|b| - 1];
      assert (a + b)[..|a + b| - 1] == a + b';
      KeptAppend(a, b');
    }
  }

  /** A record is kept exactly when it is there. */
  lemma {:induction false} KeptMembers(records: seq<Option<DeviceConfig>>, d: DeviceConfig)
    ensures d in Kept(records) <==> Some(d) in records
    decreases |records|
  {
    if records != [] {
      var front := records[..|records| - 1];
      KeptMembers(front, d);
      assert records == front + [records[|records| - 1]];
    }
  }

  /** Every loaded device has a non-empty host. */
  lemma LoadedHosts(config: Fields, file: DevicesFile)
    ensures forall d | d in LoadedDevices(config, file) :: Truthy(d.host)
  {
    if file.Parsed? && file.data.JList? {
      forall d | d in LoadedDevices(config, file)
        ensures Truthy(d.host)
      {
        var items := file.data.items;
        if forall i | 0 <= i < |items| :: items[i].JObj? {
          KeptMembers(Records(GlobalOf(config), items), d);
        }
      }
    }
  }
}
