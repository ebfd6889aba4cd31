/**
 * The configuration validator of the backup tool
 * (network_backup_tool/validate_config.py): checks of the device list, the
 * command table, the default configuration and regular expressions, and
 * the warning about device types used but not defined.
 *
 * Each error is a `Problem` value; `Message` gives the exact text the
 * validator appends for it.  re.compile stays abstract: a `Compiler` gives
 * None for a pattern that compiles and the re.error message otherwise.  A
 * validator that raises (re.compile given something that is not text, a
 * non-dict document indexed like a dict) returns None.
 */
module Validator {
  import opened Wrappers
  import opened Json
  import Dict
  import Text
  import BackupConfig

  type Compiler = string -> Option<string>

  type Fields = Dict.Dict<string, Json>

  datatype Problem =
    | PatternInvalid(index: nat, pattern: string, reason: string)
    | CommandNotDict(deviceType: string)
    | CommandFieldMissing(deviceType: string, field: string)
    | HostnamePatternInvalid(deviceType: string, reason: string)
    | DevicesNotArray
    | DeviceNotDict(index: nat)
    | DeviceFieldMissing(index: nat, field: string)
    | HostEmpty(index: nat)
    | DeviceTypeEmpty(index: nat)
    | PortOutOfRange(index: nat)
    | PortNotNumber(index: nat)
    | SectionMissing(section: string)
    | GlobalNotDict
    | GlobalPortOutOfRange
    | GlobalPortNotNumber
    | MaxBackupsTooSmall
    | MaxBackupsNotNumber
    | MaxWorkersTooSmall
    | MaxWorkersNotNumber
    | ContextLinesNegative
    | ContextLinesNotNumber
    | IgnorePatternsNotDict
    | CommonNotList
    | CommonPatternInvalid(index: nat, pattern: string, reason: string)

  /** The text of an error; indexes print 1-based. */
  function Message(p: Problem): string
  {
    match p
    case PatternInvalid(i, pattern, reason) => PatternText(i, pattern, reason)
    case CommandNotDict(t) => "Device type '" + t + "': Configuration must be a dictionary"
    case CommandFieldMissing(t, field) => "Device type '" + t + "': Missing required field '" + field + "'"
    case HostnamePatternInvalid(t, reason) => "Device type '" + t + "': Invalid hostname pattern: " + reason
    case DevicesNotArray => "Devices must be a JSON array"
    case DeviceNotDict(i) => "Device " + Text.NatToString(i + 1) + ": Must be a dictionary"
    case DeviceFieldMissing(i, field) => "Device " + Text.NatToString(i + 1) + ": Missing required field '" + field + "'"
    case HostEmpty(i) => "Device " + Text.NatToString(i + 1) + ": Host cannot be empty"
    case DeviceTypeEmpty(i) => "Device " + Text.NatToString(i + 1) + ": Device type cannot be empty"
    case PortOutOfRange(i) => "Device " + Text.NatToString(i + 1) + ": Port must be between 1 and 65535"
    case PortNotNumber(i) => "Device " + Text.NatToString(i + 1) + ": Port must be a number"
    case SectionMissing(s) => "Missing required section '" + s + "'"
    case GlobalNotDict => "Global section must be a dictionary"
    case GlobalPortOutOfRange => "Global port must be between 1 and 65535"
    case GlobalPortNotNumber => "Global port must be a number"
    case MaxBackupsTooSmall => "max_backups must be at least 1"
    case MaxBackupsNotNumber => "max_backups must be a number"
    case MaxWorkersTooSmall => "max_workers must be at least 1"
    case MaxWorkersNotNumber => "max_workers must be a number"
    case ContextLinesNegative => "context_lines cannot be negative"
    case ContextLinesNotNumber => "context_lines must be a number"
    case IgnorePatternsNotDict => "ignore_patterns must be a dictionary"
    case CommonNotList => "ignore_patterns.common must be a list"
    case CommonPatternInvalid(i, pattern, reason) => "Common pattern error: " + PatternText(i, pattern, reason)
  }

  function PatternText(i: nat, pattern: string, reason: string): string
  {
    "Pattern " + Text.NatToString(i + 1) + " '" + pattern + "': " + reason
  }

  // ---------------------------------------------------------------------
  // validate_regex_patterns

  /** The errors of a pattern list; None when an entry is not text (re.compile raises TypeError). */
  function PatternProblems(patterns: seq<Json>, compile: Compiler): (r: Option<seq<Problem>>)
    ensures r.Some? <==> forall i | 0 <= i < |patterns| :: patterns[i].JStr?
    ensures r.Some? ==> forall p | p in r.value :: p.PatternInvalid? && p.index < |patterns|
    decreases |patterns|
  {
    if patterns == [] then Some([])
    else
      var front := patterns[..|patterns| - 1];
      var last := patterns[|patterns| - 1];
      assert forall i | 0 <= i < |front| :: front[i] == patterns[i];
      match PatternProblems(front, compile)
      case None => None
      case Some(errors) =>
        if !last.JStr? then None
        else match compile(last.s)
          case None => Some(errors)
          case Some(reason) => Some(errors + [PatternInvalid(|front|, last.s, reason)])
  }

  /** No error at all exactly when every pattern is text that compiles; the i-th error names the i-th failing pattern. */
  lemma {:induction false} PatternProblemsExact(patterns: seq<Json>, compile: Compiler, i: int)
    requires 0 <= i < |patterns| && patterns[i].JStr?
    requires PatternProblems(patterns, compile).Some?
    ensures compile(patterns[i].s).Some? <==>
              PatternInvalid(i, patterns[i].s, compile(patterns[i].s).GetOr("")) in PatternProblems(patterns, compile).value
    decreases |patterns|
  {
    var front := patterns[..|patterns| - 1];
    assert forall k | 0 <= k < |front| :: front[k] == patterns[k];
    if i < |front| {
      PatternProblemsExact(front, compile, i);
    } else {
      var prev := PatternProblems(front, compile).value;
      assert forall p | p in prev :: p.index < |front|;
    }
  }

  /** validate_regex_patterns */
  method ValidateRegexPatterns(patterns: seq<Json>, compile: Compiler) returns (r: Option<seq<Problem>>)
    ensures r == PatternProblems(patterns, compile)
  {
    var errors: seq<Problem> := [];
    var i := 0;
    while i < |patterns|
      invariant 0 <= i <= |patterns|
      invariant PatternProblems(patterns[..i], compile) == Some(errors)
    {
      assert patterns[..i + 1][..i] == patterns[..i];
      if !patterns[i].JStr? {
        PatternsRaise(patterns, compile, i);
        return None;
      }
      var reason := compile(patterns[i].s);
      if reason.Some? {
        errors := errors + [PatternInvalid(i, patterns[i].s, reason.value)];
      }
      i := i + 1;
    }
    assert patterns[..i] == patterns;
    r := Some(errors);
  }

  /** One pattern that is not text makes the whole list raise. */
  lemma PatternsRaise(patterns: seq<Json>, compile: Compiler, i: int)
    requires 0 <= i < |patterns| && !patterns[i].JStr?
    ensures PatternProblems(patterns, compile).None?
  {
  }

  // ---------------------------------------------------------------------
  // validate_device_commands

  const CommandFields: seq<string> := ["hostname_cmd", "config_cmd", "hostname_pattern"]

  /** The required command fields an entry lacks, in declaration order. */
  function MissingCommandFields(deviceType: string, entry: Fields, fields: seq<string>): (r: seq<Problem>)
    ensures forall p | p in r :: p.CommandFieldMissing? && p.deviceType == deviceType
    ensures forall f :: CommandFieldMissing(deviceType, f) in r <==> f in fields && !Dict.HasKey(entry, f)
    ensures |r| <= |fields|
    decreases |fields|
  {
    if fields == [] then []
    else
      (if Dict.HasKey(entry, fields[0]) then [] else [CommandFieldMissing(deviceType, fields[0])])
      + MissingCommandFields(deviceType, entry, fields[1..])
  }

  /**
   * The errors of one command-table entry: exactly one when it is not a
   * dict; otherwise one per missing required field and one more when the
   * hostname pattern does not compile.  None when the pattern is not text.
   */
  function CommandProblems(deviceType: string, entry: Json, compile: Compiler): (r: Option<seq<Problem>>)
    ensures !entry.JObj? ==> r == Some([CommandNotDict(deviceType)])
    ensures entry.JObj? && r.Some? ==>
              |r.value| == |MissingCommandFields(deviceType, entry.fields, CommandFields)|
                           + (if Invalid(Dict.Get(entry.fields, "hostname_pattern"), compile) then 1 else 0)
    ensures r.None? <==> entry.JObj? && Dict.HasKey(entry.fields, "hostname_pattern")
                         && !Dict.Get(entry.fields, "hostname_pattern").value.JStr?
  {
    if !entry.JObj? then Some([CommandNotDict(deviceType)])
    else
      var missing := MissingCommandFields(deviceType, entry.fields, CommandFields);
      match Dict.Get(entry.fields, "hostname_pattern")
      case None => Some(missing)
      case Some(pattern) =>
        if !pattern.JStr? then None
        else match compile(pattern.s)
          case None => Some(missing)
          case Some(reason) => Some(missing + [HostnamePatternInvalid(deviceType, reason)])
  }

  /** A dict entry reports exactly the required fields it lacks. */
  lemma CommandFieldsReported(deviceType: string, entry: Json, compile: Compiler, f: string)
    requires entry.JObj? && CommandProblems(deviceType, entry, compile).Some?
    ensures CommandFieldMissing(deviceType, f) in CommandProblems(deviceType, entry, compile).value <==>
              f in CommandFields && !Dict.HasKey(entry.fields, f)
  {
  }

  /** A hostname pattern that is text and does not compile. */
  predicate Invalid(pattern: Option<Json>, compile: Compiler)
  {
    pattern.Some? && pattern.value.JStr? && compile(pattern.value.s).Some?
  }

  /** The errors of several checks in order; None as soon as one of them raises. */
  function Gather(parts: seq<Option<seq<Problem>>>): (r: Option<seq<Problem>>)
    decreases |parts|
  {
    if parts == [] then Some([])
    else
      match Gather(parts[..|parts| - 1])
      case None => None
      case Some(errors) =>
        var last := parts[|parts| - 1];
        if last.None? then None else Some(errors + last.value)
  }

  /** Gathering raises exactly when one check raises, and reports nothing exactly when no check does. */
  lemma {:induction false} GatherMeaning(parts: seq<Option<seq<Problem>>>)
    ensures Gather(parts).None? <==> exists i | 0 <= i < |parts| :: parts[i].None?
    ensures Gather(parts) == Some([]) <==> forall i | 0 <= i < |parts| :: parts[i] == Some([])
    decreases |parts|
  {
    if parts != [] {
      var n := |parts| - 1;
      var front := parts[..n];
      GatherMeaning(front);
      assert forall i | 0 <= i < n :: front[i] == parts[i];
      if Gather(front).Some? && parts[n].Some? {
        var a, b := Gather(front).value, parts[n].value;
        assert Gather(parts) == Some(a + b);
        assert a + b == [] <==> a == [] && b == [] by {
          assert |a + b| == |a| + |b|;
        }
      }
    }
  }

  /** The result of every entry of the table. */
  function EntryResults(commands: Fields, compile: Compiler): (r: seq<Option<seq<Problem>>>)
    ensures |r| == |commands|
    ensures forall i | 0 <= i < |commands| :: r[i] == CommandProblems(commands[i].0, commands[i].1, compile)
  {
    seq(|commands|, i requires 0 <= i < |commands| => CommandProblems(commands[i].0, commands[i].1, compile))
  }

  /** The errors of the whole table, entry by entry; None when one entry raises. */
  function CommandsProblems(commands: Fields, compile: Compiler): (r: Option<seq<Problem>>)
  {
    Gather(EntryResults(commands, compile))
  }

  /**
   * A table passes exactly when every entry is a dict with the three fields
   * and a compiling hostname pattern, and raises exactly when some entry's
   * hostname pattern is not text.
   */
  lemma CommandsProblemsMeaning(commands: Fields, compile: Compiler)
    ensures CommandsProblems(commands, compile) == Some([]) <==>
              forall i | 0 <= i < |commands| :: CommandProblems(commands[i].0, commands[i].1, compile) == Some([])
    ensures CommandsProblems(commands, compile).None? <==>
              exists i | 0 <= i < |commands| :: CommandProblems(commands[i].0, commands[i].1, compile).None?
  {
    var parts := EntryResults(commands, compile);
    GatherMeaning(parts);
    if CommandsProblems(commands, compile).None? {
      var i :| 0 <= i < |parts| && parts[i].None?;
      assert CommandProblems(commands[i].0, commands[i].1, compile).None?;
    }
  }

  /** Gathering the first i+1 results extends gathering the first i by the next one. */
  lemma GatherStep(parts: seq<Option<seq<Problem>>>, i: int, errors: seq<Problem>)
    requires 0 <= i < |parts| && Gather(parts[..i]) == Some(errors)
    ensures Gather(parts[..i + 1]) == if parts[i].None? then None else Some(errors + parts[i].value)
  {
    assert parts[..i + 1][..i] == parts[..i];
  }

  /** A prefix that raises makes the whole sequence raise. */
  lemma {:induction false} GatherRaise(parts: seq<Option<seq<Problem>>>, i: int)
    requires 0 <= i <= |parts| && Gather(parts[..i]).None?
    ensures Gather(parts).None?
    decreases |parts| - i
  {
    if i < |parts| {
      assert parts[..i + 1][..i] == parts[..i];
      GatherRaise(parts, i + 1);
    } else {
      assert parts[..i] == parts;
    }
  }

  /** validate_device_commands */
  method ValidateDeviceCommands(commands: Fields, compile: Compiler) returns (r: Option<seq<Problem>>)
    ensures r == CommandsProblems(commands, compile)
  {
    ghost var parts := EntryResults(commands, compile);
    var errors: seq<Problem> := [];
    var i := 0;
    while i < |commands|
      invariant 0 <= i <= |commands|
      invariant Gather(parts[..i]) == Some(errors)
    {
      GatherStep(parts, i, errors);
      var more := CommandProblems(commands[i].0, commands[i].1, compile);
      if more.None? {
        GatherRaise(parts, i + 1);
        return None;
      }
      errors := errors + more.value;
      i := i + 1;
    }
    assert parts[..i] == parts;
    r := Some(errors);
  }

  // ---------------------------------------------------------------------
  // validate_devices

  /** The port check: none without a port, else one error when int() fails or the value is outside 1..65535. */
  function PortProblems(i: nat, port: Option<Json>): (r: seq<Problem>)
    ensures r == [] <==> port.None? || (IntOf(port.value).Some? && 1 <= IntOf(port.value).value <= 65535)
    ensures r != [] ==> r == [PortNotNumber(i)] || r == [PortOutOfRange(i)]
  {
    match port
    case None => []
    case Some(v) =>
      match IntOf(v)
      case None => [PortNotNumber(i)]
      case Some(n) => if 1 <= n <= 65535 then [] else [PortOutOfRange(i)]
  }

  /** The errors of device `i` of the list: exactly one when it is not a dict. */
  function DeviceProblems(i: nat, device: Json): (r: seq<Problem>)
    ensures !device.JObj? ==> r == [DeviceNotDict(i)]
  {
    if !device.JObj? then [DeviceNotDict(i)]
    else
      var f := device.fields;
      var host, kind := Dict.Get(f, "host"), Dict.Get(f, "device_type");
      var ports := PortProblems(i, Dict.Get(f, "port"));
      (if host.None? then [DeviceFieldMissing(i, "host")] else [])
      + (if kind.None? then [DeviceFieldMissing(i, "device_type")] else [])
      + (if host.Some? && !Truthy(host.value) then [HostEmpty(i)] else [])
      + (if kind.Some? && !Truthy(kind.value) then [DeviceTypeEmpty(i)] else [])
      + ports
  }

  /** The errors of a dict device, one part per check. */
  lemma DeviceParts(i: nat, device: Json)
    requires device.JObj?
    ensures var f := device.fields;
      var host, kind := Dict.Get(f, "host"), Dict.Get(f, "device_type");
      DeviceProblems(i, device)
      == (if host.None? then [DeviceFieldMissing(i, "host")] else [])
         + (if kind.None? then [DeviceFieldMissing(i, "device_type")] else [])
         + (if host.Some? && !Truthy(host.value) then [HostEmpty(i)] else [])
         + (if kind.Some? && !Truthy(kind.value) then [DeviceTypeEmpty(i)] else [])
         + PortProblems(i, Dict.Get(f, "port"))
  {
  }

  /**
   * A dict device reports a missing host or device type apart from an
   * empty one: "Missing required field" when the key is absent, "cannot be
   * empty" when its value is falsy.
   */
  lemma DeviceFieldsReported(i: nat, device: Json)
    requires device.JObj?
    ensures var r := DeviceProblems(i, device);
      var f := device.fields;
      (DeviceFieldMissing(i, "host") in r <==> !Dict.HasKey(f, "host"))
      && (DeviceFieldMissing(i, "device_type") in r <==> !Dict.HasKey(f, "device_type"))
      && (HostEmpty(i) in r <==> Dict.HasKey(f, "host") && !Truthy(Dict.Get(f, "host").value))
      && (DeviceTypeEmpty(i) in r <==> Dict.HasKey(f, "device_type") && !Truthy(Dict.Get(f, "device_type").value))
  {
    DeviceParts(i, device);
    var ports := PortProblems(i, Dict.Get(device.fields, "port"));
    assert forall p | p in ports :: p.PortNotNumber? || p.PortOutOfRange?;
  }

  /** A dict device reports a port error exactly when int() fails on the port or it lies outside 1..65535, and is never "not a dictionary". */
  lemma DevicePortReported(i: nat, device: Json)
    requires device.JObj?
    ensures var r := DeviceProblems(i, device);
      var port := Dict.Get(device.fields, "port");
      ((PortNotNumber(i) in r || PortOutOfRange(i) in r)
         <==> port.Some? && (IntOf(port.value).None? || !(1 <= IntOf(port.value).value <= 65535)))
      && DeviceNotDict(i) !in r
  {
    DeviceParts(i, device);
  }

  /** A device that passes every check. */
  predicate DeviceOk(device: Json)
  {
    device.JObj?
    && Dict.HasKey(device.fields, "host") && Truthy(Dict.Get(device.fields, "host").value)
    && Dict.HasKey(device.fields, "device_type") && Truthy(Dict.Get(device.fields, "device_type").value)
    && PortProblems(0, Dict.Get(device.fields, "port")) == []
  }

  /** A device has no error exactly when it passes every check. */
  lemma DeviceProblemsEmpty(i: nat, device: Json)
    ensures DeviceProblems(i, device) == [] <==> DeviceOk(device)
  {
    if device.JObj? {
      var port := Dict.Get(device.fields, "port");
      assert PortProblems(i, port) == [] <==> PortProblems(0, port) == [];
    }
  }

  /** The concatenation of several error lists. */
  function Flatten(parts: seq<seq<Problem>>): (r: seq<Problem>)
    decreases |parts|
  {
    if parts == [] then [] else Flatten(parts[..|parts| - 1]) + parts[|parts| - 1]
  }

  /** The concatenation is empty exactly when every part is, and holds exactly the errors of the parts. */
  lemma {:induction false} FlattenMeaning(parts: seq<seq<Problem>>, p: Problem)
    ensures Flatten(parts) == [] <==> forall i | 0 <= i < |parts| :: parts[i] == []
    ensures p in Flatten(parts) <==> exists i | 0 <= i < |parts| :: p in parts[i]
    decreases |parts|
  {
    if parts != [] {
      var n := |parts| - 1;
      var front := parts[..n];
      FlattenMeaning(front, p);
      assert forall i | 0 <= i < n :: front[i] == parts[i];
      var a, b := Flatten(front), parts[n];
      assert a + b == [] <==> a == [] && b == [] by {
        assert |a + b| == |a| + |b|;
      }
      if p in a {
        var i :| 0 <= i < n && p in front[i];
        assert p in parts[i];
      }
    }
  }

  /** The errors of every device of the list. */
  function DeviceResults(devices: seq<Json>): (r: seq<seq<Problem>>)
    ensures |r| == |devices|
    ensures forall i | 0 <= i < |devices| :: r[i] == DeviceProblems(i, devices[i])
  {
    seq(|devices|, i requires 0 <= i < |devices| => DeviceProblems(i, devices[i]))
  }

  /** validate_devices as a whole: exactly one error for anything but a list. */
  function DevicesProblems(devices: Json): (r: seq<Problem>)
    ensures !devices.JList? ==> r == [DevicesNotArray]
  {
    if !devices.JList? then [DevicesNotArray] else Flatten(DeviceResults(devices.items))
  }

  /** A device list passes exactly when every device does; each error belongs to one device. */
  lemma DevicesProblemsMeaning(devices: seq<Json>, p: Problem)
    ensures DevicesProblems(JList(devices)) == [] <==> forall i | 0 <= i < |devices| :: DeviceOk(devices[i])
    ensures p in DevicesProblems(JList(devices)) <==> exists i | 0 <= i < |devices| :: p in DeviceProblems(i, devices[i])
  {
    var parts := DeviceResults(devices);
    FlattenMeaning(parts, p);
    forall i | 0 <= i < |devices|
      ensures parts[i] == [] <==> DeviceOk(devices[i])
    {
      DeviceProblemsEmpty(i, devices[i]);
    }
  }

  /** validate_devices */
  method ValidateDevices(devices: Json) returns (errors: seq<Problem>)
    ensures errors == DevicesProblems(devices)
  {
    if !devices.JList? {
      return [DevicesNotArray];
    }
    var items := devices.items;
    ghost var parts := DeviceResults(items);
    errors := [];
    var i := 0;
    while i < |items|
      invariant 0 <= i <= |items|
      invariant errors == Flatten(parts[..i])
    {
      assert parts[..i + 1][..i] == parts[..i];
      errors := errors + DeviceProblems(i, items[i]);
      i := i + 1;
    }
    assert parts[..i] == parts;
  }

  // ---------------------------------------------------------------------
  // validate_default_config

  const Sections: seq<string> := ["global", "backup", "comparison"]

  /** Python's `key in value`: a dict key, a list element, a substring; None for values `in` cannot search. */
  function In(key: string, value: Json): Option<bool>
  {
    match value
    case JObj(fields) => Some(Dict.HasKey(fields, key))
    case JList(items) => Some(JStr(key) in items)
    case JStr(s) => Some(Text.Contains(s, key))
    case _ => None
  }

  /** The section checks: one error per required section the document lacks. */
  function MissingSections(config: Json, sections: seq<string>): (r: Option<seq<Problem>>)
    ensures r.Some? <==> config.JObj? || config.JList? || config.JStr? || sections == []
    ensures r.Some? ==> forall s :: SectionMissing(s) in r.value <==> s in sections && In(s, config) == Some(false)
    ensures r.Some? ==> forall p | p in r.value :: p.SectionMissing?
    ensures r.Some? ==> |r.value| <= |sections|
    decreases |sections|
  {
    if sections == [] then Some([])
    else
      var n := |sections| - 1;
      assert sections == sections[..n] + [sections[n]];
      match In(sections[n], config)
      case None => None
      case Some(found) =>
        var front := MissingSections(config, sections[..n]).value;
        Some(front + (if found then [] else [SectionMissing(sections[n])]))
  }

  /** int(value) compared with a lower bound: none without the key, else one error when int() fails or the value is too small. */
  function Limit(value: Option<Json>, least: int, tooSmall: Problem, notNumber: Problem): (r: seq<Problem>)
    ensures value.None? ==> r == []
    ensures value.Some? && IntOf(value.value).None? ==> r == [notNumber]
    ensures value.Some? && IntOf(value.value).Some? ==> (r == [tooSmall] <==> IntOf(value.value).value < least)
    ensures value.Some? && IntOf(value.value).Some? ==> (r == [] <==> IntOf(value.value).value >= least)
  {
    match value
    case None => []
    case Some(v) =>
      match IntOf(v)
      case None => [notNumber]
      case Some(n) => if n < least then [tooSmall] else []
  }

  /** The global section: one error when it is not a dict, else the port check. */
  function GlobalProblems(section: Option<Json>): (r: seq<Problem>)
    ensures section.None? ==> r == []
    ensures section.Some? && !section.value.JObj? ==> r == [GlobalNotDict]
    ensures section.Some? && section.value.JObj? ==>
              var port := Dict.Get(section.value.fields, "port");
              r == [] <==> port.None? || (IntOf(port.value).Some? && 1 <= IntOf(port.value).value <= 65535)
    ensures forall p | p in r :: p.GlobalNotDict? || p.GlobalPortOutOfRange? || p.GlobalPortNotNumber?
  {
    if section.None? then []
    else if !section.value.JObj? then [GlobalNotDict]
    else
      match Dict.Get(section.value.fields, "port")
      case None => []
      case Some(v) =>
        match IntOf(v)
        case None => [GlobalPortNotNumber]
        case Some(n) => if 1 <= n <= 65535 then [] else [GlobalPortOutOfRange]
  }

  /** The backup section: checked only when it is a dict; a section of any other kind is passed over in silence. */
  function BackupProblems(section: Option<Json>): (r: seq<Problem>)
    ensures section.None? || !section.value.JObj? ==> r == []
    ensures section.Some? && section.value.JObj? ==>
              r == Limit(Dict.Get(section.value.fields, "max_backups"), 1, MaxBackupsTooSmall, MaxBackupsNotNumber)
                   + Limit(Dict.Get(section.value.fields, "max_workers"), 1, MaxWorkersTooSmall, MaxWorkersNotNumber)
    ensures forall p | p in r :: p in {MaxBackupsTooSmall, MaxBackupsNotNumber, MaxWorkersTooSmall, MaxWorkersNotNumber}
  {
    if section.None? || !section.value.JObj? then []
    else
      var f := section.value.fields;
      Limit(Dict.Get(f, "max_backups"), 1, MaxBackupsTooSmall, MaxBackupsNotNumber)
      + Limit(Dict.Get(f, "max_workers"), 1, MaxWorkersTooSmall, MaxWorkersNotNumber)
  }

  /** The ignore_patterns table of the comparison section: a dict whose 'common' entry, when present, is a list of compiling patterns. */
  function IgnoreProblems(table: Option<Json>, compile: Compiler): (r: Option<seq<Problem>>)
    ensures table.None? ==> r == Some([])
    ensures table.Some? && !table.value.JObj? ==> r == Some([IgnorePatternsNotDict])
    ensures r.Some? ==> forall p | p in r.value :: p.IgnorePatternsNotDict? || p.CommonNotList? || p.CommonPatternInvalid?
  {
    if table.None? then Some([])
    else if !table.value.JObj? then Some([IgnorePatternsNotDict])
    else
      var common := Dict.Get(table.value.fields, "common");
      if common.None? then Some([])
      else if !common.value.JList? then Some([CommonNotList])
      else
        match PatternProblems(common.value.items, compile)
        case None => None
        case Some(errors) => Some(Common(errors))
  }

  /** "Common pattern error: " before each pattern error. */
  function Common(errors: seq<Problem>): (r: seq<Problem>)
    requires forall p | p in errors :: p.PatternInvalid?
    ensures |r| == |errors|
    ensures forall i | 0 <= i < |r| :: r[i] == CommonPatternInvalid(errors[i].index, errors[i].pattern, errors[i].reason)
  {
    seq(|errors|, i requires 0 <= i < |errors| => CommonPatternInvalid(errors[i].index, errors[i].pattern, errors[i].reason))
  }

  /** The comparison section: checked only when it is a dict. */
  function ComparisonProblems(section: Option<Json>, compile: Compiler): (r: Option<seq<Problem>>)
    ensures section.None? || !section.value.JObj? ==> r == Some([])
    ensures section.Some? && section.value.JObj? ==>
              var f := section.value.fields;
              var ignore := IgnoreProblems(Dict.Get(f, "ignore_patterns"), compile);
              r == if ignore.None? then None
                   else Some(Limit(Dict.Get(f, "context_lines"), 0, ContextLinesNegative, ContextLinesNotNumber) + ignore.value)
  {
    if section.None? || !section.value.JObj? then Some([])
    else
      var f := section.value.fields;
      var ignore := IgnoreProblems(Dict.Get(f, "ignore_patterns"), compile);
      if ignore.None? then None
      else Some(Limit(Dict.Get(f, "context_lines"), 0, ContextLinesNegative, ContextLinesNotNumber) + ignore.value)
  }

  /**
   * validate_default_config: missing sections, then the global, backup and
   * comparison checks.  A list or text document is searched for the
   * section names; indexing it then raises, so it passes only when it
   * holds none of them.
   */
  function DefaultConfigProblems(config: Json, compile: Compiler): (r: Option<seq<Problem>>)
  {
    match MissingSections(config, Sections)
    case None => None
    case Some(missing) =>
      if config.JObj? then
        var f := config.fields;
        match ComparisonProblems(Dict.Get(f, "comparison"), compile)
        case None => None
        case Some(comparison) =>
          Some(missing + GlobalProblems(Dict.Get(f, "global")) + BackupProblems(Dict.Get(f, "backup")) + comparison)
      else if |missing| < |Sections| then None
      else Some(missing)
  }

  /** For a dict document: a section error exactly for each missing section, and a backup section that is not a dict adds nothing. */
  lemma DefaultConfigSections(config: Json, compile: Compiler, s: string)
    requires config.JObj? && DefaultConfigProblems(config, compile).Some?
    ensures SectionMissing(s) in DefaultConfigProblems(config, compile).value <==> s in Sections && !Dict.HasKey(config.fields, s)
  {
    var f := config.fields;
    var missing := MissingSections(config, Sections).value;
    var comparison := ComparisonProblems(Dict.Get(f, "comparison"), compile).value;
    var g := GlobalProblems(Dict.Get(f, "global"));
    var b := BackupProblems(Dict.Get(f, "backup"));
    assert SectionMissing(s) !in g && SectionMissing(s) !in b;
    if Dict.Get(f, "comparison").Some? && Dict.Get(f, "comparison").value.JObj? {
      var cf := Dict.Get(f, "comparison").value.fields;
      var ignore := IgnoreProblems(Dict.Get(cf, "ignore_patterns"), compile).value;
      assert SectionMissing(s) !in ignore;
      var limit := Limit(Dict.Get(cf, "context_lines"), 0, ContextLinesNegative, ContextLinesNotNumber);
      assert SectionMissing(s) !in limit;
    }
    assert SectionMissing(s) !in comparison;
  }

  /** The limits: max_backups and max_workers below 1 and a negative context_lines are reported. */
  lemma DefaultConfigLimits(config: Json, compile: Compiler)
    requires config.JObj? && DefaultConfigProblems(config, compile).Some?
    ensures var f := config.fields;
      var b := Dict.Get(f, "backup");
      b.Some? && b.value.JObj? && Dict.Get(b.value.fields, "max_backups").Some?
      && IntOf(Dict.Get(b.value.fields, "max_backups").value).Some?
      && IntOf(Dict.Get(b.value.fields, "max_backups").value).value < 1
      ==> MaxBackupsTooSmall in DefaultConfigProblems(config, compile).value
    ensures var f := config.fields;
      var b := Dict.Get(f, "backup");
      b.Some? && b.value.JObj? && Dict.Get(b.value.fields, "max_workers").Some?
      && IntOf(Dict.Get(b.value.fields, "max_workers").value).Some?
      && IntOf(Dict.Get(b.value.fields, "max_workers").value).value < 1
      ==> MaxWorkersTooSmall in DefaultConfigProblems(config, compile).value
    ensures var f := config.fields;
      var c := Dict.Get(f, "comparison");
      c.Some? && c.value.JObj? && Dict.Get(c.value.fields, "context_lines").Some?
      && IntOf(Dict.Get(c.value.fields, "context_lines").value).Some?
      && IntOf(Dict.Get(c.value.fields, "context_lines").value).value < 0
      ==> ContextLinesNegative in DefaultConfigProblems(config, compile).value
  {
    var f := config.fields;
    var b := Dict.Get(f, "backup");
    if b.Some? && b.value.JObj? {
      var l1 := Limit(Dict.Get(b.value.fields, "max_backups"), 1, MaxBackupsTooSmall, MaxBackupsNotNumber);
      var l2 := Limit(Dict.Get(b.value.fields, "max_workers"), 1, MaxWorkersTooSmall, MaxWorkersNotNumber);
      assert BackupProblems(b) == l1 + l2;
    }
  }

  /** validate_default_config: the loop over the required sections, then the section checks. */
  method ValidateDefaultConfig(config: Json, compile: Compiler) returns (r: Option<seq<Problem>>)
    ensures r == DefaultConfigProblems(config, compile)
  {
    var errors: seq<Problem> := [];
    var i := 0;
    while i < |Sections|
      invariant 0 <= i <= |Sections|
      invariant MissingSections(config, Sections[..i]) == Some(errors)
    {
      assert Sections[..i + 1][..i] == Sections[..i];
      assert Sections[..i + 1][i] == Sections[i];
      var found := In(Sections[i], config);
      if found.None? {
        return None;
      }
      assert MissingSections(config, Sections[..i + 1])
             == Some(errors + (if found.value then [] else [SectionMissing(Sections[i])]));
      if !found.value {
        errors := errors + [SectionMissing(Sections[i])];
      } else {
        assert errors + [] == errors;
      }
      i := i + 1;
    }
    assert Sections[..i] == Sections;
    if !config.JObj? {
      r := if |errors| < |Sections| then None else Some(errors);
      return;
    }
    var f := config.fields;
    var comparison := ComparisonProblems(Dict.Get(f, "comparison"), compile);
    if comparison.None? {
      return None;
    }
    r := Some(errors + GlobalProblems(Dict.Get(f, "global")) + BackupProblems(Dict.Get(f, "backup")) + comparison.value);
  }

  // ---------------------------------------------------------------------
  // The undefined-type warning

  /** The device_type values of the dict devices; None when one cannot go in a set. */
  function UsedTypes(devices: seq<Json>): Option<set<Json>>
    decreases |devices|
  {
    if devices == [] then Some({})
    else
      var n := |devices| - 1;
      var front := devices[..n];
      match UsedTypes(front)
      case None => None
      case Some(used) =>
        var d := devices[n];
        if d.JObj? && Dict.HasKey(d.fields, "device_type") then
          var t := Dict.Get(d.fields, "device_type").value;
          if BackupConfig.Hashable(t) then Some(used + {t}) else None
        else Some(used)
  }

  /** A dict device naming device type `t`. */
  predicate UsesType(d: Json, t: Json)
  {
    d.JObj? && Dict.Get(d.fields, "device_type") == Some(t)
  }

  /** When the check does not raise, the used types are exactly those some dict device names. */
  lemma {:induction false} UsedTypesMembers(devices: seq<Json>)
    ensures UsedTypes(devices).Some? ==>
              forall t :: t in UsedTypes(devices).value <==> exists i | 0 <= i < |devices| :: UsesType(devices[i], t)
    decreases |devices|
  {
    if devices != [] && UsedTypes(devices).Some? {
      var n := |devices| - 1;
      var front := devices[..n];
      UsedTypesMembers(front);
      var used := UsedTypes(front).value;
      forall t
        ensures t in UsedTypes(devices).value <==> exists i | 0 <= i < |devices| :: UsesType(devices[i], t)
      {
        if exists i | 0 <= i < |devices| :: UsesType(devices[i], t) {
          var i :| 0 <= i < |devices| && UsesType(devices[i], t);
          if i < n {
            assert UsesType(front[i], t);
          }
        }
        if t in used {
          var i :| 0 <= i < n && UsesType(front[i], t);
          assert UsesType(devices[i], t);
        }
      }
    }
  }

  /** The device types the command table defines. */
  function DefinedTypes(commands: Fields): set<Json>
  {
    set i | 0 <= i < |commands| :: JStr(commands[i].0)
  }

  /**
   * The warning lists exactly the device types used by dict devices that
   * the command table does not define; nothing is checked unless the table
   * is a dict and the devices a list.
   */
  method UndefinedTypes(commands: Json, devices: Json) returns (r: Option<set<Json>>)
    ensures !commands.JObj? || !devices.JList? ==> r == Some({})
    ensures commands.JObj? && devices.JList? ==>
              r.None? == UsedTypes(devices.items).None?
              && (r.Some? ==> forall t :: t in r.value <==>
                    (exists i | 0 <= i < |devices.items| :: UsesType(devices.items[i], t))
                    && t !in DefinedTypes(commands.fields))
  {
    if !commands.JObj? || !devices.JList? {
      return Some({});
    }
    var items := devices.items;
    var used: set<Json> := {};
    var i := 0;
    while i < |items|
      invariant 0 <= i <= |items|
      invariant UsedTypes(items[..i]) == Some(used)
    {
      assert items[..i + 1][..i] == items[..i];
      var d := items[i];
      if d.JObj? && Dict.HasKey(d.fields, "device_type") {
        var t := Dict.Get(d.fields, "device_type").value;
        if !BackupConfig.Hashable(t) {
          UsedTypesRaise(items, i);
          return None;
        }
        used := used + {t};
      }
      i := i + 1;
    }
    assert items[..i] == items;
    UsedTypesMembers(items);
    r := Some(used - DefinedTypes(commands.fields));
  }

  /** A device type that cannot be hashed makes the whole check raise. */
  lemma {:induction false} UsedTypesRaise(devices: seq<Json>, i: int)
    requires 0 <= i < |devices| && devices[i].JObj? && Dict.HasKey(devices[i].fields, "device_type")
    requires !BackupConfig.Hashable(Dict.Get(devices[i].fields, "device_type").value)
    ensures UsedTypes(devices).None?
    decreases |devices|
  {
    var n := |devices| - 1;
    if i < n {
      assert devices[..n][i] == devices[i];
      UsedTypesRaise(devices[..n], i);
    }
  }
}
