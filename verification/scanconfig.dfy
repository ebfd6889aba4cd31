/**
 * The ping scanner's configuration and result records (net_scanner/config.py):
 * construction-time validation of a scanner configuration, the report format
 * taken from a string, the loader that overlays a user file on the defaults,
 * and the per-host result and scan summary records with their percentages.
 *
 * A configuration is built from keyword values read from JSON, so each field
 * holds a `Json` value: Python does not check the declared types, and a
 * value of the wrong type makes a comparison in the validator raise.
 */
module ScanConfig {
  import opened Wrappers
  import Text
  import Dict
  import opened Json

  datatype ReportFormat = TextReport | JsonReport | CsvReport

  datatype PingResult = PingSuccess | PingTimeout | PingUnreachable | PingError

  /** The report_format field: an enum member, or a non-string value passed through unchanged. */
  datatype FormatValue = Format(f: ReportFormat) | Passed(j: Json)

  datatype ScannerConfig = ScannerConfig(
    inputFile: Json,
    outputFile: Json,
    logFile: Json,
    timeout: Json,
    pingCount: Json,
    pingDuration: Json,
    pingInterval: Json,
    concurrentLimit: Json,
    maxRetries: Json,
    excludeSelf: Json,
    validateIps: Json,
    reportFormat: FormatValue,
    logLevel: Json,
    showProgress: Json,
    progressUpdateInterval: Json,
    saveRawResults: Json,
    rawResultsFile: Json)

  // ---------------- validation ----------------

  const TypeErrorMessage := "TypeError: '<=' not supported"
  const AttributeErrorMessage := "AttributeError: object has no attribute 'upper'"
  const LogLevels: seq<string> := ["DEBUG", "INFO", "WARNING", "ERROR", "CRITICAL"]

  /** `value > 0` holds and does not raise (a bool compares as 0 or 1). */
  predicate IsPositive(j: Json)
  {
    (j.JInt? && j.i > 0) || (j.JFloat? && j.r > 0.0) || j == JBool(true)
  }

  /** `value <= 0` raises a TypeError for anything but a number or a bool. */
  predicate IsNumber(j: Json)
  {
    j.JInt? || j.JFloat? || j.JBool?
  }

  /** `if value <= 0: raise ValueError(msg)`: None when the check passes, else the error. */
  function PositiveCheck(j: Json, msg: string): (r: Option<string>)
    ensures r.None? <==> IsPositive(j)
    ensures r.Some? ==> r.value == (if IsNumber(j) then msg else TypeErrorMessage)
  {
    match j
    case JInt(i) => if i <= 0 then Some(msg) else None
    case JFloat(x, _) => if x <= 0.0 then Some(msg) else None
    case JBool(b) => if !b then Some(msg) else None
    case _ => Some(TypeErrorMessage)
  }

  /** A log level accepted by `log_level.upper() in valid_log_levels`. */
  predicate ValidLevel(j: Json)
  {
    j.JStr? && Text.Upper(j.s) in LogLevels
  }

  function LevelCheck(j: Json): (r: Option<string>)
    ensures r.None? <==> ValidLevel(j)
  {
    match j
    case JStr(s) => if Text.Upper(s) in LogLevels then None else Some("log_level должен быть одним из: " + Text.Join(LogLevels, ','))
    case _ => Some(AttributeErrorMessage)
  }

  /** The first failing check, in order. */
  function FirstError(checks: seq<Option<string>>): (r: Option<string>)
    ensures r.None? <==> forall i | 0 <= i < |checks| :: checks[i].None?
    ensures r.Some? ==> exists i | 0 <= i < |checks| :: checks[i] == r && forall j | 0 <= j < i :: checks[j].None?
    decreases |checks|
  {
    if checks == [] then None
    else if checks[0].Some? then checks[0]
    else
      var r := FirstError(checks[1..]);
      assert forall i | 1 <= i < |checks| :: checks[i] == checks[1..][i - 1];
      if r.Some? then
        var k :| 0 <= k < |checks[1..]| && checks[1..][k] == r && forall j | 0 <= j < k :: checks[1..][j].None?;
        assert checks[k + 1] == r;
        r
      else r
  }

  /** The checks of _validate_values, in the order it makes them. */
  function Checks(c: ScannerConfig): (r: seq<Option<string>>)
    ensures |r| == 7
  {
    [PositiveCheck(c.timeout, "timeout должен быть положительным числом"),
     PositiveCheck(c.pingCount, "ping_count должен быть положительным числом"),
     PositiveCheck(c.pingDuration, "ping_duration должен быть положительным числом"),
     PositiveCheck(c.concurrentLimit, "concurrent_limit должен быть положительным числом"),
     PositiveCheck(c.maxRetries, "max_retries должен быть положительным числом"),
     PositiveCheck(c.pingInterval, "ping_interval должен быть положительным числом"),
     LevelCheck(c.logLevel)]
  }

  /**
   * __post_init__: construction succeeds exactly when the six numeric
   * settings are positive and the log level is one of the five names in any
   * letter case.
   */
  function Validate(c: ScannerConfig): (r: Result<ScannerConfig, string>)
    ensures r.Success? <==> IsPositive(c.timeout) && IsPositive(c.pingCount) && IsPositive(c.pingDuration)
                            && IsPositive(c.concurrentLimit) && IsPositive(c.maxRetries)
                            && IsPositive(c.pingInterval) && ValidLevel(c.logLevel)
    ensures r.Success? ==> r.value == c
  {
    var checks := Checks(c);
    assert checks[0].None? <==> IsPositive(c.timeout);
    assert checks[1].None? <==> IsPositive(c.pingCount);
    assert checks[2].None? <==> IsPositive(c.pingDuration);
    assert checks[3].None? <==> IsPositive(c.concurrentLimit);
    assert checks[4].None? <==> IsPositive(c.maxRetries);
    assert checks[5].None? <==> IsPositive(c.pingInterval);
    assert checks[6].None? <==> ValidLevel(c.logLevel);
    match FirstError(checks)
    case None => Success(c)
    case Some(e) => Failure(e)
  }

  /** A non-positive timeout is rejected before anything else is looked at. */
  lemma TimeoutFirst(c: ScannerConfig)
    requires IsNumber(c.timeout) && !IsPositive(c.timeout)
    ensures Validate(c) == Failure("timeout должен быть положительным числом")
  {
  }

  /** Upper-casing makes the letter case of the input irrelevant. */
  lemma UpperOfLower(s: string)
    ensures Text.Upper(Text.Lower(s)) == Text.Upper(s)
  {
  }

  /** The log level is compared without regard to case: 'debug', 'Debug' and 'DEBUG' are alike. */
  lemma LevelIgnoresCase(s: string)
    ensures ValidLevel(JStr(Text.Lower(s))) <==> ValidLevel(JStr(s))
    ensures ValidLevel(JStr("info")) && !ValidLevel(JStr("TRACE"))
  {
    UpperOfLower(s);
    assert Text.Upper("info") == "INFO";
    assert Text.Upper("TRACE") == "TRACE";
  }

  // ---------------- building from a dictionary ----------------

  /** ReportFormat(s.lower()), with TEXT when the value is not a member. */
  function FormatOf(s: string): (r: ReportFormat)
    ensures r == JsonReport <==> Text.Lower(s) == "json"
    ensures r == CsvReport <==> Text.Lower(s) == "csv"
    ensures r == TextReport <==> Text.Lower(s) != "json" && Text.Lower(s) != "csv"
  {
    var l := Text.Lower(s);
    if l == "text" then TextReport
    else if l == "json" then JsonReport
    else if l == "csv" then CsvReport
    else TextReport
  }

  /** The dataclass's field names: the keyword arguments the constructor accepts. */
  const FieldNames: seq<string> := [
    "input_file", "output_file", "log_file", "timeout", "ping_count", "ping_duration", "ping_interval",
    "concurrent_limit", "max_retries", "exclude_self", "validate_ips", "report_format", "log_level",
    "show_progress", "progress_update_interval", "save_raw_results", "raw_results_file"]

  /** The value of keyword `name`, or the field's default. */
  function Arg(data: Dict.Dict<string, Json>, name: string, default: Json): (r: Json)
    ensures Dict.HasKey(data, name) ==> Dict.Get(data, name) == Some(r)
    ensures !Dict.HasKey(data, name) ==> r == default
  {
    Dict.Get(data, name).GetOr(default)
  }

  /** The report_format keyword after from_dict's conversion. */
  function FormatArg(data: Dict.Dict<string, Json>): (r: FormatValue)
    ensures !Dict.HasKey(data, "report_format") ==> r == Format(TextReport)
    ensures Dict.HasKey(data, "report_format") && Dict.Get(data, "report_format").value.JStr?
            ==> r == Format(FormatOf(Dict.Get(data, "report_format").value.s))
  {
    var v: Option<Json> := Dict.Get(data, "report_format");
    if v.None? then Format(TextReport)
    else if v.value.JStr? then Format(FormatOf(v.value.s))
    else Passed(v.value)
  }

  /** cls(**data) before validation: each field from its keyword, or its default. */
  function Construct(data: Dict.Dict<string, Json>): ScannerConfig
  {
    ScannerConfig(
      Arg(data, "input_file", JStr("ips.txt")), Arg(data, "output_file", JStr("report.txt")),
      Arg(data, "log_file", JStr("scanner.log")), Arg(data, "timeout", JFloat(2.0, "2.0")),
      Arg(data, "ping_count", JInt(1)), Arg(data, "ping_duration", JInt(60)),
      Arg(data, "ping_interval", JFloat(1.0, "1.0")), Arg(data, "concurrent_limit", JInt(100)),
      Arg(data, "max_retries", JInt(3)), Arg(data, "exclude_self", JBool(true)),
      Arg(data, "validate_ips", JBool(true)), FormatArg(data), Arg(data, "log_level", JStr("INFO")),
      Arg(data, "show_progress", JBool(true)), Arg(data, "progress_update_interval", JInt(10)),
      Arg(data, "save_raw_results", JBool(false)), Arg(data, "raw_results_file", JStr("raw_results.json")))
  }

  /**
   * ScannerConfig.from_dict: a keyword that is not a field raises a
   * TypeError; otherwise the configuration is built and validated.
   */
  function FromDict(data: Dict.Dict<string, Json>): (r: Result<ScannerConfig, string>)
    ensures (exists i | 0 <= i < |data| :: data[i].0 !in FieldNames) ==> r.Failure?
    ensures r.Success? ==> r.value == Construct(data) && IsPositive(r.value.timeout) && IsPositive(r.value.maxRetries)
                           && ValidLevel(r.value.logLevel)
  {
    if exists i | 0 <= i < |data| :: data[i].0 !in FieldNames then Failure("TypeError: unexpected keyword argument")
    else Validate(Construct(data))
  }

  // ---------------- the loader ----------------

  /** ConfigLoader.DEFAULT_CONFIG */
  const DefaultConfig: Dict.Dict<string, Json> := [
    ("input_file", JStr("ips.txt")), ("output_file", JStr("report.txt")), ("log_file", JStr("scanner.log")),
    ("timeout", JFloat(2.0, "2.0")), ("ping_count", JInt(1)), ("ping_duration", JInt(60)),
    ("ping_interval", JFloat(1.0, "1.0")), ("concurrent_limit", JInt(100)), ("max_retries", JInt(3)),
    ("exclude_self", JBool(true)), ("validate_ips", JBool(true)), ("report_format", JStr("text")),
    ("log_level", JStr("INFO")), ("show_progress", JBool(true)), ("progress_update_interval", JInt(10)),
    ("save_raw_results", JBool(false)), ("raw_results_file", JStr("raw_results.json"))]

  /** dict.update: every pair of `u` stored in turn. */
  function Update(d: Dict.Dict<string, Json>, u: Dict.Dict<string, Json>): Dict.Dict<string, Json>
    decreases |u|
  {
    if u == [] then d else Dict.Put(Update(d, u[..|u| - 1]), u[|u| - 1].0, u[|u| - 1].1)
  }

  /** After an update each key reads the updating value if it has one, and the old value otherwise. */
  lemma {:induction false} UpdateGet(d: Dict.Dict<string, Json>, u: Dict.Dict<string, Json>, k: string)
    requires Dict.UniqueKeys(d) && Dict.UniqueKeys(u)
    ensures Dict.UniqueKeys(Update(d, u))
    ensures Dict.Get(Update(d, u), k) == if Dict.HasKey(u, k) then Dict.Get(u, k) else Dict.Get(d, k)
    decreases |u|
  {
    if u != [] {
      var front := u[..|u| - 1];
      var last := u[|u| - 1];
      UpdateGet(d, front, k);
      Dict.PutUnique(Update(d, front), last.0, last.1);
      if k == last.0 {
        Dict.GetPutSame(Update(d, front), last.0, last.1);
        assert Dict.Get(u, k) == Some(last.1) by {
          assert u[|u| - 1] == (k, last.1);
          assert forall i | 0 <= i < |u| - 1 :: u[i].0 != k;
        }
      } else {
        Dict.GetPutOther(Update(d, front), last.0, last.1, k);
        assert Dict.HasKey(u, k) <==> Dict.HasKey(front, k) by {
          if Dict.HasKey(u, k) {
            var i :| 0 <= i < |u| && u[i].0 == k;
            assert front[i] == u[i];
          }
          if Dict.HasKey(front, k) {
            var i :| 0 <= i < |front| && front[i].0 == k;
            assert u[i] == front[i];
          }
        }
        if Dict.HasKey(front, k) {
          var i := Dict.IndexOfKey(front, k);
          assert Dict.IndexOfKey(u, k) == i by {
            assert u[..|u| - 1] == front;
          }
        }
      }
    }
  }

  /**
   * Stands for every key that is not text (a number, a boolean, null): such
   * a key is stored like any other, and from_dict then rejects it as it
   * rejects every key that names no field.
   */
  const NonTextKey := "<not text>"

  /** The key a pair's first item gives: None when it is unhashable (a list or an object). */
  function PairKey(j: Json): (r: Option<string>)
    ensures r.None? <==> j.JList? || j.JObj?
    ensures j.JStr? ==> r == Some(j.s)
    ensures r.Some? && !j.JStr? ==> r.value !in FieldNames
  {
    match j
    case JStr(s) => Some(s)
    case JList(_) => None
    case JObj(_) => None
    case _ => Some(NonTextKey)
  }

  /**
   * One element of a sequence given to dict.update: anything iterable of
   * length two (a two-item list, a two-character text, a two-key object)
   * is a key and a value; any other element raises.
   */
  function PairOf(e: Json): Option<(string, Json)>
  {
    match e
    case JList(items) => if |items| == 2 && PairKey(items[0]).Some? then Some((PairKey(items[0]).value, items[1])) else None
    case JStr(t) => if |t| == 2 then Some(([t[0]], JStr([t[1]]))) else None
    case JObj(fields) => if |fields| == 2 then Some((fields[0].0, JStr(fields[1].0))) else None
    case _ => None
  }

  /** dict.update(sequence): the pairs are stored in turn; at an element that raises the update stops, keeping what it stored. */
  function UpdatePairs(d: Dict.Dict<string, Json>, items: seq<Json>): Dict.Dict<string, Json>
    decreases |items|
  {
    if items == [] then d
    else
      match PairOf(items[0])
      case None => d
      case Some(p) => UpdatePairs(Dict.Put(d, p.0, p.1), items[1..])
  }

  /** The pairs of the elements before the first one that raises. */
  function GoodPairs(items: seq<Json>): (r: Dict.Dict<string, Json>)
    ensures |r| <= |items|
    ensures forall i | 0 <= i < |r| :: PairOf(items[i]) == Some(r[i])
    ensures |r| < |items| ==> PairOf(items[|r|]).None?
    decreases |items|
  {
    if items == [] then []
    else
      match PairOf(items[0])
      case None => []
      case Some(p) => [p] + GoodPairs(items[1..])
  }

  /** Storing one pair and then the rest is the update by the pair followed by the rest. */
  lemma {:induction false} UpdateCons(d: Dict.Dict<string, Json>, p: (string, Json), u: Dict.Dict<string, Json>)
    ensures Update(Dict.Put(d, p.0, p.1), u) == Update(d, [p] + u)
    decreases |u|
  {
    if u != [] {
      var front := u[..|u| - 1];
      var pu := [p] + u;
      UpdateCons(d, p, front);
      assert pu[..|pu| - 1] == [p] + front;
      assert pu[|pu| - 1] == u[|u| - 1];
      calc {
        Update(d, pu);
        Dict.Put(Update(d, [p] + front), u[|u| - 1].0, u[|u| - 1].1);
        Dict.Put(Update(Dict.Put(d, p.0, p.1), front), u[|u| - 1].0, u[|u| - 1].1);
        Update(Dict.Put(d, p.0, p.1), u);
      }
    } else {
      assert [p] + u == [p];
      assert [p][..0] == [];
    }
  }

  /**
   * A sequence given to dict.update acts as the update by the pairs of its
   * elements up to the first one that raises: those stay stored, and
   * nothing after it is.
   */
  lemma {:induction false} UpdatePairsPrefix(d: Dict.Dict<string, Json>, items: seq<Json>)
    ensures UpdatePairs(d, items) == Update(d, GoodPairs(items))
    decreases |items|
  {
    if items != [] && PairOf(items[0]).Some? {
      var p := PairOf(items[0]).value;
      UpdatePairsPrefix(Dict.Put(d, p.0, p.1), items[1..]);
      UpdateCons(d, p, GoodPairs(items[1..]));
    }
  }

  /**
   * What the loader passes to from_dict: the defaults, updated with the user
   * file when it holds an object or a list; any other value raises in the
   * update, which is caught, and leaves the defaults.
   */
  function Merged(defaults: Dict.Dict<string, Json>, file: Option<Json>): Dict.Dict<string, Json>
  {
    if file.None? then defaults
    else
      match file.value
      case JObj(fields) => Update(defaults, fields)
      case JList(items) => UpdatePairs(defaults, items)
      case _ => defaults
  }

  /** The user file updates the defaults when it is an object, or a list up to its first element that is not a pair. */
  lemma MergedCases(defaults: Dict.Dict<string, Json>, file: Option<Json>)
    ensures file.None? || !(file.value.JObj? || file.value.JList?) ==> Merged(defaults, file) == defaults
    ensures file.Some? && file.value.JObj? ==> Merged(defaults, file) == Update(defaults, file.value.fields)
    ensures file.Some? && file.value.JList? ==> Merged(defaults, file) == Update(defaults, GoodPairs(file.value.items))
  {
    if file.Some? && file.value.JList? {
      UpdatePairsPrefix(defaults, file.value.items);
    }
  }

  /** Keys the user file sets take its values; every other key keeps its default. */
  lemma MergedOverrides(defaults: Dict.Dict<string, Json>, file: Option<Json>, k: string)
    requires Dict.UniqueKeys(defaults)
    requires file.Some? && file.value.JObj? && Dict.UniqueKeys(file.value.fields)
    ensures Dict.HasKey(file.value.fields, k) ==> Dict.Get(Merged(defaults, file), k) == Dict.Get(file.value.fields, k)
    ensures !Dict.HasKey(file.value.fields, k) ==> Dict.Get(Merged(defaults, file), k) == Dict.Get(defaults, k)
  {
    UpdateGet(defaults, file.value.fields, k);
  }

  /**
   * ConfigLoader.load, given the parsed user file (None when no file was
   * found or it could not be read or parsed).
   */
  function Load(file: Option<Json>): (r: Result<ScannerConfig, string>)
    ensures file.None? || !(file.value.JObj? || file.value.JList?) ==> r == FromDict(DefaultConfig)
    ensures file.Some? && file.value.JObj? ==> r == FromDict(Update(DefaultConfig, file.value.fields))
    ensures file.Some? && file.value.JList? ==> r == FromDict(Update(DefaultConfig, GoodPairs(file.value.items)))
  {
    MergedCases(DefaultConfig, file);
    FromDict(Merged(DefaultConfig, file))
  }

  // ---------------- results ----------------

  datatype ScanResult = ScanResult(
    ip: string,
    isAlive: bool,
    avgLatency: Option<real>,
    latencies: seq<real>,
    errorCount: int,
    successCount: int,
    lastError: Option<string>)

  /** ScanResult(ip=..., is_alive=...) with every other field at its default. */
  function NewResult(ip: string, isAlive: bool): (r: ScanResult)
    ensures r.ip == ip && r.isAlive == isAlive
    ensures r.avgLatency.None? && r.latencies == [] && r.errorCount == 0 && r.successCount == 0 && r.lastError.None?
  {
    ScanResult(ip, isAlive, None, [], 0, 0, None)
  }

  datatype ScanSummary = ScanSummary(
    totalHosts: int,
    aliveHosts: int,
    deadHosts: int,
    scanDuration: real)

  /** alive_hosts / total_hosts * 100, or 0 for an empty scan. */
  function AlivePercent(s: ScanSummary): (r: real)
    ensures s.totalHosts == 0 ==> r == 0.0
    ensures s.totalHosts > 0 ==> r * (s.totalHosts as real) == (s.aliveHosts as real) * 100.0
  {
    if s.totalHosts == 0 then 0.0 else (s.aliveHosts as real) / (s.totalHosts as real) * 100.0
  }

  /** dead_hosts / total_hosts * 100, or 0 for an empty scan. */
  function DeadPercent(s: ScanSummary): (r: real)
    ensures s.totalHosts == 0 ==> r == 0.0
    ensures s.totalHosts > 0 ==> r * (s.totalHosts as real) == (s.deadHosts as real) * 100.0
  {
    if s.totalHosts == 0 then 0.0 else (s.deadHosts as real) / (s.totalHosts as real) * 100.0
  }

  /** When every host is alive or dead, the two percentages lie in [0, 100] and add up to 100. */
  lemma PercentsComplement(s: ScanSummary)
    requires s.totalHosts > 0 && 0 <= s.aliveHosts <= s.totalHosts && s.deadHosts == s.totalHosts - s.aliveHosts
    ensures 0.0 <= AlivePercent(s) <= 100.0 && 0.0 <= DeadPercent(s) <= 100.0
    ensures AlivePercent(s) + DeadPercent(s) == 100.0
  {
    var t := s.totalHosts as real;
    assert (AlivePercent(s) + DeadPercent(s)) * t == 100.0 * t;
  }
}
