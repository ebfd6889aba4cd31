/**
 * The backup tool's driver (network_backup_tool/main.py): the per-device
 * pipeline (connect, hostname, configuration, cleanup, save, compare with
 * the previous backup, disconnect), the sequential mode and the summary.
 *
 * Everything the outside world decides for one device (whether the session
 * opens, the replies, whether files can be written, the clock) arrives in
 * a `DeviceRun`.
 */
module BackupTool {
  import opened Wrappers
  import opened Json
  import Dict
  import opened BackupModels
  import BackupConfig
  import DeviceHandler
  import Backups
  import Comparison

  /** Everything one device's backup learns from outside. */
  datatype DeviceRun = DeviceRun(
    session: DeviceHandler.Session,
    hostnameReply: Option<string>,
    basePrompt: Option<string>,
    configReply: Option<string>,
    saveWritable: bool,
    reportWritable: bool,
    /** the change time the saved file gets */
    clock: int,
    /** datetime.now() when the result record is made */
    started: DateTime,
    /** datetime.now() when the backup file is named */
    saveTime: DateTime,
    /** datetime.now() when the diff report is made */
    reportTime: DateTime)

  predicate ValidRun(run: DeviceRun)
  {
    Backups.ValidTime(run.saveTime) && Backups.ValidTime(run.reportTime)
  }

  /** Why a connected device's backup stops. */
  datatype Stop = NoConfiguration | Raised | NotSaved

  /** The error text; str(e) of an exception stands for a message the model does not track. */
  function ErrorText(why: Stop): string
  {
    match why
    case NoConfiguration => "Failed to get configuration"
    case Raised => "exception"
    case NotSaved => "Failed to save configuration"
  }

  const ConnectionFailed: string := "Connection failed"

  /** How far the pipeline gets. */
  datatype Plan =
    | Unreachable
    | Stopped(hostname: Json, config: string, why: Stop)
    | Saved(name: string, config: string, clean: string, path: string)

  /** connect returns a connection. */
  predicate Connected(commands: Json, device: DeviceConfig, run: DeviceRun)
  {
    run.session == DeviceHandler.Opened(false) && DeviceHandler.Entry(commands, device.deviceType).Some?
    && BackupConfig.Hashable(device.host)
  }

  /** What the device and the settings give the pipeline: the connection, the hostname, the configuration and its cleaned text. */
  datatype Fetch = Fetch(connected: bool, hostname: Json, config: string, clean: Option<string>)

  /** cleanup_config: None when looking up the patterns or filtering raises. */
  function CleanFor(settings: BackupConfig.Fields, deviceType: Json, config: string, rematch: DeviceHandler.Matcher): Option<string>
  {
    match BackupConfig.IgnorePatterns(settings, deviceType)
    case None => None
    case Some(patterns) => DeviceHandler.CleanedConfig(config, patterns, rematch)
  }

  /** The fetch steps of backup_device: connect, get_hostname, get_configuration and cleanup_config. */
  function FetchOf(commands: Json, settings: BackupConfig.Fields, device: DeviceConfig, run: DeviceRun,
                   search: DeviceHandler.Searcher, rematch: DeviceHandler.Matcher): Fetch
  {
    if !Connected(commands, device, run) then Fetch(false, JStr(""), "", None)
    else
      var config := DeviceHandler.GetConfiguration(commands, device, run.configReply).value;
      Fetch(true, DeviceHandler.GetHostname(commands, device, run.hostnameReply, run.basePrompt, search).value,
            config, CleanFor(settings, device.deviceType, config, rematch))
  }

  /**
   * How far backup_device gets: an empty configuration stops it; cleanup
   * raising, or a hostname that is not text (sanitising it raises), ends
   * in the exception handler; a failed write stops it.
   */
  function PlanOf(f: Fetch, run: DeviceRun): Plan
    requires ValidRun(run)
  {
    if !f.connected then Unreachable
    else if f.config == "" then Stopped(f.hostname, "", NoConfiguration)
    else if f.clean.None? || !f.hostname.JStr? then Stopped(f.hostname, f.config, Raised)
    else if !run.saveWritable then Stopped(f.hostname, f.config, NotSaved)
    else Saved(f.hostname.s, f.config, f.clean.value, Backups.BackupFilename(f.hostname.s, run.saveTime))
  }

  /** The result record the pipeline leaves. */
  function ResultOf(device: DeviceConfig, plan: Plan, started: DateTime): (r: BackupResult)
    ensures r.device == device && r.timestamp == started
    ensures r.success <==> plan.Saved?
  {
    match plan
    case Unreachable => BackupResult(device, false, JStr(""), "", ConnectionFailed, "", started)
    case Stopped(hostname, config, why) => BackupResult(device, false, hostname, config, ErrorText(why), "", started)
    case Saved(hostname, config, _, path) => BackupResult(device, true, JStr(hostname), config, "", path, started)
  }

  /**
   * The outcomes of backup_device: a failed connect gives "Connection
   * failed" and nothing else; an empty configuration "Failed to get
   * configuration"; a failed write "Failed to save configuration";
   * success exactly when connect, fetch, cleanup and save all succeed,
   * and then no error and the saved file's name.
   */
  lemma PipelineOutcomes(device: DeviceConfig, f: Fetch, run: DeviceRun)
    requires ValidRun(run)
    ensures var r := ResultOf(device, PlanOf(f, run), run.started);
      (!f.connected ==> !r.success && r.error == ConnectionFailed && r.hostname == JStr("") && r.config == "")
      && (f.connected ==>
            r.hostname == f.hostname
            && (f.config == "" ==> !r.success && r.error == "Failed to get configuration")
            && (r.success <==> f.config != "" && f.hostname.JStr? && f.clean.Some? && run.saveWritable)
            && (r.success ==> r.error == "" && r.config == f.config
                              && r.backupPath == Backups.BackupFilename(f.hostname.s, run.saveTime))
            && (f.config != "" && f.hostname.JStr? && f.clean.Some? && !run.saveWritable
                ==> r.error == "Failed to save configuration"))
  {
  }

  /** The ignore-pattern settings after cleanup_config has run once for a device type. */
  function SettingsAfter(settings: BackupConfig.Fields, deviceType: Json): BackupConfig.Fields
  {
    match BackupConfig.IgnorePatterns(settings, deviceType)
    case Some(patterns) => BackupConfig.WithCommon(settings, patterns)
    case None => settings
  }

  /** cleanup_config ran: the configuration was fetched and was not empty. */
  predicate CleanupRan(plan: Plan)
  {
    plan.Saved? || (plan.Stopped? && plan.why != NoConfiguration)
  }

  /** The backup directory after the pipeline: the cleaned text under the new name when it was saved. */
  function FilesAfter(files: Backups.Directory, plan: Plan, clock: int): Backups.Directory
  {
    if plan.Saved? then Dict.Put(files, plan.path, Backups.Stat(clock, plan.clean)) else files
  }

  /**
   * The diff report made after a save, given the backup chosen to compare
   * with: none when there is no such backup or it is the file just saved;
   * otherwise a report when the diff of the two files has a significant
   * line and the report can be written.
   */
  function ReportFor(files: Backups.Directory, other: Option<string>, hostname: string, path: string,
                     reportTime: DateTime, writable: bool, differ: Comparison.Differ): (r: seq<Comparison.DiffReport>)
    requires Backups.ValidTime(reportTime)
    ensures |r| <= 1
  {
    if other.None? || other.value == path then []
    else
      var oldFile, newFile := Dict.Get(files, other.value), Dict.Get(files, path);
      if oldFile.None? || newFile.None? then []
      else
        var diff := Comparison.CompareConfigs(oldFile.value.content, newFile.value.content, differ);
        if !SignificantDiff(diff) then []
        else
          var report := Comparison.GenerateDiffReport(diff, hostname, Some((other.value, path)), reportTime, writable);
          if report.Some? then [report.value] else []
  }

  /** has_significant_changes */
  predicate SignificantDiff(diff: seq<string>)
  {
    exists i | 0 <= i < |diff| :: Comparison.Significant(diff[i])
  }

  /** Which backup the new one is compared with: looked up after saving (as main.py does) or before. */
  datatype Lookup = AfterSave | BeforeSave

  /** The backup compared with. */
  function Previous(lookup: Lookup, before: Backups.Directory, after: Backups.Directory, hostname: string): Option<string>
  {
    match lookup
    case AfterSave => Backups.LatestBackup(after, hostname)
    case BeforeSave => Backups.LatestBackup(before, hostname)
  }

  /**
   * Looking the previous backup up after saving finds the file just
   * saved whenever its change time is later than every other file's, so
   * no comparison is made and no report is ever written.
   */
  lemma NoReportAfterSave(files: Backups.Directory, hostname: string, saveTime: DateTime, clock: int, clean: string,
                          reportTime: DateTime, writable: bool, differ: Comparison.Differ)
    requires Backups.ValidTime(saveTime) && Backups.ValidTime(reportTime)
    requires forall e | e in files :: e.1.ctime < clock
    ensures var path := Backups.BackupFilename(hostname, saveTime);
      var after := Dict.Put(files, path, Backups.Stat(clock, clean));
      Backups.LatestBackup(after, hostname) == Some(path)
      && ReportFor(after, Previous(AfterSave, files, after, hostname), hostname, path, reportTime, writable, differ) == []
  {
    var path := Backups.BackupFilename(hostname, saveTime);
    var saved := Backups.Stat(clock, clean);
    var after := Dict.Put(files, path, saved);
    var safe := Backups.SanitizeFilename(hostname);
    Dict.GetPutSame(files, path, saved);
    assert (path, saved) in after;
    Backups.BackupFilenameIsBackupOf(hostname, saveTime);
    Backups.LatestBackupNewest(after, hostname);
    var latest := Backups.LatestBackup(after, hostname);
    var e :| e in after && e.0 == latest.value && Backups.BackupOf(e.0, safe)
             && forall o | o in after && Backups.BackupOf(o.0, safe) :: o.1.ctime <= e.1.ctime;
    assert e.1.ctime >= clock;
    Dict.PutMembers(files, path, saved, e);
  }

  /** Two stored backups whose texts differ in a significant line give one report when it can be written. */
  lemma ReportWritten(files: Backups.Directory, other: string, hostname: string, path: string, reportTime: DateTime,
                      differ: Comparison.Differ, oldStat: Backups.Stat, newStat: Backups.Stat)
    requires Backups.ValidTime(reportTime) && other != path
    requires Dict.Get(files, other) == Some(oldStat) && Dict.Get(files, path) == Some(newStat)
    requires SignificantDiff(Comparison.CompareConfigs(oldStat.content, newStat.content, differ))
    ensures var diff := Comparison.CompareConfigs(oldStat.content, newStat.content, differ);
      ReportFor(files, Some(other), hostname, path, reportTime, true, differ)
      == [Comparison.GenerateDiffReport(diff, hostname, Some((other, path)), reportTime, true).value]
  {
    var diff := Comparison.CompareConfigs(oldStat.content, newStat.content, differ);
    var i :| 0 <= i < |diff| && Comparison.Significant(diff[i]);
    assert diff != [];
  }

  /**
   * Looking the previous backup up before saving compares with the last
   * backup there was: when its text and the new one differ in a
   * significant line, exactly one report is written (if it can be).
   */
  lemma ReportBeforeSave(files: Backups.Directory, hostname: string, path: string, clock: int, clean: string,
                         reportTime: DateTime, differ: Comparison.Differ, previous: string, st: Backups.Stat)
    requires Backups.ValidTime(reportTime)
    requires Backups.LatestBackup(files, hostname) == Some(previous) && previous != path
    requires Dict.Get(files, previous) == Some(st)
    requires SignificantDiff(Comparison.CompareConfigs(st.content, clean, differ))
    ensures var after := Dict.Put(files, path, Backups.Stat(clock, clean));
      var r := ReportFor(after, Previous(BeforeSave, files, after, hostname), hostname, path, reportTime, true, differ);
      r == [Comparison.GenerateDiffReport(Comparison.CompareConfigs(st.content, clean, differ),
                                          hostname, Some((previous, path)), reportTime, true).value]
  {
    var saved := Backups.Stat(clock, clean);
    var after := Dict.Put(files, path, saved);
    Dict.GetPutSame(files, path, saved);
    Dict.GetPutOther(files, path, saved, previous);
    ReportWritten(after, previous, hostname, path, reportTime, differ, st, saved);
  }

  /** What the sequential mode has produced so far: the results, the settings, the backup directory and the reports. */
  datatype Progress = Progress(results: seq<BackupResult>, settings: BackupConfig.Fields,
                               files: Backups.Directory, reports: seq<Comparison.DiffReport>)

  /** One call of backup_device on the progress so far, as BackupDevice states it. */
  function DeviceStep(commands: Json, p: Progress, device: DeviceConfig, run: DeviceRun, search: DeviceHandler.Searcher,
                      rematch: DeviceHandler.Matcher, differ: Comparison.Differ, lookup: Lookup): (q: Progress)
    requires ValidRun(run)
    ensures |q.results| == |p.results| + 1 && q.results[..|p.results|] == p.results
    ensures q.results[|p.results|].device == device && q.results[|p.results|].timestamp == run.started
    ensures |p.reports| <= |q.reports| <= |p.reports| + 1 && q.reports[..|p.reports|] == p.reports
  {
    var plan := PlanOf(FetchOf(commands, p.settings, device, run, search, rematch), run);
    var files := FilesAfter(p.files, plan, run.clock);
    Progress(p.results + [ResultOf(device, plan, run.started)],
             if CleanupRan(plan) then SettingsAfter(p.settings, device.deviceType) else p.settings,
             files,
             p.reports + (if plan.Saved? then
               ReportFor(files, Previous(lookup, p.files, files, plan.name), plan.name, plan.path,
                         run.reportTime, run.reportWritable, differ)
             else []))
  }

  /** backup_devices_sequential: backup_device on each device in turn, each from its own run. */
  function Sequential(commands: Json, p: Progress, devices: seq<DeviceConfig>, runs: seq<DeviceRun>,
                      search: DeviceHandler.Searcher, rematch: DeviceHandler.Matcher, differ: Comparison.Differ,
                      lookup: Lookup): Progress
    requires |runs| == |devices| && forall i | 0 <= i < |runs| :: ValidRun(runs[i])
    decreases |devices|
  {
    if devices == [] then p
    else
      var n := |devices| - 1;
      DeviceStep(commands, Sequential(commands, p, devices[..n], runs[..n], search, rematch, differ, lookup),
                 devices[n], runs[n], search, rematch, differ, lookup)
  }

  /**
   * The sequential mode appends exactly one result per device, in device
   * order, each naming its device and its start time, and never takes
   * back a result or a report.
   */
  lemma {:induction false} SequentialResults(commands: Json, p: Progress, devices: seq<DeviceConfig>, runs: seq<DeviceRun>,
                                             search: DeviceHandler.Searcher, rematch: DeviceHandler.Matcher,
                                             differ: Comparison.Differ, lookup: Lookup)
    requires |runs| == |devices| && forall i | 0 <= i < |runs| :: ValidRun(runs[i])
    ensures var q := Sequential(commands, p, devices, runs, search, rematch, differ, lookup);
      |q.results| == |p.results| + |devices| && q.results[..|p.results|] == p.results
      && (forall i | 0 <= i < |devices| ::
            q.results[|p.results| + i].device == devices[i] && q.results[|p.results| + i].timestamp == runs[i].started)
      && |p.reports| <= |q.reports| <= |p.reports| + |devices| && q.reports[..|p.reports|] == p.reports
    decreases |devices|
  {
    if devices != [] {
      var n := |devices| - 1;
      SequentialResults(commands, p, devices[..n], runs[..n], search, rematch, differ, lookup);
      var m := Sequential(commands, p, devices[..n], runs[..n], search, rematch, differ, lookup);
      var q := DeviceStep(commands, m, devices[n], runs[n], search, rematch, differ, lookup);
      ExtendResults(p, m, q, devices, runs);
    }
  }

  /** One more device step extends what SequentialResults states from the first n devices to all of them. */
  lemma ExtendResults(p: Progress, m: Progress, q: Progress, devices: seq<DeviceConfig>, runs: seq<DeviceRun>)
    requires |devices| > 0 && |runs| == |devices|
    requires var n := |devices| - 1;
      |m.results| == |p.results| + |devices[..n]| && m.results[..|p.results|] == p.results
      && (forall i | 0 <= i < |devices[..n]| ::
            m.results[|p.results| + i].device == devices[..n][i]
            && m.results[|p.results| + i].timestamp == runs[..n][i].started)
      && |p.reports| <= |m.reports| <= |p.reports| + |devices[..n]| && m.reports[..|p.reports|] == p.reports
    requires |q.results| == |m.results| + 1 && q.results[..|m.results|] == m.results
    requires q.results[|m.results|].device == devices[|devices| - 1] && q.results[|m.results|].timestamp == runs[|devices| - 1].started
    requires |m.reports| <= |q.reports| <= |m.reports| + 1 && q.reports[..|m.reports|] == m.reports
    ensures |q.results| == |p.results| + |devices| && q.results[..|p.results|] == p.results
    ensures forall i | 0 <= i < |devices| ::
              q.results[|p.results| + i].device == devices[i] && q.results[|p.results| + i].timestamp == runs[i].started
    ensures |p.reports| <= |q.reports| <= |p.reports| + |devices| && q.reports[..|p.reports|] == p.reports
  {
    var n := |devices| - 1;
    assert forall i | 0 <= i < n :: devices[..n][i] == devices[i] && runs[..n][i] == runs[i];
    assert q.results[..|p.results|] == m.results[..|p.results|];
    assert q.reports[..|p.reports|] == m.reports[..|p.reports|];
    forall j | |p.results| <= j < |m.results|
      ensures q.results[j] == m.results[j]
    {
      assert q.results[..|m.results|][j] == q.results[j];
    }
  }

  /**
   * The finding of NoReportAfterSave over a whole sequential run: when
   * each device's backup gets a later change time than every file before
   * it, backup_devices_sequential as written never writes a diff report,
   * however the configurations change.
   */
  lemma {:induction false} SequentialNoReports(commands: Json, p: Progress, devices: seq<DeviceConfig>, runs: seq<DeviceRun>,
                                               search: DeviceHandler.Searcher, rematch: DeviceHandler.Matcher,
                                               differ: Comparison.Differ)
    requires |runs| == |devices| && forall i | 0 <= i < |runs| :: ValidRun(runs[i])
    requires devices != [] ==> forall e | e in p.files :: e.1.ctime < runs[0].clock
    requires forall i | 0 <= i < |runs| - 1 :: runs[i].clock < runs[i + 1].clock
    ensures var q := Sequential(commands, p, devices, runs, search, rematch, differ, AfterSave);
      q.reports == p.reports
      && (devices != [] ==> forall e | e in q.files :: e.1.ctime <= runs[|devices| - 1].clock)
    decreases |devices|
  {
    if devices != [] {
      var n := |devices| - 1;
      SequentialNoReports(commands, p, devices[..n], runs[..n], search, rematch, differ);
      var m := Sequential(commands, p, devices[..n], runs[..n], search, rematch, differ, AfterSave);
      assert forall e | e in m.files :: e.1.ctime < runs[n].clock by {
        if n > 0 {
          assert runs[..n][n - 1] == runs[n - 1];
        }
      }
      StepNoReport(commands, m, devices[n], runs[n], search, rematch, differ);
    }
  }

  /** One device of the sequential run as written: no report, and the files' change times stay within the run's clock. */
  lemma StepNoReport(commands: Json, m: Progress, device: DeviceConfig, run: DeviceRun, search: DeviceHandler.Searcher,
                     rematch: DeviceHandler.Matcher, differ: Comparison.Differ)
    requires ValidRun(run)
    requires forall e | e in m.files :: e.1.ctime < run.clock
    ensures var q := DeviceStep(commands, m, device, run, search, rematch, differ, AfterSave);
      q.reports == m.reports && forall e | e in q.files :: e.1.ctime <= run.clock
  {
    var plan := PlanOf(FetchOf(commands, m.settings, device, run, search, rematch), run);
    var q := DeviceStep(commands, m, device, run, search, rematch, differ, AfterSave);
    assert q.files == FilesAfter(m.files, plan, run.clock);
    if plan.Saved? {
      NoReportAfterSave(m.files, plan.name, run.saveTime, run.clock, plan.clean, run.reportTime, run.reportWritable, differ);
      forall e | e in q.files
        ensures e.1.ctime <= run.clock
      {
        Dict.PutMembers(m.files, plan.path, Backups.Stat(run.clock, plan.clean), e);
      }
    }
  }

  class NetworkBackupTool {
    const configManager: BackupConfig.ConfigManager
    const deviceHandler: DeviceHandler.NetworkDeviceHandler
    const backupManager: Backups.BackupManager
    /** re.search, re.match and difflib, which the model leaves abstract */
    const search: DeviceHandler.Searcher
    const rematch: DeviceHandler.Matcher
    const differ: Comparison.Differ
    /** self.results */
    var results: seq<BackupResult>
    /** The diff reports written to the reports directory. */
    var reports: seq<Comparison.DiffReport>

    ghost predicate Valid()
      reads this, deviceHandler
    {
      deviceHandler.Valid() && deviceHandler.configManager == configManager
    }

    constructor (configManager: BackupConfig.ConfigManager, deviceHandler: DeviceHandler.NetworkDeviceHandler,
                 backupManager: Backups.BackupManager, search: DeviceHandler.Searcher,
                 rematch: DeviceHandler.Matcher, differ: Comparison.Differ)
      requires deviceHandler.Valid() && deviceHandler.configManager == configManager
      ensures Valid() && results == [] && reports == []
      ensures this.configManager == configManager && this.deviceHandler == deviceHandler
      ensures this.backupManager == backupManager
      ensures this.search == search && this.rematch == rematch && this.differ == differ
    {
      this.configManager := configManager;
      this.deviceHandler := deviceHandler;
      this.backupManager := backupManager;
      this.search := search;
      this.rematch := rematch;
      this.differ := differ;
      results := [];
      reports := [];
    }

    /**
     * backup_device, with the previous backup looked up after saving as
     * main.py does (AfterSave) or before (BeforeSave).  The result follows
     * PlanOf; the new file is stored only on success; the cleanup's
     * settings change only when it ran; a report is added only after a
     * save; once connected, the host leaves the connection table on every
     * path, and no connection outlives the call.
     */
    method BackupDevice(device: DeviceConfig, run: DeviceRun, lookup: Lookup) returns (result: BackupResult)
      requires Valid() && ValidRun(run)
      modifies this, deviceHandler, configManager, backupManager
      ensures Valid() && results == old(results)
      ensures var plan := PlanOf(FetchOf(configManager.commands, old(configManager.config), device, run, search, rematch), run);
        result == ResultOf(device, plan, run.started)
        && backupManager.files == FilesAfter(old(backupManager.files), plan, run.clock)
        && configManager.config == (if CleanupRan(plan) then SettingsAfter(old(configManager.config), device.deviceType)
                                    else old(configManager.config))
        && reports == old(reports) + (if plan.Saved? then
             ReportFor(backupManager.files, Previous(lookup, old(backupManager.files), backupManager.files, plan.name),
                       plan.name, plan.path, run.reportTime, run.reportWritable, differ)
           else [])
      ensures !Connected(configManager.commands, device, run) ==> deviceHandler.connections == old(deviceHandler.connections)
      ensures Connected(configManager.commands, device, run) ==>
                forall k :: Dict.HasKey(deviceHandler.connections, k) <==>
                              Dict.HasKey(old(deviceHandler.connections), k) && k != device.host
      ensures deviceHandler.Open() <= old(deviceHandler.Open())
    {
      ghost var before := deviceHandler.connections;
      var conn := deviceHandler.Connect(device, run.session);
      if conn == null {
        result := NewBackupResult(device, false, "", None, run.started).(error := ConnectionFailed);
        return;
      }
      result := BackupConnected(device, run, lookup, before, conn);
    }

    /**
     * backup_device once the connection to the host is stored: fetch the
     * hostname and the configuration, run the rest of the pipeline, and
     * disconnect the host in the finally clause.
     */
    method BackupConnected(device: DeviceConfig, run: DeviceRun, lookup: Lookup,
                           ghost before: Dict.Dict<Json, DeviceHandler.Connection>, conn: DeviceHandler.Connection)
      returns (result: BackupResult)
      requires Valid() && ValidRun(run) && Connected(configManager.commands, device, run)
      requires deviceHandler.connections == Dict.Put(before, device.host, conn)
      modifies this, deviceHandler, configManager, backupManager, conn
      ensures Valid() && results == old(results)
      ensures var plan := PlanOf(FetchOf(configManager.commands, old(configManager.config), device, run, search, rematch), run);
        result == ResultOf(device, plan, run.started)
        && backupManager.files == FilesAfter(old(backupManager.files), plan, run.clock)
        && configManager.config == (if CleanupRan(plan) then SettingsAfter(old(configManager.config), device.deviceType)
                                    else old(configManager.config))
        && reports == old(reports) + (if plan.Saved? then
             ReportFor(backupManager.files, Previous(lookup, old(backupManager.files), backupManager.files, plan.name),
                       plan.name, plan.path, run.reportTime, run.reportWritable, differ)
           else [])
      ensures forall k :: Dict.HasKey(deviceHandler.connections, k) <==> Dict.HasKey(before, k) && k != device.host
      ensures forall c | c in deviceHandler.Open() :: c in (set i | 0 <= i < |before| :: before[i].1)
    {
      var hostname := DeviceHandler.GetHostname(configManager.commands, device, run.hostnameReply, run.basePrompt, search).value;
      var config := DeviceHandler.GetConfiguration(configManager.commands, device, run.configReply).value;
      assert FetchOf(configManager.commands, configManager.config, device, run, search, rematch)
             == Fetch(true, hostname, config, CleanFor(configManager.config, device.deviceType, config, rematch));
      result := Proceed(device, run, lookup, hostname, config);
      Dict.GetPutSame(before, device.host, conn);
      DisconnectHost(device.host, before, conn);
    }

    /** The try block of backup_device once connected, given the hostname and the configuration fetched. */
    method Proceed(device: DeviceConfig, run: DeviceRun, lookup: Lookup, hostname: Json, config: string)
      returns (result: BackupResult)
      requires ValidRun(run) && deviceHandler.configManager == configManager
      modifies this, configManager, backupManager
      ensures results == old(results)
      ensures var plan := PlanOf(Fetch(true, hostname, config, CleanFor(old(configManager.config), device.deviceType, config, rematch)), run);
        result == ResultOf(device, plan, run.started)
        && backupManager.files == FilesAfter(old(backupManager.files), plan, run.clock)
        && configManager.config == (if CleanupRan(plan) then SettingsAfter(old(configManager.config), device.deviceType)
                                    else old(configManager.config))
        && reports == old(reports) + (if plan.Saved? then
             ReportFor(backupManager.files, Previous(lookup, old(backupManager.files), backupManager.files, plan.name),
                       plan.name, plan.path, run.reportTime, run.reportWritable, differ)
           else [])
    {
      result := NewBackupResult(device, false, "", None, run.started).(hostname := hostname);
      if config == "" {
        result := result.(error := ErrorText(NoConfiguration));
        return;
      }
      result := result.(config := config);
      var clean := deviceHandler.CleanupConfig(config, device.deviceType, rematch);
      if clean.None? || !hostname.JStr? {
        result := result.(error := ErrorText(Raised));
        return;
      }
      var path := SaveAndCompare(hostname.s, clean.value, run, lookup);
      if path.None? {
        result := result.(error := ErrorText(NotSaved));
        return;
      }
      result := result.(backupPath := path.value, success := true);
    }

    /** save_config, then find_latest_backup (before or after saving) and the comparison when the save succeeded. */
    method SaveAndCompare(hostname: string, clean: string, run: DeviceRun, lookup: Lookup) returns (path: Option<string>)
      requires ValidRun(run)
      modifies this, backupManager
      ensures results == old(results)
      ensures path.Some? <==> run.saveWritable
      ensures path.Some? ==> path.value == Backups.BackupFilename(hostname, run.saveTime)
      ensures backupManager.files == if path.Some? then Dict.Put(old(backupManager.files), path.value, Backups.Stat(run.clock, clean))
                                     else old(backupManager.files)
      ensures reports == old(reports) + (if path.None? then [] else
                ReportFor(backupManager.files, Previous(lookup, old(backupManager.files), backupManager.files, hostname),
                          hostname, path.value, run.reportTime, run.reportWritable, differ))
    {
      ghost var before := backupManager.files;
      var previous := backupManager.FindLatestBackup(hostname);
      path := backupManager.SaveConfig(hostname, clean, run.saveTime, run.clock, run.saveWritable);
      if path.None? {
        return;
      }
      if lookup == AfterSave {
        previous := backupManager.FindLatestBackup(hostname);
      }
      assert previous == Previous(lookup, before, backupManager.files, hostname);
      Compare(previous, hostname, path.value, run);
    }

    /** The finally clause: the host's connection, just stored, is disconnected. */
    method DisconnectHost(host: Json, ghost before: Dict.Dict<Json, DeviceHandler.Connection>, conn: DeviceHandler.Connection)
      requires Valid() && deviceHandler.connections == Dict.Put(before, host, conn)
      requires Dict.Get(deviceHandler.connections, host) == Some(conn)
      modifies deviceHandler, conn
      ensures Valid()
      ensures forall k :: Dict.HasKey(deviceHandler.connections, k) <==> Dict.HasKey(before, k) && k != host
      ensures forall c | c in deviceHandler.Open() :: c in (set i | 0 <= i < |before| :: before[i].1)
    {
      assert deviceHandler.Under(host) == {conn};
      deviceHandler.Disconnect(host);
      forall k
        ensures Dict.HasKey(deviceHandler.connections, k) <==> Dict.HasKey(before, k) && k != host
      {
        Dict.HasKeyPut(before, host, conn, k);
      }
      forall c | c in deviceHandler.Open()
        ensures c in (set i | 0 <= i < |before| :: before[i].1)
      {
        var i :| 0 <= i < |deviceHandler.connections| && deviceHandler.connections[i].1 == c;
        var e := deviceHandler.connections[i];
        assert e in Dict.Put(before, host, conn) && e.0 != host;
        Dict.PutMembers(before, host, conn, e);
        var j :| 0 <= j < |before| && before[j] == e;
      }
    }

    /**
     * The comparison after a save: compare_files on the two backups,
     * has_significant_changes, then generate_diff_report.  Nothing here
     * can clear the result's success.
     */
    method Compare(other: Option<string>, hostname: string, path: string, run: DeviceRun)
      requires ValidRun(run)
      modifies this
      ensures results == old(results)
      ensures reports == old(reports)
                         + ReportFor(backupManager.files, other, hostname, path, run.reportTime, run.reportWritable, differ)
    {
      if other.None? || other.value == path {
        return;
      }
      var oldFile, newFile := Dict.Get(backupManager.files, other.value), Dict.Get(backupManager.files, path);
      if oldFile.None? || newFile.None? {
        return;
      }
      var diff := Comparison.CompareFiles(Some(oldFile.value.content), Some(newFile.value.content), differ).value;
      if diff == [] {
        return;
      }
      var significant := Comparison.HasSignificantChanges(diff);
      if significant {
        var report := Comparison.GenerateDiffReport(diff, hostname, Some((other.value, path)), run.reportTime, run.reportWritable);
        if report.Some? {
          reports := reports + [report.value];
        }
      }
    }

    /** backup_devices_sequential: one result per device, in device order, each from its own run. */
    method BackupDevicesSequential(devices: seq<DeviceConfig>, runs: seq<DeviceRun>)
      requires Valid() && |runs| == |devices|
      requires forall i | 0 <= i < |runs| :: ValidRun(runs[i])
      modifies this, deviceHandler, configManager, backupManager
      ensures Valid()
      ensures Progress(results, configManager.config, backupManager.files, reports)
              == Sequential(configManager.commands,
                            Progress(old(results), old(configManager.config), old(backupManager.files), old(reports)),
                            devices, runs, search, rematch, differ, AfterSave)
    {
      ghost var start := Progress(results, configManager.config, backupManager.files, reports);
      var i := 0;
      while i < |devices|
        invariant 0 <= i <= |devices| && Valid()
        invariant Progress(results, configManager.config, backupManager.files, reports)
                  == Sequential(configManager.commands, start, devices[..i], runs[..i], search, rematch, differ, AfterSave)
      {
        assert devices[..i + 1][..i] == devices[..i] && runs[..i + 1][..i] == runs[..i];
        var result := BackupDevice(devices[i], runs[i], AfterSave);
        results := results + [result];
        i := i + 1;
      }
      assert devices[..i] == devices && runs[..i] == runs;
    }

    /** generate_summary_report, without writing the summary file. */
    method GenerateSummaryReport(now: DateTime) returns (summary: Summary)
      ensures summary.totalDevices == |results| && summary.successful == Successes(results)
      ensures summary.successful + summary.failed == summary.totalDevices
      ensures summary.successRate ==
                if |results| > 0 then summary.successful as real / |results| as real * 100.0 else 0.0
      ensures summary.backupCount == backupManager.BackupCount()
      ensures |summary.results| == |results|
      ensures forall i | 0 <= i < |results| :: summary.results[i] == RowOf(results[i])
      ensures summary.timestamp == now && summary.toolVersion == "2.0"
    {
      var total := |results|;
      var successful := 0;
      var i := 0;
      while i < total
        invariant 0 <= i <= total && successful == Successes(results[..i])
      {
        assert results[..i + 1][..i] == results[..i];
        if results[i].success {
          successful := successful + 1;
        }
        i := i + 1;
      }
      assert results[..i] == results;
      var rate := if total > 0 then successful as real / total as real * 100.0 else 0.0;
      var rows: seq<Row> := [];
      var j := 0;
      while j < total
        invariant 0 <= j <= total && |rows| == j
        invariant forall k | 0 <= k < j :: rows[k] == RowOf(results[k])
      {
        rows := rows + [RowOf(results[j])];
        j := j + 1;
      }
      summary := Summary(now, "2.0", total, successful, total - successful, rate, backupManager.BackupCount(), rows);
    }
  }

  /** One entry of the summary's results list. */
  datatype Row = Row(host: Json, hostname: Json, deviceType: Json, success: bool,
                     backupPath: string, error: string, timestamp: DateTime)

  datatype Summary = Summary(
    timestamp: DateTime,
    toolVersion: string,
    totalDevices: nat,
    successful: nat,
    failed: nat,
    successRate: real,
    backupCount: nat,
    results: seq<Row>)

  function RowOf(r: BackupResult): Row
  {
    Row(r.device.host, r.hostname, r.device.deviceType, r.success, r.backupPath, r.error, r.timestamp)
  }

  /** sum(1 for r in results if r.success) */
  function Successes(results: seq<BackupResult>): (n: nat)
    ensures n <= |results|
    decreases |results|
  {
    if results == [] then 0
    else Successes(results[..|results| - 1]) + (if results[|results| - 1].success then 1 else 0)
  }

  /** Every result succeeds exactly when none fails, and none succeeds exactly when the count is zero. */
  lemma {:induction false} SuccessesMeaning(results: seq<BackupResult>)
    ensures Successes(results) == |results| <==> forall i | 0 <= i < |results| :: results[i].success
    ensures Successes(results) == 0 <==> forall i | 0 <= i < |results| :: !results[i].success
    decreases |results|
  {
    if results != [] {
      var front := results[..|results| - 1];
      SuccessesMeaning(front);
      assert forall i | 0 <= i < |front| :: front[i] == results[i];
    }
  }
}
