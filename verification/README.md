# networks — a verified model

This project models in Dafny the decision logic of the three tools in the `networks` repository.
Sockets, subprocesses, thread pools and file writes are outside the model. The other places where the model and the program part ways are listed under "Left out" below.

- **The network discovery tool** finds devices behind a list of targets, then inventories them. It:
  - expands address ranges and CIDR blocks;
  - aggregates port probes into open-port lists;
  - reads which management protocols a device exposes;
  - logs in over SSH first and falls back to Telnet, trying each credential in list order;
  - classifies "show version" output into vendor, model, OS version, serial number and Netmiko device type;
  - keeps the discovered devices in a map keyed by IP and derives statistics and filters from it;
  - builds Netmiko and Ansible inventories, CSV rows and report counters.

  The SSH and Telnet clients and their connection caches, the credential loader and the target-list loader are modelled too.
- **The ping scanner** (`net_scanner`) works in two phases. It:
  - parses target lines: single addresses, CIDR blocks, ranges and comma lists, each with size caps;
  - filters out loopback, link-local and private addresses;
  - sorts addresses;
  - retries a ping up to a limit and classifies the outcome;
  - extracts latencies from ping output and averages them;
  - fills a per-host result map and a summary with percentages.

  Its configuration is validated when it is built, and a user file overlays the defaults.
- **The network backup tool** saves device configurations and compares them. For each device it:
  - connects and reads the hostname;
  - fetches the configuration and cleans it;
  - saves it under a sanitised, time-stamped file name;
  - looks up the previous backup and compares it, meaning to write a diff report when the changes are significant (as written the lookup finds the file just saved, so no report is written; see "Findings");
  - disconnects.

  The tool also keeps a per-device retention limit on backup files, merges user settings recursively into built-in ones, gives each device its defaults, falls back through the command table, and ships a stand-alone configuration validator.

Code that changes state step by step is modelled the same way in Dafny:
- classes with `modifies` frames: the detector cache, the engine's device map, the connection managers, the device handler's connection table, the ping scanner's result map and progress counter, and the backup pipeline;
- methods with loop invariants: the loops that fill dicts and lists.

Each method is proved against a specification function. Pure code is modelled as functions with lemmas. Python's dict is an insertion-ordered sequence of pairs, and IPv4 addresses are naturals below 2^32.

Regular expressions are handled in two ways:
- The fixed patterns that matter to the results (address syntax, latency, hostnames, ANSI control sequences as section 5.4 of ECMA-48 defines them) are run by a small backtracking matcher. It captures the same group as Python's `re`.
- The backup file-name pattern of the cleanup and the glob patterns of the backup directory are hand-written predicates.
- The classifier's and the users' patterns go through an abstract engine.

## Model

| member | source | states |
|---|---|---|
| BackupModels.DefaultsCoverOptional | network_backup_tool/src/models.py:12-21 | of the ten fields, exactly host, device_type, username and password have no default |
| BackupModels.ToDict | network_backup_tool/src/models.py:23-25 | asdict gives one key per field, in declaration order |
| BackupModels.UnexpectedKeys | network_backup_tool/src/models.py:28-30 | the keys that name no field are exactly the dict's keys outside the field list, and there are none if and only if every key names a field |
| BackupModels.MissingFields | network_backup_tool/src/models.py:28-30 | the missing names are exactly the required names the dict lacks, and there are none if and only if it has them all |
| BackupModels.FromDict | network_backup_tool/src/models.py:28-30 | cls(**data) succeeds if and only if every key names a field and every required field is given; an unexpected-keyword error names a key that is not a field |
| BackupModels.ToDictFields | network_backup_tool/src/models.py:23-30 | every field of to_dict(d) reads back as the field of d |
| BackupModels.ToDictAccepted | network_backup_tool/src/models.py:23-30 | to_dict(d) is always accepted by from_dict |
| BackupModels.RoundTrip | network_backup_tool/src/models.py:23-30 | from_dict(to_dict(d)) == d |
| BackupModels.OptionalDefault | network_backup_tool/src/models.py:16-21 | a field other than the four required ones, absent from the dict, takes its declared default |
| BackupModels.OptionalDefaults | network_backup_tool/src/models.py:16-21 | the six optional fields read as 22, "", 30, False, "" and "ssh" |
| BackupModels.RequiredOnlyAccepted | network_backup_tool/src/models.py:12-15 | a dict holding just the four required fields is accepted |
| BackupModels.Defaults | network_backup_tool/src/models.py:12-30 | from_dict of the four required fields succeeds, keeps them, and fills the others with port 22, secret "", timeout 30, use_keys False, key_file "" and transport "ssh" |
| BackupModels.NewBackupResult | network_backup_tool/src/models.py:34-46 | the text fields default to empty, and the timestamp is the given one or, only when none is given, the clock's |
| BackupModels.NewCommandMapping | network_backup_tool/src/models.py:50-58 | the three given commands are kept; the rest default to "", "", False and True |
| Backups.Replaced | network_backup_tool/src/backup_manager.py:141 | every unsafe character becomes `_`, every other character stays in place, and the length is kept |
| Backups.SanitizeFilename | network_backup_tool/src/backup_manager.py:138-145 | the result has at most 100 characters, none of them `<>:"/\|?*` or a control character, and does not start with ' ' or '.' |
| Backups.SanitizeSafe | network_backup_tool/src/backup_manager.py:138-145 | a name that is already safe and not padded with ' ' or '.' is only cut to its first 100 characters |
| Backups.SanitizeReexposesSpace | network_backup_tool/src/backup_manager.py:141-145 | stripping runs before the cut, so a longer safe name with ' ' at position 99 gives a 100-character name ending in ' ' |
| Backups.Stamp | network_backup_tool/src/backup_manager.py:30 | the strftime("%Y-%m-%d_%H-%M-%S") text is the year's digits followed by 15 more characters |
| Backups.YearDigits | network_backup_tool/src/backup_manager.py:30 | a year from 1000 to 9999 prints as exactly four digits |
| Backups.StampHasShape | network_backup_tool/src/backup_manager.py:30 | from the year 1000 on the stamp has the dddd-dd-dd_dd-dd-dd layout that the cleanup pattern expects |
| Backups.BackupFilename | network_backup_tool/src/backup_manager.py:28-32 | the file name starts with the sanitized hostname and '_', ends in ".conf", and is 6 characters longer than the name plus the stamp |
| Backups.DeviceGroup | network_backup_tool/src/backup_manager.py:95-97 | a name the cleanup pattern files under a device starts with that device and '_', and the device is non-empty and has no '_' |
| Backups.GroupOfStamped | network_backup_tool/src/backup_manager.py:95-97 | "<safe>_<stamp>.conf" is filed under `safe` if and only if `safe` is non-empty and has no '_' |
| Backups.GroupOfBackupFilename | network_backup_tool/src/backup_manager.py:28-32 | a file just saved is filed under its own sanitized hostname if and only if that name is non-empty and has no '_' (otherwise it is never cleaned up under that name) |
| Backups.ConfFiles | network_backup_tool/src/backup_manager.py:90 | glob("*.conf") keeps exactly the entries whose name ends in ".conf" |
| Backups.BackupFilenameIsBackupOf | network_backup_tool/src/backup_manager.py:56-60 | every file saved for a hostname answers that hostname's glob pattern |
| Backups.BackupsOf | network_backup_tool/src/backup_manager.py:56-60 | the glob for a hostname keeps exactly the entries answering "<safe>_*.conf" |
| Backups.Newest | network_backup_tool/src/backup_manager.py:64-66 | None only for an empty list; otherwise an entry with the largest change time, and the first listed among equals (the sort is stable) |
| Backups.Filed | network_backup_tool/src/backup_manager.py:93-100 | the entries filed under a device are exactly the listed entries the pattern gives that device |
| Backups.GroupsGet | network_backup_tool/src/backup_manager.py:91-100 | backups_by_device has no repeated device, and each device maps to exactly its filed entries, absent when it has none |
| Backups.GroupMembers | network_backup_tool/src/backup_manager.py:91-100 | every file of a device's list is a listed entry filed under that device |
| Backups.Insert | network_backup_tool/src/backup_manager.py:107 | inserting keeps every entry (as a multiset) and adds the new one |
| Backups.SortByCtime | network_backup_tool/src/backup_manager.py:107 | the sort is a permutation of its input |
| Backups.InsertSorted | network_backup_tool/src/backup_manager.py:107 | inserting into a list sorted by change time keeps it sorted |
| Backups.SortSorted | network_backup_tool/src/backup_manager.py:107 | the sorted list is ordered by change time, oldest first |
| Backups.SliceEnd | network_backup_tool/src/backup_manager.py:110 | the slice bound of backups[:-max_backups] never exceeds the list's length |
| Backups.Without | network_backup_tool/src/backup_manager.py:110-112 | after deleting a set of names, exactly the entries with other names remain |
| Backups.WithoutNothing | network_backup_tool/src/backup_manager.py:110-112 | deleting no name leaves the directory as it was |
| Backups.RemoveWithout | network_backup_tool/src/backup_manager.py:112 | unlinking one more file is the same as deleting it along with the earlier ones |
| Backups.ExcessCount | network_backup_tool/src/backup_manager.py:105-110 | a group over a positive limit loses len - max_backups files; a limit of 0 deletes nothing; a negative limit -m deletes min(m, len) files |
| Backups.SortedPrefixOldest | network_backup_tool/src/backup_manager.py:107-110 | in a list sorted by change time, no entry of a prefix is newer than an entry after it |
| Backups.ExcessOldest | network_backup_tool/src/backup_manager.py:105-110 | the deleted files of a group are among its files, and none is newer than any file it keeps |
| Backups.DoomedZero | network_backup_tool/src/backup_manager.py:110 | with max_backups = 0 nothing is deleted, because backups[:-0] is empty |
| Backups.DoomedOfMembers | network_backup_tool/src/backup_manager.py:104-110 | a file is deleted if and only if it is in the excess of some device's group |
| Backups.DoomedMatches | network_backup_tool/src/backup_manager.py:90-112 | only listed .conf files that the pattern files under a device are ever deleted |
| Backups.DoomedByDevice | network_backup_tool/src/backup_manager.py:93-110 | a file filed under a device is deleted if and only if it is in the excess of that device's .conf files |
| Backups.CleanupKeeps | network_backup_tool/src/backup_manager.py:84-119 | with distinct names, a file survives the cleanup if and only if it is not doomed |
| Backups.LatestBackupNewest | network_backup_tool/src/backup_manager.py:54-70 | None exactly when no file answers the hostname's pattern; otherwise the name of an answering file that no other answering file is newer than |
| Backups.BackupManager.constructor | network_backup_tool/src/backup_manager.py:16-26 | the manager starts on the given directory and limit |
| Backups.BackupManager.SaveConfig | network_backup_tool/src/backup_manager.py:39-52 | a write that succeeds stores the text under BackupFilename and returns that name; a failed write returns None and changes nothing |
| Backups.BackupManager.FindLatestBackup | network_backup_tool/src/backup_manager.py:54-70 | None exactly when no stored file answers the pattern; otherwise a newest answering file |
| Backups.BackupManager.BackupCount | network_backup_tool/src/backup_manager.py:147-153 | the number of .conf files, never more than the directory holds |
| Backups.BackupManager.CleanupOldBackups | network_backup_tool/src/backup_manager.py:84-119 | the new directory is the old one without the doomed files, using the stored limit when none is given |
| Backups.BackupManager.RemoveBackups | network_backup_tool/src/backup_manager.py:110-116 | each file of the batch is unlinked in turn, so the batch's names join the deleted set |
| Backups.DoomedStep | network_backup_tool/src/backup_manager.py:104-110 | handling one more device's group adds exactly that group's excess to the deleted names |
| Backups.GroupsStep | network_backup_tool/src/backup_manager.py:93-100 | one more listed file is appended to its device's list, or changes nothing when the pattern does not match |
| Backups.GroupFiles | network_backup_tool/src/backup_manager.py:91-100 | the loop builds exactly the backups_by_device dictionary that Groups specifies |
| Comparison.CompareConfigs | network_backup_tool/src/comparison_engine.py:22-42 | an empty old or new configuration gives no diff; otherwise the unified diff of their '\n'-split lines |
| Comparison.CompareFiles | network_backup_tool/src/comparison_engine.py:44-61 | None if and only if a file cannot be read; otherwise compare_configs of the two texts |
| Comparison.ChangeStatistics | network_backup_tool/src/comparison_engine.py:145-152 | added plus removed never exceeds the diff length, and each count is 0 if and only if no line of its kind exists |
| Comparison.StatisticsAppend | network_backup_tool/src/comparison_engine.py:145-152 | the counts of two concatenated diffs are the sums of their counts |
| Comparison.HeadersNotCounted | network_backup_tool/src/comparison_engine.py:88-91 | the "+++ New Config" and "--- Old Config" headers count as neither added nor removed |
| Comparison.SignificantCount | network_backup_tool/src/comparison_engine.py:131-141 | the number of significant lines never exceeds the diff length |
| Comparison.SignificantCountZero | network_backup_tool/src/comparison_engine.py:131-143 | the count is 0 if and only if no line is significant |
| Comparison.HasSignificantChanges | network_backup_tool/src/comparison_engine.py:115-143 | true if and only if some added or removed line, stripped after its sign, matches none of the seven insignificant patterns |
| Comparison.SignificantHasChanges | network_backup_tool/src/comparison_engine.py:115-152 | a diff with a significant line has at least one added or removed line |
| Comparison.TimestampsInsignificant | network_backup_tool/src/comparison_engine.py:125 | a changed line whose text starts with "! Time:" is never significant |
| Comparison.SanitizeName | network_backup_tool/src/comparison_engine.py:154-156 | same length; no `<>:"/\|?*` remains; every other character is kept |
| Comparison.SanitizeNameTwice | network_backup_tool/src/comparison_engine.py:154-156 | sanitizing twice is sanitizing once |
| Comparison.Header | network_backup_tool/src/comparison_engine.py:72-82 | the header has five lines, or seven when both file names are given |
| Comparison.GenerateDiffReport | network_backup_tool/src/comparison_engine.py:63-113 | None if and only if the diff is empty or the file cannot be written; otherwise the report holds the diff after the header, ends with the summary of get_change_statistics, and is named CHANGES_<sanitized>_<stamp>.diff |
| BackupTool.ResultOf | network_backup_tool/main.py:57-121 | the result keeps the device and the start time, and is a success exactly when the pipeline reached a saved backup |
| BackupTool.PipelineOutcomes | network_backup_tool/main.py:57-121 | a failed connect gives "Connection failed" with no hostname or configuration; an empty configuration gives "Failed to get configuration"; a failed write "Failed to save configuration"; success exactly when connect, fetch, cleanup and save all succeed, and then no error, the configuration and the saved file's name |
| BackupTool.ReportFor | network_backup_tool/main.py:93-108 | at most one diff report per backup |
| BackupTool.NoReportAfterSave | network_backup_tool/main.py:86-105 | looking the previous backup up after the save (as written) always finds the file just saved when it is the newest, so no report is ever produced |
| BackupTool.ReportWritten | network_backup_tool/main.py:95-105 | two different stored backups whose diff has a significant line give exactly the report generate_diff_report builds, when it can be written |
| BackupTool.ReportBeforeSave | network_backup_tool/main.py:86-105 | looking the previous backup up before the save compares with the last earlier backup and yields exactly one report when the texts differ in a significant line |
| BackupTool.NetworkBackupTool.constructor | network_backup_tool/main.py:57-59 | the tool starts with no results and no reports, over the given configuration manager, device handler and backup manager |
| BackupTool.NetworkBackupTool.BackupDevice | network_backup_tool/main.py:57-121 | the result follows the pipeline's plan; the new backup is stored only on success; the ignore-pattern settings change only when cleanup ran; a report is added only after a save; once connected the host leaves the connection table on every path, and the open connections never grow |
| BackupTool.NetworkBackupTool.BackupConnected | network_backup_tool/main.py:69-119 | with the host connected: the result, directory, settings and reports follow the plan, the host leaves the connection table while every other host keeps its entry, and only connections open before the connect stay open |
| BackupTool.NetworkBackupTool.Proceed | network_backup_tool/main.py:69-115 | the try block: the result, the backup directory, the settings and the reports after fetching the hostname and configuration, as the plan says |
| BackupTool.NetworkBackupTool.SaveAndCompare | network_backup_tool/main.py:85-108 | a path exactly when the save can be written, named from hostname and save time; the directory gains exactly that file; the reports gain the comparison's report with the backup looked up before or after the save |
| BackupTool.NetworkBackupTool.DisconnectHost | network_backup_tool/main.py:117-119 | after the finally clause the host has no connection and every other host keeps its own; no connection that was not open before remains open |
| BackupTool.NetworkBackupTool.Compare | network_backup_tool/main.py:93-108 | the reports grow by exactly the report the comparison calls for, and the results are unchanged |
| BackupTool.NetworkBackupTool.BackupDevicesSequential | network_backup_tool/main.py:149-155 | the results, settings, backup directory and reports after the loop are those of running backup_device as written on each device in order, with the previous backup looked up after the save |
| BackupTool.DeviceStep | network_backup_tool/main.py:57-121 | one device's backup appends exactly one result, for that device and run start, keeps the earlier results and reports, and adds at most one report |
| BackupTool.SequentialResults | network_backup_tool/main.py:149-155 | the loop gives one result per device, in device order, each for its own device and run start, after the results already there; earlier reports are kept and each device adds at most one |
| BackupTool.StepNoReport | network_backup_tool/main.py:86-105 | as written, a device backed up later than every stored file writes no diff report, and afterwards every stored file is no newer than its run |
| BackupTool.SequentialNoReports | network_backup_tool/main.py:86-155 | as written, a sequential run over devices at increasing times, all later than the stored backups, writes no diff report at all |
| BackupTool.NetworkBackupTool.GenerateSummaryReport | network_backup_tool/main.py:157-189 | total, successful and failed add up; the success rate is successful/total*100 or 0 for no results; the backup count; one row per result with its fields; tool version "2.0" |
| BackupTool.Successes | network_backup_tool/main.py:160 | the number of successes never exceeds the number of results |
| BackupTool.SuccessesMeaning | network_backup_tool/main.py:160-161 | all results succeed exactly when the count equals the total, and none does exactly when it is zero |
| BackupConfig.DeepMerge | network_backup_tool/src/config_manager.py:224-232 | the merge loop computes the recursive merge, and merging nothing returns the base |
| BackupConfig.MergeKeys | network_backup_tool/src/config_manager.py:224-232 | a key is in the merge exactly when it is in the base or in the update |
| BackupConfig.MergeKeepsKeys | network_backup_tool/src/config_manager.py:226-232 | no key of the base is lost by merging |
| BackupConfig.MergeGet | network_backup_tool/src/config_manager.py:227-231 | a key of the update reads as the nested merge when both values are dicts and as the update's value otherwise; every other key keeps the base's value |
| BackupConfig.MergeUnique | network_backup_tool/src/config_manager.py:224-232 | merging keeps keys unique |
| BackupConfig.LoadConfig | network_backup_tool/src/config_manager.py:61-72 | a truthy mapping document is deep-merged into the defaults (Merge, whose keys and values MergeKeys and MergeGet state); no file, an empty file or a file that is not a mapping leaves the defaults; every default key survives |
| BackupConfig.LoadCommands | network_backup_tool/src/config_manager.py:74-84 | no file gives the built-in commands, an empty file an empty mapping, otherwise the file's content |
| BackupConfig.GetDeviceCommands | network_backup_tool/src/config_manager.py:167-169 | the device type's entry when present, else the cisco_ios entry, else an empty mapping; an error when the type is unhashable or the commands are not a mapping |
| BackupConfig.ExtendItems | network_backup_tool/src/config_manager.py:177 | list.extend takes a list's items, a string's characters and a mapping's keys, and raises for a scalar |
| BackupConfig.IgnorePatterns | network_backup_tool/src/config_manager.py:171-179 | the common patterns followed by the device type's patterns, and an error exactly when the table or the entries are not what extend accepts |
| BackupConfig.WithCommonTable | network_backup_tool/src/config_manager.py:173-177 | after the call the table's "common" entry is the extended list |
| BackupConfig.IgnorePatternsAccumulate | network_backup_tool/src/config_manager.py:173-177 | because extend mutates the shared common list, a second call returns the common patterns, then the first type's, then the second type's |
| BackupConfig.ConfigManager.constructor | network_backup_tool/src/config_manager.py:15-59 | the settings are the defaults merged with the configuration file and the commands are loaded from the commands file |
| BackupConfig.ConfigManager.GetIgnorePatterns | network_backup_tool/src/config_manager.py:171-179 | returns the patterns and leaves the common list extended by them; an error leaves the settings unchanged |
| BackupConfig.ConfigManager.LoadDevices | network_backup_tool/src/config_manager.py:122-165 | the devices are exactly those the device file yields |
| BackupConfig.BuildDevices | network_backup_tool/src/config_manager.py:139-155 | the loop builds exactly the devices with a truthy host, in file order |
| BackupConfig.FieldGet | network_backup_tool/src/config_manager.py:142-151 | dict.get with a default is the stored value or the default |
| BackupConfig.DeviceOfGiven | network_backup_tool/src/config_manager.py:141-152 | every field given in the device entry is taken as given |
| BackupConfig.FieldAbsent | network_backup_tool/src/config_manager.py:142-151 | an absent key reads as the default |
| BackupConfig.DeviceOfDefaults | network_backup_tool/src/config_manager.py:141-152 | a missing host is "", a missing type "cisco_ios", a missing secret ""; every other missing field comes from the global settings |
| BackupConfig.Record | network_backup_tool/src/config_manager.py:154-155 | a device is kept only when its host is truthy |
| BackupConfig.Records | network_backup_tool/src/config_manager.py:139-155 | one record per entry, in order |
| BackupConfig.LoadedDevices | network_backup_tool/src/config_manager.py:126-165 | a missing, unreadable or non-list file gives no devices, and so does a list with an entry that is not a mapping |
| BackupConfig.KeptAppend | network_backup_tool/src/config_manager.py:139-155 | the kept devices of two runs of entries concatenate |
| BackupConfig.KeptMembers | network_backup_tool/src/config_manager.py:154-155 | a device is kept exactly when some entry built it |
| BackupConfig.LoadedHosts | network_backup_tool/src/config_manager.py:154 | every loaded device has a truthy host |
| DeviceHandler.Span | network_backup_tool/src/device_handler.py:24 | the longest prefix whose characters lie in a range, as a character class with `*` takes it |
| DeviceHandler.AnsiAt | network_backup_tool/src/device_handler.py:24 | an ANSI escape matched at the start begins with ESC and is at least two characters long |
| DeviceHandler.StripAnsi | network_backup_tool/src/device_handler.py:173 | removing escape sequences never lengthens the text |
| DeviceHandler.StripAnsiPlain | network_backup_tool/src/device_handler.py:173 | text without ESC is left as it is |
| DeviceHandler.StripAnsiColour | network_backup_tool/src/device_handler.py:173 | a colour reset sequence ESC[0m is removed entirely |
| DeviceHandler.DropChar | network_backup_tool/src/device_handler.py:176 | the character is gone and every remaining character was there before |
| DeviceHandler.KeptLines | network_backup_tool/src/device_handler.py:179-186 | at most as many lines, each non-empty and without trailing whitespace |
| DeviceHandler.KeptLinesAppend | network_backup_tool/src/device_handler.py:182-186 | the kept lines of two runs of lines concatenate |
| DeviceHandler.KeptLinesMembers | network_backup_tool/src/device_handler.py:182-186 | a line is kept exactly when it is the non-empty right-stripped form of some input line |
| DeviceHandler.CleanOutput | network_backup_tool/src/device_handler.py:170-188 | the loop computes the cleaned output |
| DeviceHandler.CleanedShape | network_backup_tool/src/device_handler.py:170-188 | the cleaned output has no carriage return, and its lines are the kept lines of the input without escapes and carriage returns, each non-empty and without trailing whitespace |
| DeviceHandler.Configuration | network_backup_tool/src/device_handler.py:119-144 | no reply or a command that is not a string gives "" |
| DeviceHandler.ConfigurationEcho | network_backup_tool/src/device_handler.py:133-140 | the first line is dropped exactly when it contains the command, and the rest is stripped |
| DeviceHandler.Entry | network_backup_tool/src/device_handler.py:121 | the device's command entry exists exactly when get_device_commands gives a mapping |
| DeviceHandler.GetConfiguration | network_backup_tool/src/device_handler.py:119-144 | an error exactly when the command entry is missing, else the configuration read with config_cmd, "show running-config" by default |
| DeviceHandler.Hostname | network_backup_tool/src/device_handler.py:86-117 | the host when no hostname command is set or the command fails; otherwise a string |
| DeviceHandler.HostnameFromGroup | network_backup_tool/src/device_handler.py:99-104 | a pattern match gives its first group stripped of whitespace and then of quotes, so it neither starts nor ends with a quote |
| DeviceHandler.HostnameFromPrompt | network_backup_tool/src/device_handler.py:106-113 | without a match, the base prompt stripped of '#', '>' and ' ' when that is non-empty, else the host |
| DeviceHandler.GetHostname | network_backup_tool/src/device_handler.py:86-117 | an error exactly when the command entry is missing; else the host or a string |
| DeviceHandler.SkipMeaning | network_backup_tool/src/device_handler.py:153-163 | a line is skipped exactly when some pattern, after every earlier one was passed over, matches it; it is kept exactly when all are passed over; invalid patterns are passed over |
| DeviceHandler.SkipTextPatterns | network_backup_tool/src/device_handler.py:156-163 | string patterns never raise |
| DeviceHandler.FilteredMembers | network_backup_tool/src/device_handler.py:152-166 | a line survives exactly when it is an input line that is not blank and not skipped |
| DeviceHandler.FilteredAppend | network_backup_tool/src/device_handler.py:152-166 | filtering distributes over concatenated lines |
| DeviceHandler.FilteredTextPatterns | network_backup_tool/src/device_handler.py:152-166 | string patterns never raise for any configuration |
| DeviceHandler.SkipLine | network_backup_tool/src/device_handler.py:153-163 | the inner loop computes the skip verdict |
| DeviceHandler.FilteredRaises | network_backup_tool/src/device_handler.py:156-163 | an error on a line aborts the whole cleanup |
| DeviceHandler.FilteredStep | network_backup_tool/src/device_handler.py:152-166 | one more line appends itself when kept, nothing when skipped, and raises when its verdict raises |
| DeviceHandler.FilterConfig | network_backup_tool/src/device_handler.py:149-168 | the outer loop computes the cleaned configuration |
| DeviceHandler.Connection.constructor | network_backup_tool/src/device_handler.py:55 | a connection of the device type with the calls made on it so far |
| DeviceHandler.SetupCalls | network_backup_tool/src/device_handler.py:57-70 | enable() is called exactly when the table asks for it and the device has a secret; disable_paging() exactly for a true flag; disconnect() never |
| DeviceHandler.LogoutCalls | network_backup_tool/src/device_handler.py:196-205 | the last call is always disconnect() |
| DeviceHandler.NetworkDeviceHandler.constructor | network_backup_tool/src/device_handler.py:22-25 | no connection at first |
| DeviceHandler.NetworkDeviceHandler.Connect | network_backup_tool/src/device_handler.py:27-84 | a connection exactly when the session opens, the command entry exists and the host is hashable; it is fresh, has made the setup calls and is stored under the host; otherwise the table is unchanged |
| DeviceHandler.NetworkDeviceHandler.Disconnect | network_backup_tool/src/device_handler.py:190-207 | the host's entry is removed and every other kept; its connection made the logout calls and is closed |
| DeviceHandler.NetworkDeviceHandler.DisconnectAll | network_backup_tool/src/device_handler.py:209-212 | the table is empty and every connection that was open is closed |
| DeviceHandler.NetworkDeviceHandler.CleanupConfig | network_backup_tool/src/device_handler.py:146-168 | the cleaned configuration under the device type's patterns, an error when the patterns raise, and the shared common list extended by the patterns |
| Validator.PatternProblems | network_backup_tool/validate_config.py:54-64 | an error (TypeError from re.compile) exactly when some pattern is not a string; otherwise only invalid-pattern errors, each indexing a pattern |
| Validator.PatternProblemsExact | network_backup_tool/validate_config.py:58-62 | a pattern is reported, with its position, its text and the compiler's message, exactly when it fails to compile |
| Validator.ValidateRegexPatterns | network_backup_tool/validate_config.py:54-64 | the loop computes the list of pattern errors |
| Validator.PatternsRaise | network_backup_tool/validate_config.py:58-60 | a pattern that is not a string makes the whole check raise |
| Validator.MissingCommandFields | network_backup_tool/validate_config.py:78-80 | a missing-field error names exactly the required fields the entry lacks, never more errors than fields |
| Validator.CommandProblems | network_backup_tool/validate_config.py:72-87 | a non-dict entry gives the single "must be a dictionary" error; otherwise one error per missing field plus one for an invalid hostname pattern; it raises exactly when the hostname pattern is present and not a string |
| Validator.CommandFieldsReported | network_backup_tool/validate_config.py:78-80 | a field is reported missing exactly when it is required and absent |
| Validator.GatherMeaning | network_backup_tool/validate_config.py:72-89 | the gathered check raises exactly when one entry raises, and reports nothing exactly when no entry reports anything |
| Validator.EntryResults | network_backup_tool/validate_config.py:72-87 | one result per command entry, in order |
| Validator.CommandsProblemsMeaning | network_backup_tool/validate_config.py:67-89 | the commands are valid exactly when every entry is, and the check raises exactly when an entry raises |
| Validator.GatherStep | network_backup_tool/validate_config.py:72-87 | each entry appends its errors, or the check raises |
| Validator.GatherRaise | network_backup_tool/validate_config.py:84-85 | once an entry raises, the check raises |
| Validator.ValidateDeviceCommands | network_backup_tool/validate_config.py:67-89 | the loop computes the commands' errors |
| Validator.PortProblems | network_backup_tool/validate_config.py:119-125 | no error exactly when the port is absent or an integer in 1..65535; otherwise exactly one "not a number" or "out of range" error |
| Validator.DeviceProblems | network_backup_tool/validate_config.py:100-103 | a device that is not a dict gives exactly the "must be a dictionary" error |
| Validator.DeviceParts | network_backup_tool/validate_config.py:105-125 | the errors of a dict device in source order: missing host, missing type, empty host, empty type, then the port |
| Validator.DeviceFieldsReported | network_backup_tool/validate_config.py:105-116 | each missing or empty host and device type is reported, and only then |
| Validator.DevicePortReported | network_backup_tool/validate_config.py:118-125 | a port error exactly when the port is present and not an integer in 1..65535 |
| Validator.DeviceProblemsEmpty | network_backup_tool/validate_config.py:100-125 | a device has no errors exactly when it is a valid device |
| Validator.FlattenMeaning | network_backup_tool/validate_config.py:100-127 | the joined errors are empty exactly when every part is, and hold exactly the errors of the parts |
| Validator.DeviceResults | network_backup_tool/validate_config.py:100-125 | one error list per device, in order |
| Validator.DevicesProblems | network_backup_tool/validate_config.py:97-98 | a non-list gives exactly "Devices must be a JSON array" |
| Validator.DevicesProblemsMeaning | network_backup_tool/validate_config.py:92-127 | a list of devices has no errors exactly when every device is valid, and an error is reported exactly when some device reports it |
| Validator.ValidateDevices | network_backup_tool/validate_config.py:92-127 | the loop computes the devices' errors |
| Validator.MissingSections | network_backup_tool/validate_config.py:135-138 | a section is reported exactly when it is required and absent; raises when `in` is undefined for the configuration |
| Validator.Limit | network_backup_tool/validate_config.py:160-175 | an absent value gives nothing, a non-integer the "must be a number" error, an integer below the least the "at least" error and nothing otherwise |
| Validator.GlobalProblems | network_backup_tool/validate_config.py:141-153 | an absent section gives nothing, a non-dict "Global section must be a dictionary"; a dict is error-free exactly when its port is absent or in 1..65535 |
| Validator.BackupProblems | network_backup_tool/validate_config.py:156-175 | only a dict backup section is checked: the max_backups errors then the max_workers errors, each at least 1 |
| Validator.IgnoreProblems | network_backup_tool/validate_config.py:191-203 | an absent table is fine; a non-dict gives "ignore_patterns must be a dictionary"; otherwise only common-list and common-pattern errors |
| Validator.Common | network_backup_tool/validate_config.py:202-203 | each pattern error is re-labelled as a common pattern error, in order |
| Validator.ComparisonProblems | network_backup_tool/validate_config.py:178-203 | only a dict comparison section is checked: the context_lines errors (negative or not a number), then the ignore-pattern errors |
| Validator.DefaultConfigSections | network_backup_tool/validate_config.py:134-138 | a section is reported missing exactly when it is required and absent |
| Validator.DefaultConfigLimits | network_backup_tool/validate_config.py:155-188 | an integer max_backups or max_workers below 1 and a negative context_lines are always reported |
| Validator.ValidateDefaultConfig | network_backup_tool/validate_config.py:130-205 | the checks compute the default configuration's errors |
| Validator.UsedTypesMembers | network_backup_tool/validate_config.py:348-352 | the used types are exactly the device_type values of the dict devices that have one |
| Validator.UndefinedTypes | network_backup_tool/validate_config.py:346-354 | nothing when the files have the wrong shapes; otherwise exactly the used types that the commands do not define, and an error when a used type is unhashable |
| Validator.UsedTypesRaise | network_backup_tool/validate_config.py:350-352 | an unhashable device type makes set.add raise |
| Detector.VendorIndex | network_discovery/discovery/device_detector.py:218-228 | the first table entry, in declaration order, with a pattern found in the lowered output; none when no entry has one |
| Detector.ExtractModel | network_discovery/discovery/device_detector.py:246-285 | no model exactly when none of the vendor's model patterns is found |
| Detector.ExtractVersion | network_discovery/discovery/device_detector.py:287-303 | none exactly when no version pattern is found; otherwise group 1 of the first pattern that is |
| Detector.ExtractSerial | network_discovery/discovery/device_detector.py:305-319 | none exactly when no serial pattern is found; otherwise group 1 of the first pattern that is |
| Detector.FallbackUnreachable | network_discovery/discovery/device_detector.py:230-238 | the keyword fallback never names a vendor: an output holding a keyword already matched its vendor's table entry |
| Detector.VendorNamesDistinct | network_discovery/discovery/device_detector.py:20-179 | the vendor names of the table are distinct |
| Detector.VendorIsFirstMatch | network_discovery/discovery/device_detector.py:207-244 | the vendor is the first table entry with a matching pattern, and there is none exactly when no entry matches |
| Detector.FirstSubtype | network_discovery/discovery/device_detector.py:353-355 | the value of the first subtype whose key, with '-' read as ' ', occurs in the output; none exactly when no key occurs |
| Detector.DeviceType | network_discovery/discovery/device_detector.py:321-360 | no type without a vendor, and none for a vendor other than Cisco that has no subtype map |
| Detector.CiscoType | network_discovery/discovery/device_detector.py:338-348 | asa first, then nexus or nx-os, then ios-xe, then ios-xr, else cisco_ios, each exactly under its condition |
| Detector.MappedVendorType | network_discovery/discovery/device_detector.py:350-358 | for a mapped vendor the first subtype found, else the map's first value |
| Detector.UnmappedVendors | network_discovery/discovery/device_detector.py:350-360 | Extreme, Brocade and Nokia are detected but get no device type |
| Detector.EdgeSwitchUnreachable | network_discovery/discovery/device_detector.py:353-355 | 'ubiquiti_edgeswitch' is never chosen, because the earlier key 'edge' matches whenever 'edgeswitch' does |
| Detector.Prefix | network_discovery/discovery/device_detector.py:373 | output[:1000] is a prefix of at most 1000 characters, the whole text when it is shorter |
| Detector.Analyze | network_discovery/discovery/device_detector.py:362-399 | raw output is the first 1000 characters; a too-short output yields no field; a device type only with a vendor |
| Detector.StoreKeepsCacheValid | network_discovery/discovery/device_detector.py:226-227 | storing a classification that names a vendor under its key keeps every cached answer a classification of an output with that key |
| Detector.ScanFindsFirst | network_discovery/discovery/device_detector.py:421-434 | the output classified is the reply to the first command whose reply is usable, every earlier one having been passed over |
| Detector.ScanExhausted | network_discovery/discovery/device_detector.py:421-436 | the loop runs out exactly when every command answered with nothing usable |
| Detector.Discovered | network_discovery/discovery/device_detector.py:412-418 | no device when the login fails |
| Detector.DiscoveredFromFirstReply | network_discovery/discovery/device_detector.py:421-434 | a discovered device was analysed from the first usable reply, and its hostname is the stripped 'hostname' reply or the address |
| Detector.DeviceDetector.constructor | network_discovery/discovery/device_detector.py:194-195 | an empty cache |
| Detector.Remembered | network_discovery/discovery/device_detector.py:197-244 | every cached key keeps its answer; the only key added is the output's, holding its fresh classification, and it is present afterwards exactly when it was cached or the classification names a vendor |
| Detector.AnalyzedCache | network_discovery/discovery/device_detector.py:362-399 | a too-short output leaves the cache as it was; any other output caches as detect_vendor does |
| Detector.DeviceDetector.DetectVendor | network_discovery/discovery/device_detector.py:197-244 | the cached answer for the key or a fresh classification; the cache gains the answer only when it names a vendor and the key was new |
| Detector.DeviceDetector.AnalyzeOutput | network_discovery/discovery/device_detector.py:362-399 | the analysis of the output against the cache; the new cache is the old one for a too-short output, and otherwise the old one with a fresh answer that names a vendor stored under the output's key |
| Detector.DeviceDetector.Discover | network_discovery/discovery/device_detector.py:401-481 | the session's discovery result against the cache at the start; the cache changes only by analysing the first usable reply, as analyze_output does |
| Detector.FirstUsable | network_discovery/discovery/device_detector.py:421-436 | the loop computes the command scan |
| Detector.VendorName | network_discovery/discovery/device_detector.py:214-240 | the loop computes the vendor of the classification |
| Detector.ClassifiedModel | network_discovery/discovery/device_detector.py:224-241 | a model is looked for only once a vendor is known, with that vendor's patterns |
| Detector.FirstVendor | network_discovery/discovery/device_detector.py:218-228 | the nested loop finds the first matching table entry |
| Detector.CacheExactForShortOutput | network_discovery/discovery/device_detector.py:210-212 | for an output shorter than 500 characters the cached answer is exactly the output's classification |
| Protocols.PortsOf | network_discovery/connectors/protocol_detector.py:155 | PROTOCOL_PORTS.get gives the list of the name's entry, or the default for an unknown name |
| Protocols.CatalogIsDict | network_discovery/connectors/protocol_detector.py:19-35 | every protocol name occurs once in the catalog |
| Protocols.FlattenMembers | network_discovery/connectors/protocol_detector.py:55-57 | a port is scanned exactly when some protocol lists it |
| Protocols.AllPorts | network_discovery/connectors/protocol_detector.py:55-57 | the loop joins every port list in catalog order, so it holds exactly the listed ports |
| Protocols.FirstOpen | network_discovery/connectors/protocol_detector.py:71-75 | none exactly when no port of the list is open; otherwise an open port of the list with no open port before it |
| Protocols.Classify | network_discovery/connectors/protocol_detector.py:63-79 | for every protocol the flag says whether any of its ports is open and the port key is the first open one; has_management is ssh or telnet, has_web http or https |
| Protocols.RecordKeepsReports | network_discovery/connectors/protocol_detector.py:65-75 | recording one more protocol keeps what is said about the earlier ones and states the new one correctly |
| Protocols.FirstPort | network_discovery/connectors/protocol_detector.py:72-75 | the inner loop finds the first open port of the list |
| Protocols.DetectAllProtocols | network_discovery/connectors/protocol_detector.py:42-82 | the answer describes the catalog against the scan of all its ports |
| Protocols.DetectManagementProtocols | network_discovery/connectors/protocol_detector.py:84-107 | one flag for each of ssh, telnet, http and https, true exactly when one of its ports answered |
| Protocols.CheckTargets | network_discovery/connectors/protocol_detector.py:121-128 | an unknown protocol is not scanned; a truthy port replaces the catalog list; no port or 0 keeps the list |
| Protocols.CheckSpecificProtocol | network_discovery/connectors/protocol_detector.py:109-131 | false for an unknown protocol; otherwise true exactly when some target port is open |
| Protocols.Recommend | network_discovery/connectors/protocol_detector.py:154-179 | a protocol is recommended exactly when a port is; no recommendation is never secure |
| Protocols.Preferred | network_discovery/connectors/protocol_detector.py:133-179 | the stated preference: the first protocol with an open catalog port; a protocol exactly when a port |
| Protocols.RecommendPreferred | network_discovery/connectors/protocol_detector.py:133-179 | on a scan's result, the priority walk picks the first of ssh, telnet, https and http with an open port, and its first open port |
| Protocols.RecommendFromSsh | network_discovery/connectors/protocol_detector.py:146-172 | from the ssh entries down, the walk agrees with the preference |
| Protocols.RecommendFromTelnet | network_discovery/connectors/protocol_detector.py:149-172 | from the telnet entry down, the walk agrees with the preference |
| Protocols.RecommendFromHttps | network_discovery/connectors/protocol_detector.py:150-172 | from the https entry down, the walk agrees with the preference |
| Protocols.RecommendFromHttp | network_discovery/connectors/protocol_detector.py:151-172 | the http entry alone agrees with the preference |
| Protocols.CatalogLookups | network_discovery/connectors/protocol_detector.py:20-24 | the port lists of ssh, telnet, http and https, whatever default get is given |
| Protocols.PriorityStep | network_discovery/connectors/protocol_detector.py:154-172 | one priority entry answers with the first open catalog port when its standard port comes first or none is open, and otherwise hands on to the next entry |
| Protocols.PreferredIsFirst | network_discovery/connectors/protocol_detector.py:154-179 | the recommended port is open and belongs to the protocol, and there is no recommendation exactly when no preferred protocol has an open port |
| Engine.Keep | network_discovery/discovery/engine.py:106-132 | exactly the names whose flag is set, in list order |
| Engine.Capabilities | network_discovery/discovery/engine.py:106-132 | exactly the flagged protocols among ssh, telnet, http, https, snmp, netconf, ftp and tftp, in that order |
| Engine.FirstSuccess | network_discovery/discovery/engine.py:57-77 | none exactly when every credential fails; otherwise the first credential that succeeds, with what it found |
| Engine.FirstSuccessAt | network_discovery/discovery/engine.py:57-77 | the first succeeding credential is the one chosen |
| Engine.Build | network_discovery/discovery/engine.py:63-74 | the factory call succeeds exactly when the address parses, and the device then carries the protocol, the credential, the capabilities, and the hostname, vendor, device type, model, OS version and serial number discovery found |
| Engine.Probed | network_discovery/discovery/engine.py:51-53 | a host without management gives no device |
| Engine.ProbedViaSsh | network_discovery/discovery/engine.py:55-77 | when SSH is open, the first SSH credential that works decides the device, whatever Telnet would give |
| Engine.ProbedViaTelnet | network_discovery/discovery/engine.py:79-101 | when SSH is closed or no SSH credential works, the first Telnet credential that works decides the device |
| Engine.TelnetOnlyAfterSsh | network_discovery/discovery/engine.py:55-101 | a device found over Telnet means SSH was closed or every SSH credential failed, and a Telnet credential worked |
| Engine.ProbedNothing | network_discovery/discovery/engine.py:103-104 | no working credential on an open protocol gives no device |
| Engine.Matching | network_discovery/discovery/engine.py:221-249 | the devices whose vendor (or device type) matches ignoring case, in their order; exactly those |
| Engine.VendorKeys | network_discovery/discovery/engine.py:203 | each device's vendor, or 'Неизвестно' when it has none |
| Engine.TypeKeys | network_discovery/discovery/engine.py:207 | each device's device type, or 'unknown' when it has none |
| Engine.StatusKeys | network_discovery/discovery/engine.py:216 | each device's status |
| Engine.ProtocolCount | network_discovery/discovery/engine.py:210-213 | never more devices counted than there are |
| Engine.ProtocolCountsDisjoint | network_discovery/discovery/engine.py:210-213 | a device counts under at most one of ssh and telnet |
| Engine.CountOne | network_discovery/discovery/engine.py:201-217 | one device bumps its vendor, type and status counts, and its protocol's if that is ssh or telnet |
| Engine.CountedStep | network_discovery/discovery/engine.py:201-217 | counting one more device is one more loop step |
| Engine.CountedTallies | network_discovery/discovery/engine.py:201-217 | counting device by device is tallying the lists of vendors, types and statuses, and adding the protocol counts |
| Engine.KeysFront | network_discovery/discovery/engine.py:201-217 | the keys of all but the last device are a prefix of all the keys |
| Engine.StatisticsSums | network_discovery/discovery/engine.py:191-219 | each table sums to the number of devices; the protocol counts are the ssh and telnet devices |
| Engine.VendorCount | network_discovery/discovery/engine.py:203-204 | the count under a vendor is the number of devices with that vendor key |
| Engine.TypeCount | network_discovery/discovery/engine.py:207-208 | the count under a device type is the number of devices with that type key |
| Engine.DiscoveryEngine.constructor | network_discovery/discovery/engine.py:20-33 | no devices discovered |
| Engine.DiscoveryEngine.DiscoverSingle | network_discovery/discovery/engine.py:35-104 | the outcome of the protocol scan and the credential attempts |
| Engine.DiscoveryEngine.DiscoverDevices | network_discovery/discovery/engine.py:134-189 | every address is probed; the map gains each device found under its address; nothing is added for a host without a device or with an exception; the map is returned |
| Engine.DiscoveryEngine.GetStatistics | network_discovery/discovery/engine.py:191-219 | the statistics of the discovered devices |
| Engine.DiscoveryEngine.DevicesByVendor | network_discovery/discovery/engine.py:221-234 | exactly the discovered devices whose vendor matches ignoring case |
| Engine.DiscoveryEngine.DevicesByType | network_discovery/discovery/engine.py:236-249 | exactly the discovered devices whose type matches ignoring case |
| Engine.DiscoveryEngine.Clear | network_discovery/discovery/engine.py:251-254 | no devices afterwards |
| Engine.RecordedKeys | network_discovery/discovery/engine.py:159-167 | after a batch the addresses are those there before plus those whose probe found a device |
| Engine.RecordedValues | network_discovery/discovery/engine.py:159-167 | a found address maps to its device, an address outside the batch keeps its value, and keys stay unique |
| Device.OrElse | network_discovery/models/device.py:120 | `a or b`: the value when it is present and non-empty, the fallback otherwise |
| Device.NewCredentials | network_discovery/models/device.py:30-37 | construction succeeds exactly when the username is non-empty and both ports lie in 1..65535, and then keeps every field; an empty username is the first error reported |
| Device.Login | network_discovery/models/device.py:18-28 | the defaults: SSH port 22, Telnet port 23, both timeouts 10; any non-empty username gives valid credentials |
| Device.ForSsh | network_discovery/models/device.py:39-46 | the user, the password, the SSH port and the SSH timeout |
| Device.ForTelnet | network_discovery/models/device.py:48-55 | the user, the password, the Telnet port and the Telnet timeout |
| Device.SshTelnetParams | network_discovery/models/device.py:39-55 | the two parameter sets differ only in port and timeout, and valid credentials give valid ports for both |
| Device.Blank | network_discovery/models/device.py:62-81 | a record at its defaults: protocol and status "unknown", ports 22 and 23, no capabilities |
| Device.NewDevice | network_discovery/models/device.py:83-90 | construction succeeds exactly when the IP text is an address, and then keeps the record |
| Device.MappingIsSuffix | network_discovery/models/device.py:99-111 | every entry of the Telnet mapping is its key with the _telnet suffix |
| Device.NetmikoType | network_discovery/models/device.py:113-120 | over Telnet with a device type, the type with _telnet appended unless it already ends so (so it always ends in _telnet); otherwise the type or 'autodetect' |
| Device.SuffixEnds | network_discovery/models/device.py:116 | appending the suffix makes the text end with it |
| Device.Optional | network_discovery/models/device.py:133-144 | an optional key is present exactly when the field is truthy, with the field's value |
| Device.Port | network_discovery/models/device.py:128 | the SSH port for protocol "ssh", the Telnet port for every other protocol |
| Device.ToNetmikoConfig | network_discovery/models/device.py:96-146 | the Netmiko type, host, port, user, password, timeout 10 and delay factor 2; secret, vendor, model, os_version and name present exactly when their fields are truthy, and then equal to those fields |
| Device.GetConnectionInfo | network_discovery/models/device.py:148-158 | the address, hostname, protocol, port, user, type and vendor of the record |
| Device.InfoMatchesConfig | network_discovery/models/device.py:128-154 | the connection summary and the Netmiko settings name the same host, port and user |
| Device.FromSshDiscovery | network_discovery/models/device.py:164-179 | succeeds exactly when the address parses; protocol "ssh", status "active", the credential's user, password, enable password and SSH port, Telnet port 23; the given address, device type, vendor, hostname, model, OS version, serial number, capabilities and last-seen time are kept |
| Device.FromTelnetDiscovery | network_discovery/models/device.py:181-196 | succeeds exactly when the address parses; protocol "telnet", status "active", the credential's user, password, enable password and Telnet port, SSH port 22; the given address, device type, vendor, hostname, model, OS version, serial number, capabilities and last-seen time are kept |
| Device.FactoryReconnects | network_discovery/models/device.py:164-196 | a device discovered over SSH (Telnet) is reached again with the same user, password and port as the credential's SSH (Telnet) parameters |
| IpParser.Normalize | net_scanner/ip_parser.py:34-35 | the spaces around `,`, `-` and `/` are dropped, so the line never grows; a line without white space is left as it is (NormalizeKeeps) |
| IpParser.NormalizeKeeps | net_scanner/ip_parser.py:34-35 | a line without white space comes out of the normalisation unchanged |
| IpParser.ParseLine | net_scanner/ip_parser.py:15-171 | the loop-built address set of one line equals the specification LineAddresses: blank and comment lines, the mask check, single addresses, CIDR blocks, ranges, comma lists and dotted masks |
| IpParser.ExpandParts | net_scanner/ip_parser.py:133-140 | the addresses of a comma list are the union of the addresses of its parts, each parsed as a line of its own |
| IpParser.ExpandCidr | net_scanner/ip_parser.py:68-85 | the addresses of a CIDR line equal CidrAddresses: nothing for a malformed network, else the network's addresses |
| IpParser.ExpandNetwork | net_scanner/ip_parser.py:71-81 | a network with more than 65536 addresses yields only its first and last host, any other network all of its hosts |
| IpParser.NetworkHosts | net_scanner/ip_parser.py:80-81 | the loop collects exactly the host addresses from the lowest to the highest host |
| IpParser.HostTextsStep | net_scanner/ip_parser.py:80-81 | one more host step adds exactly that host's text to the collected set |
| IpParser.ExpandRange | net_scanner/ip_parser.py:88-130 | the addresses of a dashed range equal RangeAddresses, the range with its two ends stripped |
| IpParser.ExpandEndpoints | net_scanner/ip_parser.py:92-125 | mismatched families or start above end give nothing, more than 1000 addresses give only the two ends, otherwise every address from start to end |
| IpParser.RangeTextsStep | net_scanner/ip_parser.py:120-121 | one more range step adds exactly that address's text |
| IpParser.IPv4Text | net_scanner/ip_parser.py:59-65 | a dotted IPv4 text is non-empty, holds a dot, only digits and dots, and none of the separators the parser looks for |
| IpParser.NotIPv4 | net_scanner/ip_parser.py:59-65 | a text holding a character other than a digit or a dot is not a dotted IPv4 address |
| IpParser.BlankOrComment | net_scanner/ip_parser.py:26-31 | a line that is blank or starts with `#` after stripping yields no address |
| IpParser.SingleIPv4 | net_scanner/ip_parser.py:59-65 | a line that is one IPv4 address yields exactly that address |
| IpParser.SlashDecides | net_scanner/ip_parser.py:38-85 | a line with a slash yields nothing when the mask check rejects it and the CIDR expansion otherwise |
| IpParser.ManySlashes | net_scanner/ip_parser.py:38-57 | a line with two or more slashes yields no address |
| IpParser.RangeTextsHas | net_scanner/ip_parser.py:120-121 | an address is in the range texts exactly when it lies between the range's lower and upper bound |
| IpParser.HostTextsHas | net_scanner/ip_parser.py:80-81 | an IPv4 address is among the collected hosts exactly when it lies between the lowest host and the loop's bound |
| IpParser.NetworkAddressesV4 | net_scanner/ip_parser.py:71-81 | for every IPv4 address: in a large network only the addresses after the network address and before the broadcast address, otherwise exactly the hosts; for a prefix up to /30, exactly the addresses strictly between network and broadcast |
| IpParser.LargeNetworkV4 | net_scanner/ip_parser.py:73-78 | an IPv4 network with more than 65536 addresses contributes exactly its first and last host |
| IpParser.LargeNetworkSet | net_scanner/ip_parser.py:73-78 | the same as a two-element set: network address plus one and broadcast address minus one |
| IpParser.PairHas | net_scanner/ip_parser.py:112-118 | an address belongs to the two-ends set exactly when it is one of the two ends |
| IpParser.SplitTwo | net_scanner/ip_parser.py:90 | text, separator, text splits back into the two texts and holds the separator once |
| IpParser.JoinedText | net_scanner/ip_parser.py:26-35 | two parts joined by a separator survive stripping and normalisation unchanged and do not start a comment |
| IpParser.SlashText | net_scanner/ip_parser.py:38-57 | an address with a digit mask passes through stripping and normalisation and splits back into address and mask |
| IpParser.CidrLineV4 | net_scanner/ip_parser.py:38-85 | an IPv4 address with a mask above 32 yields nothing, one with a mask up to 32 yields that network's addresses |
| IpParser.DashText | net_scanner/ip_parser.py:87-91 | two IPv4 addresses joined by a dash form a range line: one dash, no slash, no colon, not an address itself |
| IpParser.DashLine | net_scanner/ip_parser.py:88-130 | such a line is handled as a range |
| IpParser.DashRange | net_scanner/ip_parser.py:106-121 | the range of two IPv4 ends: nothing when start exceeds end, the two ends when over 1000 addresses, else every address in between |
| IpParser.DashSplit | net_scanner/ip_parser.py:90-91 | the range line splits back into its two stripped ends |
| IpParser.EndpointsV4 | net_scanner/ip_parser.py:95-121 | the range expansion of two IPv4 ends: empty, the two ends, or the whole interval, by the same cases |
| IpParser.RangeLineV4 | net_scanner/ip_parser.py:88-130 | a whole line `a-b` yields nothing when a > b, `{a, b}` when more than 1000 addresses, and every address from a to b otherwise |
| IpParser.PartsUnion | net_scanner/ip_parser.py:133-140 | an address comes from a comma list exactly when it comes from one of its parts |
| IpParser.PartsWitness | net_scanner/ip_parser.py:133-140 | an address of a comma list names the part it comes from |
| IpParser.PartsFrom | net_scanner/ip_parser.py:133-140 | an address of any part is an address of the comma list |
| IpParser.FilterLocal | net_scanner/ip_parser.py:258-302 | the kept addresses are exactly those of the input that match none of the local patterns |
| IpParser.FilterSubset | net_scanner/ip_parser.py:283-293 | filtering never adds an address |
| IpParser.LocalText | net_scanner/ip_parser.py:268-278 | matching one of the local regular expressions is the same as starting with one of the local prefixes or being `::1` |
| IpParser.Match172 | net_scanner/ip_parser.py:272 | the 172 pattern matches exactly the texts `172.` followed by a second octet from 16 to 31 and a dot |
| IpParser.Match172Alt | net_scanner/ip_parser.py:272 | each of the three alternatives of that pattern matches exactly its own second-octet band |
| IpParser.MatchSecond | net_scanner/ip_parser.py:272 | one alternative matches exactly `172.`, the fixed digit, a digit in its band and a dot |
| IpParser.SecondClasses | net_scanner/ip_parser.py:272 | the seven character classes of an alternative hold the seven leading characters exactly when they spell that prefix |
| IpParser.MatchLoopback | net_scanner/ip_parser.py:274 | the loopback pattern, anchored by `$`, matches only `::1` and `::1` followed by one newline |
| IpParser.LocalIPv4 | net_scanner/ip_parser.py:268-278 | a dotted IPv4 address is filtered exactly when it lies in 127/8, 10/8, 172.16/12, 169.254/16 or 192.168/16 |
| IpParser.LocalPrefixIPv4 | net_scanner/ip_parser.py:268-278 | the same statement for the prefix form |
| IpParser.FirstOctetPrefix | net_scanner/ip_parser.py:269-271 | a formatted address starts with `k.` exactly when its first octet is k |
| IpParser.TwoOctetPrefix | net_scanner/ip_parser.py:270-273 | a formatted address starts with `k0.k1.` exactly when its first two octets are k0 and k1 |
| IpParser.Block172 | net_scanner/ip_parser.py:272 | a formatted address matches the 172 prefix exactly when its first octet is 172 and its second lies in 16..31 |
| IpParser.IPv4NotV6Local | net_scanner/ip_parser.py:274-277 | no dotted IPv4 address matches the IPv6 link-local, unique-local or loopback patterns |
| IpParser.OctetWord | net_scanner/ip_parser.py:269-273 | two octet values have the same decimal text exactly when they are equal |
| IpParser.Second172Octet | net_scanner/ip_parser.py:272 | the text of an octet followed by a dot passes the second-octet test exactly when the octet is in 16..31 |
| IpParser.KeyOf | net_scanner/ip_parser.py:332-339 | the sort key puts exactly the valid addresses in the first two groups and exactly the IPv4 addresses in the first, keyed by their numeric value |
| IpParser.KeyLeTrans | net_scanner/ip_parser.py:332-339 | the key order is transitive |
| IpParser.SortIps | net_scanner/ip_parser.py:322-341 | sorting returns a permutation of its input |
| IpParser.InsertSorted | net_scanner/ip_parser.py:341 | inserting into a key-sorted list keeps it key-sorted |
| IpParser.SortIpsSorted | net_scanner/ip_parser.py:322-341 | the sorted list is ordered by key |
| IpParser.SortIpsGroups | net_scanner/ip_parser.py:332-339 | in the result IPv4 addresses come first in numeric order, and valid addresses come before invalid ones |
| IpParser.FileStep | net_scanner/ip_parser.py:190-198 | one more line adds its addresses to the file's set and counts it when it yielded any |
| IpParser.ParseFile | net_scanner/ip_parser.py:174-219 | reading succeeds exactly when the file was read without failure, and then returns the union of the lines' addresses, the number of lines that yielded one and the number of lines |
| IpParser.CheckLine | net_scanner/ip_parser.py:365-381 | a line reported as found carries a positive count |
| IpParser.CheckOne | net_scanner/ip_parser.py:365-381 | the per-line check of the loop agrees with CheckLine |
| IpParser.CountsStep | net_scanner/ip_parser.py:365-381 | one more line adds one to the found lines and its count to the address count when found, or its one-based number to the error lines when unparsed |
| IpParser.ValidateFile | net_scanner/ip_parser.py:344-396 | a missing file gives an invalid result with the not-found message; a read file gives its line total, found lines, error line numbers and address count, and is valid exactly when it was read without failure and holds an address |
| IpParser.CheckLines | net_scanner/ip_parser.py:365-381 | the loop over the lines computes the line total, found lines, error lines and address count of the specification |
| IpParser.StripLine | net_scanner/ip_parser.py:26 | stripping a line first does not change its addresses |
| IpParser.CheckLineAddresses | net_scanner/ip_parser.py:365-381 | a line counts as found exactly when it yields an address, and its count is the number of those addresses |
| IpParser.ValidateCounts | net_scanner/ip_parser.py:365-381 | skipped, found and error lines together number exactly the lines of the file |
| IpParser.ErrorLinesOrdered | net_scanner/ip_parser.py:365-381 | the error line numbers are one-based line numbers of the file in strictly increasing order |
| IpParser.ErrorLinesExact | net_scanner/ip_parser.py:365-381 | line k is reported as an error exactly when it is neither blank, nor a comment, nor yields an address |
| IpParser.ParseValidateAgree | net_scanner/ip_parser.py:174-396 | parsing and validating count the same lines; the file has no address exactly when the validated count is zero; the distinct addresses never exceed that count |
| PortScanner.ShapeOf | network_discovery/discovery/port_scanner.py:177-202 | how the text is read: a block only for text with `/`, a range only for text without `/`, a single address only for itself without `/` or `-` |
| PortScanner.Run | network_discovery/discovery/port_scanner.py:190-193 | `count` consecutive addresses from `lo`, the i-th being lo + i |
| PortScanner.RunStep | network_discovery/discovery/port_scanner.py:190-193 | one more step of the range loop appends the next address |
| PortScanner.HostsFit | network_discovery/discovery/port_scanner.py:181-182 | the hosts of a valid network fit in its family's address space |
| PortScanner.HostTexts | network_discovery/discovery/port_scanner.py:181-182 | one text per host of the network |
| PortScanner.ParseIpRange | network_discovery/discovery/port_scanner.py:173-204 | the result as written: the network's hosts, every address of a range inclusive, the single address, [] for text that raises ValueError, including a range that ends at its family's last address, and a failure for ends of different versions |
| PortScanner.ParseIpRangeIntended | network_discovery/discovery/port_scanner.py:173-204 | the corrected result: as written, except that a range ending at its family's last address gives every address up to it |
| PortScanner.ExpandRange | network_discovery/discovery/port_scanner.py:179-198 | the loops give the intended expansion of the shape read |
| PortScanner.AppendTargets | network_discovery/discovery/port_scanner.py:179-198 | the shape's addresses are appended after what was there; the overflow flag is raised exactly when a range steps past its family's last address |
| PortScanner.AppendHosts | network_discovery/discovery/port_scanner.py:181-182 | every host text appended in order |
| PortScanner.AppendSpan | network_discovery/discovery/port_scanner.py:190-193 | every address from start to end appended in order, nothing when start > end; overflow exactly when end is the last address |
| PortScanner.ExpandAgree | network_discovery/discovery/port_scanner.py:190-202 | the code as written and the corrected expansion differ exactly on a non-empty range ending at the last address of its family |
| PortScanner.BlockTargets | network_discovery/discovery/port_scanner.py:179-182 | a CIDR block gives each host, in ascending order, as text that parses back to that host |
| PortScanner.SpanTargets | network_discovery/discovery/port_scanner.py:185-193 | a range gives hi - lo + 1 addresses, the i-th parsing back to lo + i, with no cap on the count, and nothing when start > end |
| PortScanner.SingleTarget | network_discovery/discovery/port_scanner.py:196-202 | text without `/` or `-` is kept verbatim when it is an address and gives [] otherwise |
| PortScanner.ManyDashes | network_discovery/discovery/port_scanner.py:186 | text with two or more dashes cannot be unpacked into two ends and gives [] |
| PortScanner.DottedSpan | network_discovery/discovery/port_scanner.py:185-188 | `a-b` of two IPv4 texts is read as the range between their values |
| PortScanner.LastAddressLost | network_discovery/discovery/port_scanner.py:190-202 | as written, a range up to 255.255.255.255 returns [] while the intended list holds one entry per address |
| PortScanner.OpenPorts | network_discovery/discovery/port_scanner.py:21-43 | exactly the requested ports whose probe reports connect_ex 0, each no more often than requested; empty exactly when none is open |
| PortScanner.ScanPorts | network_discovery/discovery/port_scanner.py:45-79 | the loop returns the open ports |
| PortScanner.ScanCommonPorts | network_discovery/discovery/port_scanner.py:81-115 | exactly the open ports among the 21 common ports |
| PortScanner.QuickScan | network_discovery/discovery/port_scanner.py:117-131 | true exactly when one of 22, 23, 80, 443, 2222 is open |
| PortScanner.ScanIpRange | network_discovery/discovery/port_scanner.py:133-171 | fails exactly when the range raises TypeError; otherwise an entry for exactly the targets the range parses to as written that have an open port, holding that target's open ports |
| PortScanner.ScanTargets | network_discovery/discovery/port_scanner.py:154-169 | an entry for exactly the targets with an open port, holding its open ports |
| Loader.GatherRaised | network_discovery/inventory/loader.py:31-69 | the reading of the file stops early exactly when some line raises an exception that is not a ValueError |
| Loader.GatherMembers | network_discovery/inventory/loader.py:33-61 | an address is gathered exactly when it comes from a line that, like every line before it, was read without an exception |
| Loader.LoadIpList | network_discovery/inventory/loader.py:19-75 | the result has no duplicates and holds exactly the addresses gathered from the file; a missing file gives [] |
| Loader.AddLine | network_discovery/inventory/loader.py:34-64 | one line raises exactly when its range ends differ in version; otherwise its addresses are appended, a range up to the last address included |
| Loader.GatherStep | network_discovery/inventory/loader.py:33-64 | one more line extends the gathered list by its addresses, marks the loop as ended when it raises, and changes nothing after an earlier exception |
| Loader.GatherStops | network_discovery/inventory/loader.py:66-69 | once a line has raised, the later lines add nothing |
| Loader.Dedup | network_discovery/inventory/loader.py:72 | `list(set(ips))`: no duplicates and the same addresses |
| Loader.Collect | network_discovery/inventory/loader.py:146-193 | the parse fails exactly when some entry raises; otherwise the credentials are exactly those built, one per entry that made one |
| Loader.CollectStep | network_discovery/inventory/loader.py:152-191 | one more entry appends its credentials, raises its error, or is skipped |
| Loader.CollectStops | network_discovery/inventory/loader.py:152-191 | an entry that raises makes the whole parse fail |
| Loader.PortOf | network_discovery/inventory/loader.py:158-159 | an integer port is taken as it is, a bool as 0 or 1, a whole float as its integer; text, null, lists and objects are not numbers |
| Loader.Build | network_discovery/inventory/loader.py:154-161 | building succeeds exactly when the username is non-empty text and both ports are integers in 1..65535, and then gives valid credentials |
| Loader.ColonCredentials | network_discovery/inventory/loader.py:182-191 | a string entry makes credentials exactly when it holds `:`, and those are valid when made |
| Loader.EntryCredentials | network_discovery/inventory/loader.py:152-166 | a mapping entry keeps its key as the username and gives valid credentials |
| Loader.ItemCredentials | network_discovery/inventory/loader.py:171-191 | a list item that is neither a mapping nor a string is skipped; credentials made are valid |
| Loader.LineCredentials | network_discovery/inventory/loader.py:200-215 | a text line gives credentials only when its stripped form holds `:`, and they are valid |
| Loader.EntryOutcomes | network_discovery/inventory/loader.py:152-167 | one outcome per mapping entry, in order |
| Loader.ItemOutcomes | network_discovery/inventory/loader.py:171-191 | one outcome per list item, in order |
| Loader.LineOutcomes | network_discovery/inventory/loader.py:200-215 | one outcome per text line, in order |
| Loader.ParseCredentials | network_discovery/inventory/loader.py:146-193 | the loops compute the structured parse: a mapping's entries, a list's items, nothing for other data |
| Loader.ParseTextCredentials | network_discovery/inventory/loader.py:196-217 | the loop computes the line-by-line parse |
| Loader.CollectAll | network_discovery/inventory/loader.py:152-191 | the loop computes Collect |
| Loader.CollectFailure | network_discovery/inventory/loader.py:152-191 | the first entry that raises decides the error of the whole parse |
| Loader.CollectFailed | network_discovery/inventory/loader.py:152-191 | a parse that failed on a prefix fails the same way on the whole |
| Loader.Values | network_discovery/inventory/loader.py:152-191 | the credentials of entries that all built, one per entry in order |
| Loader.CollectEvery | network_discovery/inventory/loader.py:152-191 | when every entry builds, the parse gives exactly their credentials in order |
| Loader.CollectValid | network_discovery/inventory/loader.py:146-193 | every parsed credential is valid |
| Loader.DictForm | network_discovery/inventory/loader.py:150-167 | a mapping of valid entries gives one credential per entry, in order, named by its key |
| Loader.ScalarEntry | network_discovery/inventory/loader.py:162-166 | `{username: value}` with a scalar value gives that user with `str(value)` as password and the default ports |
| Loader.MappingEntryPorts | network_discovery/inventory/loader.py:153-161 | a mapping entry without port keys gets SSH port 22 and Telnet port 23 |
| Loader.MappingEntry | network_discovery/inventory/loader.py:152-161 | a mapping entry builds exactly when its key is non-empty and both ports are numbers in 1..65535; then the key is the username, password and description are the given values ("" when absent), the enable password is None exactly when absent or null and otherwise the given value, the ports are the given ones (22 and 23 when absent) and both timeouts are 10 |
| Loader.ListItem | network_discovery/inventory/loader.py:171-180 | a mapping item always yields an outcome; it builds exactly when "username" is present, truthy and non-empty text and both ports are accepted; then the username is the given value and every other field is taken as in MappingEntry |
| Loader.TextField | network_discovery/inventory/loader.py:154-161 | an absent key reads as "", a text value is kept as it is |
| Loader.PortField | network_discovery/inventory/loader.py:173-180 | an absent port key reads as its default, an integer value as itself |
| Loader.ColonFields | network_discovery/inventory/loader.py:184-190 | fields joined by `:` give the stripped first two as user and password and the third, when present, as enable password |
| Loader.ColonText | network_discovery/inventory/loader.py:206-215 | the `user:pass[:enable]` text of a login holds `:` |
| Loader.ColonParts | network_discovery/inventory/loader.py:208-214 | two fields, or three with an enable password |
| Loader.ColonRoundTrip | network_discovery/inventory/loader.py:182-191 | writing a login as `user:pass[:enable]` and parsing it back gives the same login |
| Loader.Document | network_discovery/inventory/loader.py:108-121 | the YAML reading when it gives a value, else the JSON reading; no document exactly when neither gives one |
| Loader.Parsed | network_discovery/inventory/loader.py:124-128 | every credential parsed from the content is valid |
| Loader.StructuredValid | network_discovery/inventory/loader.py:146-193 | every credential of a structured document is valid |
| Loader.LoadedCredentials | network_discovery/inventory/loader.py:78-143 | never empty and always valid: the parsed list when the file was read and parsed to a non-empty list, the nine defaults otherwise |
| Loader.LoadCredentials | network_discovery/inventory/loader.py:78-143 | the method returns LoadedCredentials |
| Scanner.ParseDecimal | net_scanner/scanner.py:123 | `float` of a captured number: never negative, a digit string reads as its value, and only digits and points are ever read |
| Scanner.LatencyNone | net_scanner/scanner.py:110-127 | no latency exactly when no pattern's last match reads as a number |
| Scanner.LatencyFromFirst | net_scanner/scanner.py:118-125 | a latency found is the last match of the first pattern, in list order, whose last match reads, every earlier pattern giving none |
| Scanner.LatencySkipsUnmatched | net_scanner/scanner.py:119-120 | a pattern without a match leaves the search to the patterns after it |
| Scanner.PingFrom | net_scanner/scanner.py:139-181 | a latency comes only with a successful ping |
| Scanner.NoAttemptLeft | net_scanner/scanner.py:139-181 | with no attempt left (max_retries at most 0) the result is ERROR with no latency |
| Scanner.SuccessIffZeroExit | net_scanner/scanner.py:139-181 | SUCCESS exactly when some remaining attempt exits with code 0 |
| Scanner.PingSkips | net_scanner/scanner.py:158-179 | a failed attempt that is not the last moves on to the next |
| Scanner.FirstZeroExit | net_scanner/scanner.py:155-157 | the first attempt to exit with code 0 decides: SUCCESS with the latency read from its output |
| Scanner.FinalAttemptDecides | net_scanner/scanner.py:158-179 | when no attempt succeeds, the last one decides: a non-zero exit gives UNREACHABLE, a timeout TIMEOUT, an exception ERROR |
| Scanner.Backoff | net_scanner/scanner.py:159-160 | at most one pause per attempt that failed with a non-zero exit |
| Scanner.ExecutePing | net_scanner/scanner.py:129-181 | the loop's result and latency are PingFrom's; at most max_retries attempts; every attempt but the last failed; a success ends on a zero exit; the pauses are 0.1 * (attempt + 1) after each non-zero exit |
| Scanner.Kept | net_scanner/scanner.py:196-200 | at most one latency per sample |
| Scanner.SumBounds | net_scanner/scanner.py:212 | a sum of values between lo and hi lies between n * lo and n * hi |
| Scanner.MeasureLatency | net_scanner/scanner.py:183-218 | None exactly when no successful ping gave a latency; otherwise the mean of those latencies rounded to two places |
| Scanner.QuotientBounds | net_scanner/scanner.py:212 | a quotient of a bounded sum by its count stays within the bounds |
| Scanner.AverageInRange | net_scanner/scanner.py:212-215 | the rounded mean lies within half a hundredth of the smallest and largest latency |
| Scanner.Phase1Result | net_scanner/scanner.py:285-295 | the record for a host keeps its address; alive exactly when its ping succeeded; a latency only when alive, the ping's latency; an error text exactly when the check raised |
| Scanner.AliveOf | net_scanner/scanner.py:296-297 | at most one alive host per input address |
| Scanner.AliveOfMembers | net_scanner/scanner.py:285-297 | an address is among the alive hosts exactly when it was scanned and its ping succeeded |
| Scanner.Answered | net_scanner/scanner.py:299-301 | the progress counts at most one step per host |
| Scanner.Phase1RecordsEach | net_scanner/scanner.py:285-295 | phase 1 stores each host's record in turn |
| Scanner.PhaseOneStep | net_scanner/scanner.py:285-301 | one more host stores its record, adds it to the alive hosts when alive, and counts it when it answered |
| Scanner.Apply | net_scanner/scanner.py:329-334 | a measurement keeps the address and the liveness and replaces the latency only with a measured value |
| Scanner.MeasuredGet | net_scanner/scanner.py:310-334 | phase 2 keeps the keys unique, stores under each measured host what its measurement says, and touches no other host |
| Scanner.IpsWhere | net_scanner/scanner.py:338-339 | exactly the addresses whose record has the given liveness |
| Scanner.LatencyMap | net_scanner/scanner.py:361-365 | only requested addresses get a latency entry |
| Scanner.LatencyMapGet | net_scanner/scanner.py:361-365 | each listed host whose latency is not None, zero included, maps to that latency; no other key is present, and keys are unique |
| Scanner.AverageInputsMembers | net_scanner/scanner.py:341-346 | a value is averaged exactly when it is the truthy latency of one of the listed hosts |
| Scanner.SummaryOf | net_scanner/scanner.py:336-366 | alive and dead lists together cover exactly the recorded hosts, the alive list exactly the alive ones; the latencies map each alive host whose latency is not None to that latency and hold no other key; the average is round(mean, 2) of the truthy latencies of alive hosts, 0 when there are none; the counts are the summary's; the percentages are AlivePercent and DeadPercent of the summary; the duration is round(scan_duration, 2) |
| Scanner.ProgressTracker.constructor | net_scanner/scanner.py:20-26 | a tracker starts at 0 of `total` |
| Scanner.ProgressTracker.Update | net_scanner/scanner.py:28-30 | the completed count grows by exactly `count` |
| Scanner.ProgressTracker.Percent | net_scanner/scanner.py:40 | 0 for a non-positive total, completed / total * 100 otherwise |
| Scanner.PingScanner.constructor | net_scanner/scanner.py:73-78 | no results, a zero summary and no progress tracker |
| Scanner.PingScanner.CheckAvailability | net_scanner/scanner.py:271-303 | each host's record is stored in input order; the alive hosts are exactly those whose ping succeeded, in order; the progress grows by the number of hosts that answered |
| Scanner.PingScanner.RecordHost | net_scanner/scanner.py:285-301 | one host's record is stored, and the tracker advances only when the check did not raise |
| Scanner.PingScanner.MeasureLatencies | net_scanner/scanner.py:310-334 | the records become those phase 2 specifies |
| Scanner.PingScanner.ScanHosts | net_scanner/scanner.py:220-269 | the records are phase 1 then phase 2 over the input; total, alive and dead counts match; the scan duration is the measured elapsed time; a fresh tracker over |ips| hosts counts the hosts that answered |
| Scanner.PingScanner.GetSummary | net_scanner/scanner.py:336-366 | the report is SummaryOf of the records and the summary: alive and dead lists cover exactly the recorded hosts; the latencies are the alive hosts' non-None latencies; the average is round(mean, 2) of the truthy latencies of alive hosts, 0 when there are none; the counts, the two percentages and the rounded duration come from the summary |
| Scanner.ScanLiveness | net_scanner/scanner.py:220-334 | after a scan every input address has a record, alive exactly when its ping succeeded, and a dead host's record is its phase-1 record |
| ScanConfig.PositiveCheck | net_scanner/config.py:67-78 | a check passes exactly when the value is a positive number; a non-positive number gives the field's message, anything else the TypeError of the comparison |
| ScanConfig.LevelCheck | net_scanner/config.py:80-83 | the level check passes exactly when the upper-cased level is one of DEBUG, INFO, WARNING, ERROR, CRITICAL |
| ScanConfig.FirstError | net_scanner/config.py:65-83 | no error exactly when every check passes; otherwise the error of the first check that fails |
| ScanConfig.Checks | net_scanner/config.py:65-83 | seven checks, one per validated field |
| ScanConfig.Validate | net_scanner/config.py:61-83 | a configuration is accepted exactly when timeout, ping_count, ping_duration, concurrent_limit, max_retries and ping_interval are positive and the log level is valid, and is then kept unchanged |
| ScanConfig.TimeoutFirst | net_scanner/config.py:67-68 | a non-positive numeric timeout is the error reported, whatever else is wrong |
| ScanConfig.LevelIgnoresCase | net_scanner/config.py:82 | the level check ignores case: "info" is accepted, "TRACE" is not |
| ScanConfig.FormatOf | net_scanner/config.py:93-97 | "json" and "csv" in any case give those formats, and every other string gives TEXT |
| ScanConfig.Arg | net_scanner/config.py:99 | a keyword given in the data sets its field, and a missing one leaves the default |
| ScanConfig.FormatArg | net_scanner/config.py:93-97 | a missing report_format gives TEXT, and a string is converted through FormatOf |
| ScanConfig.FromDict | net_scanner/config.py:89-99 | a key that is not a field makes construction fail; success gives the configuration built from the data, with positive timeout and retries and a valid level |
| ScanConfig.UpdateGet | net_scanner/config.py:150 | `dict.update` keeps keys unique, and a key reads the update's value when the update has it and the old value otherwise |
| ScanConfig.MergedOverrides | net_scanner/config.py:142-150 | keys set in the user file take its values, and every other key keeps its default |
| ScanConfig.PairKey | net_scanner/config.py:150 | a list or object cannot be a key; text is its own key; any other key names no field |
| ScanConfig.GoodPairs | net_scanner/config.py:150 | the pairs of the elements before the first one that is not a pair, each that element's pair |
| ScanConfig.UpdateCons | net_scanner/config.py:150 | storing one pair and then updating with the rest is updating with the pair followed by the rest |
| ScanConfig.UpdatePairsPrefix | net_scanner/config.py:150 | updating with a list stores its pairs up to the first element that raises, and nothing after it |
| ScanConfig.MergedCases | net_scanner/config.py:142-154 | the defaults are updated by a user object, by a user list up to its first non-pair, and left alone by anything else |
| ScanConfig.Load | net_scanner/config.py:131-160 | with no usable user file, or one that is neither an object nor a list, the configuration is built from the defaults; an object updates them; a list updates them with its pairs up to the first element that is not one |
| ScanConfig.NewResult | net_scanner/config.py:192-201 | a new result keeps address and liveness, with no latency, no samples, zero counts and no error |
| ScanConfig.AlivePercent | net_scanner/config.py:214-219 | 0 for no hosts, alive / total * 100 otherwise |
| ScanConfig.DeadPercent | net_scanner/config.py:221-226 | 0 for no hosts, dead / total * 100 otherwise |
| ScanConfig.PercentsComplement | net_scanner/config.py:214-226 | when the dead hosts are the rest, both percentages lie in 0..100 and add up to 100 |
| Telnet.ShowsPromptAppend | network_discovery/connectors/telnet_client.py:141-145 | text shows a prompt marker exactly when one of its two pieces does, so reading more output never hides a prompt |
| Telnet.ConnectError | network_discovery/connectors/telnet_client.py:24-87 | no error exactly when the port opened, username and password encode as ASCII and the output after login shows `#`, `>`, `$` or `%`; a username or password that does not encode gives the codec's error |
| Telnet.LoginLines | network_discovery/connectors/telnet_client.py:45-58 | the lines written at login are a prefix of the username and the password lines: both when both encode as ASCII, none when the username does not |
| Telnet.FirstNonAscii | network_discovery/connectors/telnet_client.py:45 | the first character the ASCII codec rejects |
| Telnet.RunEnd | network_discovery/connectors/telnet_client.py:45 | the end of the run of rejected characters the codec's error names |
| Telnet.EchoFree | network_discovery/connectors/telnet_client.py:148-152 | the cleaning keeps at most the lines it was given |
| Telnet.EchoFreeMembers | network_discovery/connectors/telnet_client.py:150-152 | a line is kept exactly when it is a line of the output, does not contain the command, and is not blank |
| Telnet.EchoFreeAppend | network_discovery/connectors/telnet_client.py:150-152 | cleaning two pieces of output one after the other is the same as cleaning them joined |
| Telnet.EmptyCommandKeepsNothing | network_discovery/connectors/telnet_client.py:151 | the empty command occurs in every line, so it keeps no line |
| Telnet.TelnetClient.constructor | network_discovery/connectors/telnet_client.py:19-22 | a new client has no connection and has sent nothing |
| Telnet.TelnetClient.Connect | network_discovery/connectors/telnet_client.py:24-87 | success exactly when the port opened, both username and password encode as ASCII and a prompt followed the login; the error is ConnectError's; once the port opened the client is connected and has sent the username and the password, each ending in a newline, up to the first that does not encode |
| Telnet.TelnetClient.SendCommand | network_discovery/connectors/telnet_client.py:114-160 | without a connection it fails with "no active connection" and sends nothing; a command that does not encode as ASCII fails with the codec's error and sends nothing; otherwise it sends the command and a newline, and on a reply returns its lines without echo or blank lines, joined by newlines |
| Telnet.TelnetClient.Disconnect | network_discovery/connectors/telnet_client.py:162-173 | the client ends disconnected, having sent `exit` when it was connected |
| Telnet.TelnetConnectionManager.constructor | network_discovery/connectors/telnet_client.py:187-189 | a manager starts with no connections |
| Telnet.TelnetConnectionManager.GetConnection | network_discovery/connectors/telnet_client.py:191-207 | a cached `host:port:user` key returns its client and changes nothing; otherwise a fresh connected client is stored under the key exactly when connecting succeeded, which needs ASCII credentials, and nothing is stored on failure |
| Telnet.TelnetConnectionManager.CloseAll | network_discovery/connectors/telnet_client.py:209-217 | every stored client ends disconnected, each one connected before the call was sent "exit", and the table is empty |
| Ssh.ConnectError | network_discovery/connectors/ssh_client.py:22-78 | no error exactly when the server accepted the login |
| Ssh.SshClient.constructor | network_discovery/connectors/ssh_client.py:18-20 | a new client has no connection |
| Ssh.SshClient.Connect | network_discovery/connectors/ssh_client.py:22-78 | the client object is set up whatever happens; success exactly when the login was accepted; the error is ConnectError's |
| Ssh.SshClient.ExecuteCommand | network_discovery/connectors/ssh_client.py:80-107 | success exactly when connected and the command ran, returning its standard output; "no active connection" without a connection; the failure message when the command raised |
| Ssh.SshClient.Disconnect | network_discovery/connectors/ssh_client.py:109-117 | the client ends without a connection |
| Ssh.SshConnectionManager.constructor | network_discovery/connectors/ssh_client.py:131-133 | a manager starts with no connections |
| Ssh.SshConnectionManager.GetConnection | network_discovery/connectors/ssh_client.py:135-151 | a cached `host:port:user` key returns its client and changes nothing; otherwise a fresh connected client is stored under the key exactly when the login was accepted |
| Ssh.SshConnectionManager.CloseAll | network_discovery/connectors/ssh_client.py:153-161 | every stored client ends without a connection and the table is empty |
| Saver.CsvRowOf | network_discovery/inventory/saver.py:106-122 | each CSV column is the device's field, a missing text field written as "" |
| Saver.CsvRows | network_discovery/inventory/saver.py:84-129 | one row per device, in order, each that device's row |
| Saver.NetmikoEntry | network_discovery/inventory/saver.py:150-151 | the device's Netmiko configuration with `name` set to its hostname, or its address when the hostname is empty |
| Saver.Using | network_discovery/inventory/saver.py:157-160 | exactly the devices of the given protocol, as many as the protocol count says |
| Saver.Entries | network_discovery/inventory/saver.py:149-154 | one Netmiko entry per device, in order |
| Saver.EntriesStep | network_discovery/inventory/saver.py:149-154 | one more device appends its entry |
| Saver.UsingStep | network_discovery/inventory/saver.py:157-160 | one more device is appended to the protocol's list exactly when it uses that protocol |
| Saver.NetmikoInventoryOf | network_discovery/inventory/saver.py:132-171 | all_devices holds every device's entry, ssh_devices those of the SSH devices and telnet_devices those of the Telnet devices, each in order |
| Saver.NetmikoSplit | network_discovery/inventory/saver.py:157-160 | the SSH and Telnet lists together never hold more entries than all_devices |
| Saver.HostVarsOf | network_discovery/inventory/saver.py:196-207 | the host's address and protocol, and the SSH port for SSH devices, the Telnet port otherwise |
| Saver.VendorGroup | network_discovery/inventory/saver.py:211 | the vendor group name has the vendor's length and holds no `/` and no space |
| Saver.TypeGroup | network_discovery/inventory/saver.py:218 | the type group name has the type's length and holds no `_` |
| Saver.GroupsOf | network_discovery/inventory/saver.py:209-228 | a device joins at most three groups |
| Saver.AnsibleInventoryOf | network_discovery/inventory/saver.py:174-239 | the loop builds the inventory AnsibleOf describes |
| Saver.JoinAllSteps | network_discovery/inventory/saver.py:209-228 | a device joins its vendor group when it has a vendor, then its type group when it has a type, then its protocol group when it has a protocol |
| Saver.JoinAllAppend | network_discovery/inventory/saver.py:209-228 | joining two lists of groups is joining the first, then the second |
| Saver.AnsibleHostsLast | network_discovery/inventory/saver.py:193-207 | host names are unique, and each holds the variables of the last device listed under it |
| Saver.JoinMembers | network_discovery/inventory/saver.py:212-214 | joining one group adds the host to that group and changes no other membership |
| Saver.JoinAllMembers | network_discovery/inventory/saver.py:209-228 | after joining several groups a host is a member of a group exactly when it was before or the group is one of those joined |
| Saver.JoinedByStep | network_discovery/inventory/saver.py:192-228 | a group's members after one more device are those before plus that device when it joined the group |
| Saver.AnsibleGroups | network_discovery/inventory/saver.py:174-228 | group names are unique, and a group lists exactly the host names of the devices that joined it |
| Saver.ReportCountsOf | network_discovery/inventory/saver.py:261-274 | the vendor and type tallies are those of the discovery statistics, and the SSH and Telnet counts are the protocol counts |
| Saver.ReportSums | network_discovery/inventory/saver.py:261-274 | each tally sums to the number of devices, and SSH plus Telnet never exceed it |
| Helpers.ValidatePort | network_discovery/utils/helpers.py:32-42 | a port is valid exactly when it lies in 1..65535, the same range the credential check enforces |
| Helpers.CalculateProgress | network_discovery/utils/helpers.py:62-88 | all zeros for a zero total; otherwise current, total and total - current, with the percentage round(current / total * 100, 1), within 0.05 of the exact share |
| Helpers.ProgressInRange | network_discovery/utils/helpers.py:81-87 | for 0 <= current <= total the percentage lies in 0..100, is exactly 100 when done, and nothing negative remains |
| Connectors.CacheKey | network_discovery/connectors/ssh_client.py:137 | the key starts with the host followed by `:` |
| Connectors.IntToStringInjective | network_discovery/connectors/ssh_client.py:137 | two ports with the same decimal text are equal |
| Connectors.CacheKeyInjective | network_discovery/connectors/telnet_client.py:193 | for hosts without `:`, equal keys mean the same host, port and username, so two sessions never share a cache entry |
| Address.ParseIPv4 | net_scanner/ip_parser.py:61 | a dotted IPv4 text reads as a value below 2^32 |
| Address.ParseOctet | net_scanner/ip_parser.py:61 | an octet reads as a value below 256 |
| Address.Octets | net_scanner/ip_parser.py:80-81 | the four octets of an address, each below 256, that make up its value |
| Address.ParseFormatIPv4 | net_scanner/ip_parser.py:80-81 | `str()` of an address reads back as the same address |
| Address.FormatParseIPv4 | net_scanner/ip_parser.py:59-65 | an accepted dotted text is exactly the text of its value: no leading zeros or other spellings get through |
| Address.FormatIPv4Injective | net_scanner/ip_parser.py:80-81 | two different addresses never share a text |
| Address.IPv4TextChars | net_scanner/ip_parser.py:61 | an accepted dotted text holds only digits and dots |
| Address.ParseIPv6 | net_scanner/ip_parser.py:61 | an IPv6 text reads as a value below 2^128, holds `:` and no `/` |
| Address.ParseAddr | net_scanner/ip_parser.py:316 | a parsed address is valid for its family; a dotted IPv4 text reads as that IPv4 address; an IPv6 address comes only from text with `:` |
| Address.ParseShow | net_scanner/ip_parser.py:80-81 | the text of any valid address reads back as that address |
| Address.ShowInjective | net_scanner/ip_parser.py:80-81 | two addresses with the same text are the same |
| Address.PrefixOfMask | net_scanner/ip_parser.py:143-168 | a dotted mask yields the prefix length whose mask it is |
| Address.ParseMask | net_scanner/ip_parser.py:70 | a mask never exceeds the family's width |
| Address.MaskOff | net_scanner/ip_parser.py:70 | `strict=False`: the host bits are cleared, giving an aligned, valid network at or below the address |
| Address.ParseNetworkOf | net_scanner/ip_parser.py:70 | a parsed network is valid and of the requested family |
| Address.ParseNetwork | net_scanner/ip_parser.py:70 | a parsed network is valid |
| Address.BroadcastInRange | net_scanner/ip_parser.py:70-81 | a valid network's last address lies within its family |
| Address.Hosts | net_scanner/ip_parser.py:80 | consecutive addresses from the lowest host to the highest host |
| Address.HostsV4 | net_scanner/ip_parser.py:80 | IPv4 hosts leave out the network and broadcast addresses up to /30; a /31 gives both its addresses and a /32 its only one |
| Address.HostsV6 | net_scanner/ip_parser.py:80 | IPv6 hosts leave out only the subnet-router address, so the last address is a host |
| Counter.Bump | network_discovery/discovery/engine.py:204 | `d[k] = d.get(k, 0) + 1` either updates an entry in place or appends `(k, 1)` |
| Counter.TallyStep | network_discovery/discovery/engine.py:201-208 | one more key bumps its count |
| Counter.TotalUpdate | network_discovery/discovery/engine.py:204 | changing one entry changes the total by the difference |
| Counter.TotalAppend | network_discovery/discovery/engine.py:204 | appending an entry adds its count to the total |
| Counter.BumpTotal | network_discovery/discovery/engine.py:204 | each bump adds exactly one to the total |
| Counter.BumpCount | network_discovery/discovery/engine.py:204 | a bump adds one to its own key's count and leaves every other key's count alone |
| Counter.TallyTotal | network_discovery/discovery/engine.py:201-208 | the counts add up to the number of keys tallied |
| Counter.TallyUnique | network_discovery/discovery/engine.py:201-208 | the counter never holds a key twice |
| Counter.TallyCount | network_discovery/discovery/engine.py:201-208 | each key's count is its number of occurrences |
| Counter.TallyKeys | network_discovery/discovery/engine.py:201-208 | exactly the keys seen get an entry |
| Decimal.Nearest | network_discovery/utils/helpers.py:86 | the integer nearest to a value, within one half |
| Decimal.NearestMonotone | network_discovery/utils/helpers.py:86 | rounding never reverses the order of two values |
| Decimal.NearestTie | network_discovery/utils/helpers.py:86 | Python's `round` sends a half to the even neighbour |
| Decimal.Round1 | network_discovery/utils/helpers.py:86 | `round(x, 1)` is within 0.05 of x |
| Decimal.Round2 | net_scanner/scanner.py:215 | `round(x, 2)` is within 0.005 of x |
| Decimal.RoundMonotone | net_scanner/scanner.py:215 | rounding to one or two places keeps order |
| Decimal.RoundExact | net_scanner/scanner.py:215 | a value that already has one (or two) decimal places is unchanged |

## Left out

- Network I/O is not modelled. The socket connect of a port probe, paramiko, telnetlib reads, writes and sleeps, and Netmiko's ConnectHandler and send_command are abstract. Their outcomes, replies and exceptions arrive as parameters, for example `Engine.Attempt`, `Telnet.Reach`, `Ssh.Outcome` and `BackupTool.DeviceRun`.
- Concurrency is modelled as sequential loops in request order:
  - the ThreadPoolExecutor fan-out of discovery, of the port scans and of `backup_devices_parallel`;
  - asyncio's semaphore and gather in the ping scanner;
  - the locks of the connection managers.

  Each host is independent and results are keyed by IP, so the final maps are those of the sequential loop, but interleavings are not modelled. The parallel backup mode itself is not modelled separately from the sequential one.
- The subprocess ping is an input outcome per attempt. Building its command line and detecting the platform are not modelled, because they depend on the operating system.
- Wall-clock time is not modelled. The current time and each file's change time are parameters. ProgressTracker's speed and ETA display, the discovery ETA, the timed sampling loop of phase 2 (replaced by its list of samples), sleeps and backoff delays are left out.
- Floating point is modelled as exact reals. Python's round(x, 1) and round(x, 2) are modelled on exact values, with a tie going to the even neighbour. Binary floating-point representation error is not modelled. Infinities and NaN, which Python's JSON and YAML readers can produce, are not modelled either: `Json.JFloat` holds a finite real, so a NaN timeout (which passes `timeout <= 0`) or an infinite limit (on which int() raises OverflowError) cannot be expressed.
- Python's regular-expression engine is not modelled in full. The fixed patterns that matter are run by the matcher of module Rx. Other patterns, both the classifier's tables and user-supplied patterns, go through the abstract search of module RegexOracle, and the validator's re.compile through a `Compiler` parameter. IGNORECASE folding is modelled for ASCII and basic Cyrillic only.
- Python's `ipaddress` module is modelled for IPv4 only. IPv6 text syntax is the `V6Syntax` parameter: its parser and printer are not spelled out, while IPv6 arithmetic on naturals below 2^128 is modelled.
- difflib.unified_diff is the abstract `Comparison.Differ`. The YAML, JSON and CSV parsers and writers are parameters or leave the model.
- `mask.isdigit()` in the ping scanner's CIDR branch is modelled on ASCII digits. Other Unicode decimal digits are not modelled.
- File-system side effects are not modelled. A backup directory is a list of (name, change time and text) entries; mkdir, glob, unlink and stat are not modelled. Also out:
  - writing reports and inventories;
  - save_summary_report;
  - creating sample devices and example files;
  - save_devices;
  - validate_directory_structure;
  - saving a default configuration;
  - the search for a configuration file;
  - the existence check of an SSH key file before connecting.
- The detector cache is keyed by the first 500 characters of the output rather than their hash(). Hash collisions are not modelled.
- Exception messages (`str(e)`) are opaque strings, not Python's exact text. The one exception is the ASCII codec's error in the Telnet client, which is spelled out.
- The command-line front ends, interactive prompts, banners, colours, logging and get_system_info are left out. They decide nothing the modelled code depends on. This also covers network_discovery/main.py, net_scanner/main.py, net_scanner/utils.py, network_discovery/config/logger.py and config_manager/src/01_connect_single.py.
- The ping scanner's report writer, net_scanner/reporter.py, is not part of this model. It formats text and timestamps, and its address sort key duplicates the modelled `IpParser.SortIps`.
- ScanConfig.Validate: the built-in defaults of the ping scanner (ConfigLoader.DEFAULT_CONFIG) are not proved to pass it.
- IpParser.SortIps: states a sorted permutation. It does not state that sorted() is stable among strings with equal keys.
- Python's int() also accepts "_" between digits and non-ASCII decimal digits such as "٢٢". The model's `Json.ParseInt` reads ASCII digits only, so the validator reports a problem for such values where the program reports none:
- PortProblems: a port such as "2_2" or "٢٢" is reported as not a number.
- DevicePortReported: the same ASCII-only reading of the port.
- Limit: a limit such as "1_0" or "١٠" is reported as not a number.
- DefaultConfigLimits: the same ASCII-only reading of the limits.
- Python's str.lower and str.upper map the whole of Unicode (the Kelvin sign to "k", "ı" to "I", "É" to "é"). The model's `Text.Lower` and `Text.Upper` map ASCII letters only, so text outside ASCII compares, groups and classifies differently:
- Matching: the vendor or device type is compared after ASCII lowering only.
- DevicesByVendor: the same ASCII-only comparison of vendors.
- DevicesByType: the same ASCII-only comparison of device types.
- VendorGroup: "ÉLAN" gives the group "Élan" where Python gives "élan".
- TypeGroup: the same ASCII-only lowering of the device type.
- LevelCheck: "ınfo" is rejected, while Python upper-cases it to "INFO" and accepts it.
- LevelIgnoresCase: holds of the ASCII-only case mapping.
- Validate: inherits LevelCheck's ASCII-only upper-casing.
- FormatOf: the report format is lowered with ASCII letters only.
- DeviceType: the output is lowered with ASCII letters only before the subtype keys are looked for.
- VendorName: the output is lowered with ASCII letters only before the vendor patterns run.
- VendorIsFirstMatch: the same ASCII-only lowering.
- Python's `\d` and float() also accept non-ASCII decimal digits. The model's matcher and its readers take ASCII digits only:
- ParseDecimal: reads ASCII digits only.
- LatencyNone: a latency written in non-ASCII digits is not found.
- LatencyFromFirst: the same ASCII-only `\d`.
- DeviceGroup: the time stamp of a backup file name is matched with ASCII digits only.
- PortOf: a float port with a fractional part, such as 22.5, passes DeviceCredentials' range check in Python and is kept as a float. The model's ports are integers, so such an entry raises TypeError in the model. A whole float such as 2222.0 is kept as its integer.
- DeviceCredentials keeps the document value of username, password, enable_password and description as it is, so a YAML `password: 12345` stays the integer 12345. The model's credential fields are text, and these values pass through `Json.PyStr` (str()). In the program such a credential never logs in over Telnet, because `.encode('ascii')` of an integer raises AttributeError; in the model it logs in with the text "12345":
- Build: inherits PortOf's treatment of fractional float ports, and stores str() of a username, password, enable password or description that is not text.
- EntryCredentials: stores str() of a password, enable password or description that is not text.
- ItemCredentials: stores str() of a username, password, enable password or description that is not text.
- MappingEntry: states the fields as str() of the document values, which is what the program stores only for text values.
- ListItem: the same str() reading of the item's fields.
- LoadedCredentials: an entry with a fractional float port is lost, through PortOf, and non-text fields are stored as str(), through Build.
- LoadCredentials: the same, through LoadedCredentials.
- Load: a key of a user-file pair that is a number, a boolean or null is stored under one stand-in key. from_dict rejects every such key alike, so only the error text differs.
- pathlib's glob reads `[...]` in a pattern as a character class, and the file-name sanitiser keeps `[` and `]`. For a hostname such as "sw[1]", the glob "sw[1]_*.conf" matches "sw1_….conf" and not the files saved for "sw[1]". The model matches the host's prefix literally:
- BackupsOf: takes the glob's host part literally.
- LatestBackupNewest: inherits BackupsOf's literal match.
- FindLatestBackup: inherits BackupsOf's literal match.
- ResultOf: the backup path in a result is the file name alone. Python gives the directory joined with it, `str(backup_dir / filename)`.
- BackupDevice: the same bare file name as ResultOf.

## Findings

| source | as written | input that shows it | evidently intended | confidence | as-written member | corrected member |
|---|---|---|---|---|---|---|
| network_discovery/discovery/port_scanner.py:185-202 | The range loop computes `current + 1` after appending the end address. When the end is the last address of its family, this raises AddressValueError, a ValueError, which the handler turns into `[]`, discarding the whole list. | "10.0.0.1-255.255.255.255" | every address from start to end | not executed | PortScanner.LastAddressLost | PortScanner.ParseIpRangeIntended |
| network_backup_tool/main.py:86-105 | find_latest_backup runs after save_config has written the new backup, so the latest backup is the file just saved. The guard `old_backup != backup_path` then always skips the comparison, and no diff report is ever written. | any device with an earlier backup whose configuration has changed | compare with the newest backup that existed before the save | not executed | BackupTool.NoReportAfterSave | BackupTool.ReportBeforeSave |
