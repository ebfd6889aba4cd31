/**
 * Backup file storage (network_backup_tool/src/backup_manager.py): backup
 * file names, the newest backup of a device, and the per-device retention
 * policy.
 *
 * The backup directory is an insertion-ordered dict from file name to the
 * file's change time and text; the order stands for the order in which the
 * directory lists its entries.
 */
module Backups {
  import opened Wrappers
  import opened Text
  import Dict
  import opened BackupModels

  // ---------------------------------------------------------------------
  // File names

  /** The characters _sanitize_filename replaces: <>:"/\|?* and the controls 0x00-0x1F. */
  predicate Unsafe(c: char)
  {
    c in "<>:\"/\\|?*" || c as int < 0x20
  }

  /** re.sub(r'[<>:"/\\|?*\x00-\x1F]', '_', name) */
  function Replaced(name: string): (r: string)
    ensures |r| == |name|
    ensures forall c | c in r :: !Unsafe(c)
    ensures forall i | 0 <= i < |name| :: !Unsafe(name[i]) ==> r[i] == name[i]
  {
    var r := MapChars(name, c => if Unsafe(c) then '_' else c);
    assert forall c | c in r :: exists i | 0 <= i < |r| :: r[i] == c;
    r
  }

  /** _sanitize_filename: unsafe characters become '_', then ' ' and '.' are stripped at both ends, then the first 100 characters are kept. */
  function SanitizeFilename(name: string): (r: string)
    ensures |r| <= 100
    ensures forall i | 0 <= i < |r| :: !Unsafe(r[i])
    ensures |r| > 0 ==> r[0] != ' ' && r[0] != '.'
  {
    var stripped := StripChars(Replaced(name), {' ', '.'});
    StripCharsShape(Replaced(name), {' ', '.'});
    if |stripped| <= 100 then stripped else stripped[..100]
  }

  /** A name that is already safe and has no ' ' or '.' at either end is only truncated. */
  lemma SanitizeSafe(name: string)
    requires forall i | 0 <= i < |name| :: !Unsafe(name[i])
    requires |name| > 0 ==> name[0] !in {' ', '.'} && name[|name| - 1] !in {' ', '.'}
    ensures SanitizeFilename(name) == if |name| <= 100 then name else name[..100]
  {
    assert Replaced(name) == name;
    StripCharsKeeps(name, {' ', '.'});
  }

  /** Stripping happens before truncation, so a ' ' at position 99 of a longer safe name ends up last. */
  lemma SanitizeReexposesSpace(name: string)
    requires forall i | 0 <= i < |name| :: !Unsafe(name[i])
    requires |name| > 100 && name[0] !in {' ', '.'} && name[|name| - 1] !in {' ', '.'}
    requires name[99] == ' '
    ensures var r := SanitizeFilename(name); |r| == 100 && r[99] == ' '
  {
    SanitizeSafe(name);
  }

  /** The layout strftime("%Y-%m-%d_%H-%M-%S") gives for a four-digit year. */
  predicate StampShape(s: string)
  {
    |s| == 19
    && IsAsciiDigit(s[0]) && IsAsciiDigit(s[1]) && IsAsciiDigit(s[2]) && IsAsciiDigit(s[3]) && s[4] == '-'
    && IsAsciiDigit(s[5]) && IsAsciiDigit(s[6]) && s[7] == '-'
    && IsAsciiDigit(s[8]) && IsAsciiDigit(s[9]) && s[10] == '_'
    && IsAsciiDigit(s[11]) && IsAsciiDigit(s[12]) && s[13] == '-'
    && IsAsciiDigit(s[14]) && IsAsciiDigit(s[15]) && s[16] == '-'
    && IsAsciiDigit(s[17]) && IsAsciiDigit(s[18])
  }

  /** What datetime.now() can return. */
  predicate ValidTime(t: DateTime)
  {
    1 <= t.year <= 9999 && 1 <= t.month <= 12 && 1 <= t.day <= 31
    && 0 <= t.hour < 24 && 0 <= t.minute < 60 && 0 <= t.second < 60
  }

  /** A year from 1000 to 9999 prints as four digits. */
  lemma YearDigits(y: nat)
    requires 1000 <= y <= 9999
    ensures |NatToString(y)| == 4
  {
    assert NatToString(y) == NatToString(y / 10) + [DigitChar(y % 10)];
    assert NatToString(y / 10) == NatToString(y / 100) + [DigitChar(y / 10 % 10)];
    NatToStringLength(y / 100);
  }

  /**
   * strftime("%Y-%m-%d_%H-%M-%S"): the other fields are zero-padded to two
   * digits; %Y prints the year without padding, as the C library does.
   */
  function Stamp(t: DateTime): (r: string)
    requires ValidTime(t)
    ensures |r| == |NatToString(t.year)| + 15
  {
    NatToString(t.year)
    + ['-', DigitChar(t.month / 10), DigitChar(t.month % 10),
       '-', DigitChar(t.day / 10), DigitChar(t.day % 10),
       '_', DigitChar(t.hour / 10), DigitChar(t.hour % 10),
       '-', DigitChar(t.minute / 10), DigitChar(t.minute % 10),
       '-', DigitChar(t.second / 10), DigitChar(t.second % 10)]
  }

  /** From the year 1000 on, the stamp has the dddd-dd-dd_dd-dd-dd layout. */
  lemma StampHasShape(t: DateTime)
    requires ValidTime(t) && t.year >= 1000
    ensures StampShape(Stamp(t))
  {
    YearDigits(t.year);
    var y := NatToString(t.year);
    assert Stamp(t)[..4] == y;
  }

  /** get_backup_filename: "<safe hostname>_<stamp>.conf". */
  function BackupFilename(hostname: string, now: DateTime): (r: string)
    requires ValidTime(now)
    ensures StartsWith(r, SanitizeFilename(hostname) + "_") && EndsWith(r, ".conf")
    ensures |r| == |SanitizeFilename(hostname)| + |Stamp(now)| + 6
  {
    var safe := SanitizeFilename(hostname);
    var r := safe + "_" + Stamp(now) + ".conf";
    assert r[..|safe| + 1] == safe + "_";
    r
  }

  /**
   * The device a backup file is filed under by cleanup_old_backups: group 1
   * of re.match(r'([^_]+)_\d{4}-\d{2}-\d{2}_\d{2}-\d{2}-\d{2}\.conf', name).
   * [^_]+ cannot stop before an underscore, so the group is everything
   * before the first '_'; the match is anchored at the start only, so text
   * may follow ".conf".
   */
  function DeviceGroup(name: string): (r: Option<string>)
    ensures r.Some? ==> |r.value| >= 1 && '_' !in r.value && StartsWith(name, r.value + "_")
  {
    var k := IndexOf(name, '_');
    if 1 <= k && k + 25 <= |name| && StampShape(name[k + 1..k + 20]) && name[k + 20..k + 25] == ".conf" then
      assert name[..k + 1] == name[..k] + "_";
      Some(name[..k])
    else None
  }

  /** A name "<safe>_<stamp>.conf" is filed under `safe` exactly when `safe` is non-empty and has no '_'. */
  lemma GroupOfStamped(safe: string, stamp: string)
    requires StampShape(stamp)
    ensures DeviceGroup(safe + "_" + stamp + ".conf") == Some(safe) <==> safe != "" && '_' !in safe
  {
    var name := safe + "_" + stamp + ".conf";
    var tail := stamp + ".conf";
    assert name == safe + ['_'] + tail;
    assert name[..|safe|] == safe;
    if '_' !in safe {
      IndexOfAfter(safe, tail, '_');
      assert name[|safe| + 1..|safe| + 20] == stamp;
      assert name[|safe| + 20..|safe| + 25] == ".conf";
    } else {
      assert IndexOf(name, '_') < |safe|;
    }
  }

  /** A fresh backup file is filed under its own sanitized hostname exactly when that name is non-empty and has no '_'. */
  lemma GroupOfBackupFilename(hostname: string, now: DateTime)
    requires ValidTime(now) && now.year >= 1000
    ensures DeviceGroup(BackupFilename(hostname, now)) == Some(SanitizeFilename(hostname))
            <==> SanitizeFilename(hostname) != "" && '_' !in SanitizeFilename(hostname)
  {
    StampHasShape(now);
    GroupOfStamped(SanitizeFilename(hostname), Stamp(now));
  }

  // ---------------------------------------------------------------------
  // The backup directory

  datatype Stat = Stat(ctime: int, content: string)

  type Entry = (string, Stat)

  type Directory = Dict.Dict<string, Stat>

  /** glob("*.conf"): the entries whose name ends in ".conf", in listing order. */
  function ConfFiles(dir: seq<Entry>): (r: seq<Entry>)
    ensures forall e :: e in r <==> e in dir && EndsWith(e.0, ".conf")
    ensures |r| <= |dir|
    decreases |dir|
  {
    if dir == [] then []
    else
      var last := dir[|dir| - 1];
      assert dir == dir[..|dir| - 1] + [last];
      ConfFiles(dir[..|dir| - 1]) + (if EndsWith(last.0, ".conf") then [last] else [])
  }

  /** glob(f"{safe}_*.conf"): the name starts with safe + '_' and ends in ".conf", the two not overlapping. */
  predicate BackupOf(name: string, safe: string)
  {
    |name| >= |safe| + 6 && StartsWith(name, safe + "_") && EndsWith(name, ".conf")
  }

  /** Every file saved for a hostname answers that hostname's pattern. */
  lemma BackupFilenameIsBackupOf(hostname: string, now: DateTime)
    requires ValidTime(now)
    ensures BackupOf(BackupFilename(hostname, now), SanitizeFilename(hostname))
  {
    var safe := SanitizeFilename(hostname);
    assert BackupFilename(hostname, now) == safe + "_" + Stamp(now) + ".conf";
  }

  function BackupsOf(dir: seq<Entry>, safe: string): (r: seq<Entry>)
    ensures forall e :: e in r <==> e in dir && BackupOf(e.0, safe)
    decreases |dir|
  {
    if dir == [] then []
    else
      var last := dir[|dir| - 1];
      assert dir == dir[..|dir| - 1] + [last];
      BackupsOf(dir[..|dir| - 1], safe) + (if BackupOf(last.0, safe) then [last] else [])
  }

  /**
   * backups.sort(key=ctime, reverse=True)[0]: the sort is stable, so among
   * the entries with the largest change time the first listed wins.
   */
  function Newest(entries: seq<Entry>): (r: Option<Entry>)
    ensures r.None? <==> entries == []
    ensures r.Some? ==> exists i | 0 <= i < |entries| :: entries[i] == r.value
                          && forall j | 0 <= j < i :: entries[j].1.ctime < r.value.1.ctime
    ensures r.Some? ==> forall e | e in entries :: e.1.ctime <= r.value.1.ctime
    decreases |entries|
  {
    if entries == [] then None
    else
      var rest := Newest(entries[1..]);
      assert forall e | e in entries :: e == entries[0] || e in entries[1..];
      if rest.Some? && rest.value.1.ctime > entries[0].1.ctime then
        var i :| 0 <= i < |entries[1..]| && entries[1..][i] == rest.value
                 && forall j | 0 <= j < i :: entries[1..][j].1.ctime < rest.value.1.ctime;
        assert entries[i + 1] == rest.value;
        assert forall j | 1 <= j < i + 1 :: entries[j] == entries[1..][j - 1];
        rest
      else
        Some(entries[0])
  }

  // ---------------------------------------------------------------------
  // Retention

  /** Group 1 of the cleanup pattern for every .conf file, in listing order, one list per device in first-seen order. */
  function Groups(entries: seq<Entry>): Dict.Dict<string, seq<Entry>>
    decreases |entries|
  {
    if entries == [] then []
    else
      var prev := Groups(entries[..|entries| - 1]);
      var e := entries[|entries| - 1];
      match DeviceGroup(e.0)
      case None => prev
      case Some(device) => Dict.Put(prev, device, Dict.Get(prev, device).GetOr([]) + [e])
  }

  /** The entries filed under `device`, in listing order. */
  function Filed(entries: seq<Entry>, device: string): (r: seq<Entry>)
    ensures forall e :: e in r <==> e in entries && DeviceGroup(e.0) == Some(device)
    decreases |entries|
  {
    if entries == [] then []
    else
      var last := entries[|entries| - 1];
      assert entries == entries[..|entries| - 1] + [last];
      Filed(entries[..|entries| - 1], device) + (if DeviceGroup(last.0) == Some(device) then [last] else [])
  }

  /** Each device's list holds exactly the files filed under it, and devices are not repeated. */
  lemma {:induction false} GroupsGet(entries: seq<Entry>, device: string)
    ensures Dict.UniqueKeys(Groups(entries))
    ensures Dict.Get(Groups(entries), device) == if Filed(entries, device) == [] then None else Some(Filed(entries, device))
    decreases |entries|
  {
    if entries != [] {
      var front := entries[..|entries| - 1];
      var e := entries[|entries| - 1];
      var prev := Groups(front);
      GroupsGet(front, device);
      assert Filed(entries, device) == Filed(front, device) + (if DeviceGroup(e.0) == Some(device) then [e] else []);
      match DeviceGroup(e.0)
      case None =>
        assert Groups(entries) == prev;
        assert Filed(entries, device) == Filed(front, device);
      case Some(d) =>
        var v := Dict.Get(prev, d).GetOr([]) + [e];
        Dict.PutUnique(prev, d, v);
        if d == device {
          Dict.GetPutSame(prev, d, v);
        } else {
          Dict.GetPutOther(prev, d, v, device);
        }
    }
  }

  /** Every listed entry of a device group is a .conf file filed under that device. */
  lemma GroupMembers(entries: seq<Entry>, j: int, e: Entry)
    requires 0 <= j < |Groups(entries)| && e in Groups(entries)[j].1
    ensures e in entries && DeviceGroup(e.0) == Some(Groups(entries)[j].0)
    ensures Groups(entries)[j].1 == Filed(entries, Groups(entries)[j].0)
  {
    var g := Groups(entries);
    var device := g[j].0;
    GroupsGet(entries, device);
    Dict.GetFirst(g, device, j);
  }

  predicate SortedByCtime(s: seq<Entry>)
  {
    forall i, j | 0 <= i < j < |s| :: s[i].1.ctime <= s[j].1.ctime
  }

  /** Places `e` after every entry whose change time is not later, keeping equal keys in order. */
  function Insert(e: Entry, sorted: seq<Entry>): (r: seq<Entry>)
    ensures multiset(r) == multiset(sorted) + multiset{e}
    ensures |r| == |sorted| + 1
    decreases |sorted|
  {
    if sorted == [] || sorted[|sorted| - 1].1.ctime <= e.1.ctime then sorted + [e]
    else
      var front := sorted[..|sorted| - 1];
      assert sorted == front + [sorted[|sorted| - 1]];
      Insert(e, front) + [sorted[|sorted| - 1]]
  }

  /** list.sort(key=ctime): a stable insertion sort. */
  function SortByCtime(s: seq<Entry>): (r: seq<Entry>)
    ensures multiset(r) == multiset(s) && |r| == |s|
    decreases |s|
  {
    if s == [] then []
    else
      assert s == s[..|s| - 1] + [s[|s| - 1]];
      Insert(s[|s| - 1], SortByCtime(s[..|s| - 1]))
  }

  lemma {:induction false} InsertSorted(e: Entry, sorted: seq<Entry>)
    requires SortedByCtime(sorted)
    ensures SortedByCtime(Insert(e, sorted))
    decreases |sorted|
  {
    if sorted != [] && sorted[|sorted| - 1].1.ctime > e.1.ctime {
      var front := sorted[..|sorted| - 1];
      var last := sorted[|sorted| - 1];
      InsertSorted(e, front);
      var r := Insert(e, front);
      forall x | x in r
        ensures x.1.ctime <= last.1.ctime
      {
        assert x in multiset(r);
        if x != e {
          assert x in multiset(front);
          var i :| 0 <= i < |front| && front[i] == x;
          assert sorted[i] == x;
        }
      }
      forall i, j | 0 <= i < j < |r + [last]|
        ensures (r + [last])[i].1.ctime <= (r + [last])[j].1.ctime
      {
        if j == |r| {
          assert (r + [last])[i] in r;
        }
      }
    }
  }

  lemma {:induction false} SortSorted(s: seq<Entry>)
    ensures SortedByCtime(SortByCtime(s))
    decreases |s|
  {
    if s != [] {
      SortSorted(s[..|s| - 1]);
      InsertSorted(s[|s| - 1], SortByCtime(s[..|s| - 1]));
    }
  }

  /** How many entries backups[:-max_backups] keeps of a list of `n`: Python reads -0 as 0 and a negative bound from the end. */
  function SliceEnd(n: nat, maxBackups: int): (k: nat)
    ensures k <= n
  {
    if maxBackups > 0 then (if n > maxBackups then n - maxBackups else 0)
    else if maxBackups == 0 then 0
    else if -maxBackups < n then -maxBackups
    else n
  }

  /** The files of one device's group that cleanup_old_backups deletes: the oldest, when the group is over the limit. */
  function Excess(group: seq<Entry>, maxBackups: int): seq<Entry>
  {
    if |group| > maxBackups then
      var sorted := SortByCtime(group);
      sorted[..SliceEnd(|sorted|, maxBackups)]
    else []
  }

  /** The doomed files of every group, group by group. */
  function DoomedOf(groups: Dict.Dict<string, seq<Entry>>, maxBackups: int): seq<Entry>
    decreases |groups|
  {
    if groups == [] then []
    else DoomedOf(groups[..|groups| - 1], maxBackups) + Excess(groups[|groups| - 1].1, maxBackups)
  }

  /** Every file cleanup_old_backups(max_backups) deletes from `dir`. */
  function Doomed(dir: Directory, maxBackups: int): seq<Entry>
  {
    DoomedOf(Groups(ConfFiles(dir)), maxBackups)
  }

  function Names(s: seq<Entry>): set<string>
  {
    set e | e in s :: e.0
  }

  /** The directory once every file named in `gone` is deleted. */
  function Without(dir: Directory, gone: set<string>): (r: Directory)
    ensures forall e :: e in r <==> e in dir && e.0 !in gone
    decreases |dir|
  {
    if dir == [] then []
    else
      assert forall e :: e in dir <==> e == dir[0] || e in dir[1..];
      if dir[0].0 in gone then Without(dir[1..], gone) else [dir[0]] + Without(dir[1..], gone)
  }

  lemma {:induction false} WithoutNothing(dir: Directory)
    ensures Without(dir, {}) == dir
    decreases |dir|
  {
    if dir != [] {
      WithoutNothing(dir[1..]);
    }
  }

  lemma NamesAppend(a: seq<Entry>, b: seq<Entry>)
    ensures Names(a + b) == Names(a) + Names(b)
  {
    assert forall e :: e in a + b <==> e in a || e in b;
  }

  lemma {:induction false} RemoveWithout(dir: Directory, gone: set<string>, name: string)
    ensures Dict.Remove(Without(dir, gone), name) == Without(dir, gone + {name})
    decreases |dir|
  {
    if dir != [] {
      RemoveWithout(dir[1..], gone, name);
    }
  }

  // ---- properties of the retention policy

  /** A group over the limit loses len - max_backups files (all of them at most, -max_backups of them for a negative limit); one within it loses none. */
  lemma ExcessCount(group: seq<Entry>, maxBackups: int)
    ensures |Excess(group, maxBackups)| ==
              if maxBackups > 0 then (if |group| > maxBackups then |group| - maxBackups else 0)
              else if maxBackups == 0 then 0
              else if -maxBackups < |group| then -maxBackups else |group|
  {
  }

  /** In a list sorted by change time, no entry of a prefix is newer than an entry after it. */
  lemma SortedPrefixOldest(s: seq<Entry>, m: nat)
    requires SortedByCtime(s) && m <= |s|
    ensures forall d, k | d in s[..m] && k in s[m..] :: d.1.ctime <= k.1.ctime
  {
    forall d, k | d in s[..m] && k in s[m..]
      ensures d.1.ctime <= k.1.ctime
    {
      var i :| 0 <= i < m && s[..m][i] == d;
      var j :| 0 <= j < |s[m..]| && s[m..][j] == k;
      assert s[i] == d && s[m + j] == k;
    }
  }

  /** The deleted files of a group are among its files, and none is newer than a file it keeps. */
  lemma ExcessOldest(group: seq<Entry>, maxBackups: int)
    ensures multiset(Excess(group, maxBackups)) <= multiset(group)
    ensures forall d, k | d in Excess(group, maxBackups) && k in multiset(group) - multiset(Excess(group, maxBackups))
              :: d.1.ctime <= k.1.ctime
  {
    if |group| > maxBackups {
      var s := SortByCtime(group);
      var m := SliceEnd(|s|, maxBackups);
      assert Excess(group, maxBackups) == s[..m];
      SortSorted(group);
      SortedPrefixOldest(s, m);
      assert s == s[..m] + s[m..];
      assert multiset(group) - multiset(s[..m]) == multiset(s[m..]);
    }
  }

  /** A limit of 0 deletes nothing: backups[:-0] is empty. */
  lemma {:induction false} DoomedZero(groups: Dict.Dict<string, seq<Entry>>)
    ensures DoomedOf(groups, 0) == []
    decreases |groups|
  {
    if groups != [] {
      DoomedZero(groups[..|groups| - 1]);
    }
  }

  lemma {:induction false} DoomedOfMembers(groups: Dict.Dict<string, seq<Entry>>, maxBackups: int, e: Entry)
    ensures e in DoomedOf(groups, maxBackups) <==> exists j | 0 <= j < |groups| :: e in Excess(groups[j].1, maxBackups)
    decreases |groups|
  {
    if groups != [] {
      var front := groups[..|groups| - 1];
      var last := |groups| - 1;
      assert DoomedOf(groups, maxBackups) == DoomedOf(front, maxBackups) + Excess(groups[last].1, maxBackups);
      DoomedOfMembers(front, maxBackups, e);
      if e in DoomedOf(front, maxBackups) {
        var j :| 0 <= j < |front| && e in Excess(front[j].1, maxBackups);
        assert groups[j] == front[j];
      } else if e !in Excess(groups[last].1, maxBackups) {
        forall j | 0 <= j < |groups|
          ensures e !in Excess(groups[j].1, maxBackups)
        {
          if j < last {
            assert groups[j] == front[j];
          }
        }
      }
    }
  }

  /** A deleted file is a listed .conf file the cleanup pattern files under a device: no other file is ever deleted. */
  lemma DoomedMatches(dir: Directory, maxBackups: int, e: Entry)
    requires e in Doomed(dir, maxBackups)
    ensures e in dir && EndsWith(e.0, ".conf") && DeviceGroup(e.0).Some?
  {
    var groups := Groups(ConfFiles(dir));
    DoomedOfMembers(groups, maxBackups, e);
    var j :| 0 <= j < |groups| && e in Excess(groups[j].1, maxBackups);
    ExcessOldest(groups[j].1, maxBackups);
    assert e in multiset(Excess(groups[j].1, maxBackups));
    GroupMembers(ConfFiles(dir), j, e);
  }

  /** The files deleted from one device's group are exactly that group's excess. */
  lemma DoomedByDevice(dir: Directory, maxBackups: int, device: string, e: Entry)
    requires DeviceGroup(e.0) == Some(device)
    ensures e in Doomed(dir, maxBackups) <==> e in Excess(Filed(ConfFiles(dir), device), maxBackups)
  {
    var entries := ConfFiles(dir);
    var groups := Groups(entries);
    DoomedOfMembers(groups, maxBackups, e);
    GroupsGet(entries, device);
    if e in Doomed(dir, maxBackups) {
      var j :| 0 <= j < |groups| && e in Excess(groups[j].1, maxBackups);
      ExcessOldest(groups[j].1, maxBackups);
      assert e in multiset(Excess(groups[j].1, maxBackups));
      GroupMembers(entries, j, e);
    }
    if e in Excess(Filed(entries, device), maxBackups) {
      var filed := Filed(entries, device);
      ExcessOldest(filed, maxBackups);
      assert e in multiset(filed);
      assert filed != [];
      var j := Dict.IndexOfKey(groups, device);
      Dict.GetFirst(groups, device, j);
    }
  }

  /** With distinct file names, a file survives the cleanup exactly when it is not doomed. */
  lemma CleanupKeeps(dir: Directory, maxBackups: int, e: Entry)
    requires Dict.UniqueKeys(dir) && e in dir
    ensures e in Without(dir, Names(Doomed(dir, maxBackups))) <==> e !in Doomed(dir, maxBackups)
  {
    var doomed := Doomed(dir, maxBackups);
    if e.0 in Names(doomed) {
      var d :| d in doomed && d.0 == e.0;
      DoomedMatches(dir, maxBackups, d);
      var i :| 0 <= i < |dir| && dir[i] == d;
      var k :| 0 <= k < |dir| && dir[k] == e;
      assert i == k;
    }
  }

  /** The newest file of the directory answering the hostname's pattern. */
  function LatestBackup(dir: Directory, hostname: string): Option<string>
  {
    var newest := Newest(BackupsOf(dir, SanitizeFilename(hostname)));
    if newest.None? then None else Some(newest.value.0)
  }

  /** None exactly when no file answers the hostname's pattern; otherwise an answering file no other answering file is newer than. */
  lemma LatestBackupNewest(dir: Directory, hostname: string)
    ensures var r := LatestBackup(dir, hostname);
      (r.None? <==> forall e | e in dir :: !BackupOf(e.0, SanitizeFilename(hostname)))
      && (r.Some? ==> exists e | e in dir :: e.0 == r.value && BackupOf(e.0, SanitizeFilename(hostname))
                        && forall o | o in dir && BackupOf(o.0, SanitizeFilename(hostname)) :: o.1.ctime <= e.1.ctime)
  {
    var safe := SanitizeFilename(hostname);
    var candidates := BackupsOf(dir, safe);
    var newest := Newest(candidates);
    if newest.Some? {
      var e := newest.value;
      assert e in candidates by {
        var i :| 0 <= i < |candidates| && candidates[i] == e;
      }
    }
  }

  // ---------------------------------------------------------------------
  // The manager

  class BackupManager {
    /** The backup directory. */
    var files: Directory
    /** config['max_backups'] */
    const maxBackups: int

    constructor(files: Directory, maxBackups: int)
      ensures this.files == files && this.maxBackups == maxBackups
    {
      this.files := files;
      this.maxBackups := maxBackups;
    }

    /**
     * save_config: writes the text to a new file named by the clock; when
     * the write fails (`writable` false) nothing changes and None is returned.
     * Writing a file sets its change time to `clock`.
     */
    method SaveConfig(hostname: string, config: string, now: DateTime, clock: int, writable: bool)
      returns (path: Option<string>)
      requires ValidTime(now)
      modifies this
      ensures writable ==> path == Some(BackupFilename(hostname, now))
                           && files == Dict.Put(old(files), path.value, Stat(clock, config))
      ensures !writable ==> path == None && files == old(files)
    {
      var name := BackupFilename(hostname, now);
      if writable {
        files := Dict.Put(files, name, Stat(clock, config));
        path := Some(name);
      } else {
        path := None;
      }
    }

    /** find_latest_backup: the newest file answering the hostname's pattern, or None when there is none. */
    function FindLatestBackup(hostname: string): (r: Option<string>)
      reads this
      ensures r.None? <==> forall e | e in files :: !BackupOf(e.0, SanitizeFilename(hostname))
      ensures r.Some? ==> exists e | e in files :: e.0 == r.value && BackupOf(e.0, SanitizeFilename(hostname))
                            && forall o | o in files && BackupOf(o.0, SanitizeFilename(hostname)) :: o.1.ctime <= e.1.ctime
    {
      LatestBackupNewest(files, hostname);
      LatestBackup(files, hostname)
    }

    /** backup_count: the number of .conf files. */
    function BackupCount(): (n: nat)
      reads this
      ensures n == |ConfFiles(files)|
      ensures n <= |files|
    {
      |ConfFiles(files)|
    }

    /** cleanup_old_backups: deletes every doomed file, with the stored limit when none is given. */
    method CleanupOldBackups(limit: Option<int>)
      modifies this
      ensures files == Without(old(files), Names(Doomed(old(files), limit.GetOr(maxBackups))))
    {
      var max := limit.GetOr(maxBackups);
      var groups := GroupFiles(ConfFiles(files));
      ghost var start := files;
      WithoutNothing(start);
      assert Names(DoomedOf(groups[..0], max)) == {};
      var j := 0;
      while j < |groups|
        invariant 0 <= j <= |groups|
        invariant files == Without(start, Names(DoomedOf(groups[..j], max)))
      {
        ghost var gone := Names(DoomedOf(groups[..j], max));
        DoomedStep(groups, j, max);
        var backups := groups[j].1;
        if |backups| > max {
          var sorted := SortByCtime(backups);
          var oldest := sorted[..SliceEnd(|sorted|, max)];
          assert oldest == Excess(backups, max);
          RemoveBackups(oldest, start, gone);
        } else {
          assert Excess(backups, max) == [];
          assert gone + Names(Excess(backups, max)) == gone;
        }
        j := j + 1;
      }
      assert groups[..j] == groups;
    }

    /** Unlinks each file of `batch` in turn. */
    method RemoveBackups(batch: seq<Entry>, ghost start: Directory, ghost gone: set<string>)
      requires files == Without(start, gone)
      modifies this
      ensures files == Without(start, gone + Names(batch))
    {
      var k := 0;
      assert gone + Names(batch[..0]) == gone;
      while k < |batch|
        invariant 0 <= k <= |batch|
        invariant files == Without(start, gone + Names(batch[..k]))
      {
        ghost var done := gone + Names(batch[..k]);
        RemoveWithout(start, done, batch[k].0);
        files := Dict.Remove(files, batch[k].0);
        assert batch[..k + 1] == batch[..k] + [batch[k]];
        NamesAppend(batch[..k], [batch[k]]);
        assert Names([batch[k]]) == {batch[k].0};
        assert done + {batch[k].0} == gone + Names(batch[..k + 1]);
        k := k + 1;
      }
      assert batch[..k] == batch;
    }
  }

  /** One more group's excess joins the doomed names. */
  lemma DoomedStep(groups: Dict.Dict<string, seq<Entry>>, j: int, maxBackups: int)
    requires 0 <= j < |groups|
    ensures Names(DoomedOf(groups[..j + 1], maxBackups))
            == Names(DoomedOf(groups[..j], maxBackups)) + Names(Excess(groups[j].1, maxBackups))
  {
    assert groups[..j + 1][..j] == groups[..j];
    NamesAppend(DoomedOf(groups[..j], maxBackups), Excess(groups[j].1, maxBackups));
  }

  /** One more listed entry extends its device's list, or changes nothing when the pattern does not file it. */
  lemma GroupsStep(all: seq<Entry>, i: int)
    requires 0 <= i < |all|
    ensures var prev, device := Groups(all[..i]), DeviceGroup(all[i].0);
      Groups(all[..i + 1]) == if device.None? then prev
                              else Dict.Put(prev, device.value, Dict.Get(prev, device.value).GetOr([]) + [all[i]])
  {
    assert all[..i + 1][..i] == all[..i];
    assert all[..i + 1][i] == all[i];
  }

  /** Builds backups_by_device: each .conf file the pattern files under a device is appended to that device's list. */
  method GroupFiles(all: seq<Entry>) returns (groups: Dict.Dict<string, seq<Entry>>)
    ensures groups == Groups(all)
  {
    groups := [];
    var i := 0;
    while i < |all|
      invariant 0 <= i <= |all|
      invariant groups == Groups(all[..i])
    {
      GroupsStep(all, i);
      var device := DeviceGroup(all[i].0);
      if device.Some? {
        var current := Dict.Get(groups, device.value);
        groups := Dict.Put(groups, device.value, current.GetOr([]) + [all[i]]);
      }
      i := i + 1;
    }
    assert all[..i] == all;
  }
}
