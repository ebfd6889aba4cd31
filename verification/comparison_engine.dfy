/**
 * Configuration comparison (network_backup_tool/src/comparison_engine.py):
 * the guard around the unified diff, the change statistics, the test for
 * significant changes and the diff report.
 *
 * difflib.unified_diff stays abstract: a `Differ` stands for
 * unified_diff(old, new, fromfile='Old Config', tofile='New Config',
 * lineterm='', n=context_lines).
 */
module Comparison {
  import opened Wrappers
  import opened Text
  import opened BackupModels
  import Backups

  type Differ = (seq<string>, seq<string>) -> seq<string>

  /** compare_configs: no diff at all when either configuration is empty; otherwise the diff of their lines. */
  function CompareConfigs(oldConfig: string, newConfig: string, differ: Differ): (r: seq<string>)
    ensures oldConfig == "" || newConfig == "" ==> r == []
    ensures oldConfig != "" && newConfig != "" ==> r == differ(Split(oldConfig, '\n'), Split(newConfig, '\n'))
  {
    if oldConfig == "" || newConfig == "" then []
    else differ(Split(oldConfig, '\n'), Split(newConfig, '\n'))
  }

  /** compare_files: None when either file cannot be read (None here). */
  function CompareFiles(oldText: Option<string>, newText: Option<string>, differ: Differ): (r: Option<seq<string>>)
    ensures r.Some? <==> oldText.Some? && newText.Some?
    ensures r.Some? ==> r.value == CompareConfigs(oldText.value, newText.value, differ)
  {
    if oldText.None? || newText.None? then None
    else Some(CompareConfigs(oldText.value, newText.value, differ))
  }

  /** A counted added line: starts with '+' but is not the "+++" header. */
  predicate IsAdded(line: string)
  {
    StartsWith(line, "+") && !StartsWith(line, "+++")
  }

  /** A counted removed line: starts with '-' but is not the "---" header. */
  predicate IsRemoved(line: string)
  {
    StartsWith(line, "-") && !StartsWith(line, "---")
  }

  /** get_change_statistics: (added, removed). */
  function ChangeStatistics(diff: seq<string>): (r: (nat, nat))
    ensures r.0 + r.1 <= |diff|
    ensures r.0 == 0 <==> forall i | 0 <= i < |diff| :: !IsAdded(diff[i])
    ensures r.1 == 0 <==> forall i | 0 <= i < |diff| :: !IsRemoved(diff[i])
    decreases |diff|
  {
    if diff == [] then (0, 0)
    else
      var front := diff[..|diff| - 1];
      var last := diff[|diff| - 1];
      var prev := ChangeStatistics(front);
      assert forall i | 0 <= i < |front| :: front[i] == diff[i];
      assert IsAdded(last) ==> !IsRemoved(last);
      (prev.0 + (if IsAdded(last) then 1 else 0), prev.1 + (if IsRemoved(last) then 1 else 0))
  }

  /** Statistics add up over concatenated diffs. */
  lemma {:induction false} StatisticsAppend(a: seq<string>, b: seq<string>)
    ensures ChangeStatistics(a + b).0 == ChangeStatistics(a).0 + ChangeStatistics(b).0
    ensures ChangeStatistics(a + b).1 == ChangeStatistics(a).1 + ChangeStatistics(b).1
    decreases |b|
  {
    if b != [] {
      var front := b[..|b| - 1];
      assert (a + b)[..|a + b| - 1] == a + front;
      assert (a + b)[|a + b| - 1] == b[|b| - 1];
      StatisticsAppend(a, front);
    } else {
      assert a + b == a;
    }
  }

  /** The two file header lines of a unified diff count as neither added nor removed. */
  lemma HeadersNotCounted()
    ensures !IsAdded("+++ New Config") && !IsRemoved("+++ New Config")
    ensures !IsAdded("--- Old Config") && !IsRemoved("--- Old Config")
  {
    var added, removed := "+++ New Config", "--- Old Config";
    assert added[..3] == "+++" && added[..1][0] == '+';
    assert !StartsWith(added, "-");
    assert removed[..3] == "---" && removed[..1][0] == '-';
    assert !StartsWith(removed, "+");
  }

  /** re.match(r'^@@ .+ @@$', text): ". +" takes no newline, and "$" is the end of the stripped text. */
  predicate HunkHeader(text: string)
  {
    |text| >= 7 && StartsWith(text, "@@ ") && EndsWith(text, " @@") && '\n' !in text[3..|text| - 3]
  }

  /** The text of a changed line matches one of the insignificant patterns. */
  predicate Insignificant(text: string)
  {
    text == "--- Old Config" || text == "+++ New Config" || HunkHeader(text)
    || StartsWith(text, "! Time:") || StartsWith(text, "! Last configuration change")
    || StartsWith(text, "! NVRAM config last updated") || StartsWith(text, "## Last commit:")
  }

  /** A counted line whose text after the sign, stripped, is not insignificant. */
  predicate Significant(line: string)
  {
    (IsAdded(line) || IsRemoved(line)) && !Insignificant(Strip(line[1..]))
  }

  /** The number of significant lines. */
  function SignificantCount(diff: seq<string>): (n: nat)
    ensures n <= |diff|
    decreases |diff|
  {
    if diff == [] then 0
    else SignificantCount(diff[..|diff| - 1]) + (if Significant(diff[|diff| - 1]) then 1 else 0)
  }

  /** The count is zero exactly when no line is significant. */
  lemma {:induction false} SignificantCountZero(diff: seq<string>)
    ensures SignificantCount(diff) == 0 <==> forall i | 0 <= i < |diff| :: !Significant(diff[i])
    decreases |diff|
  {
    if diff != [] {
      var front := diff[..|diff| - 1];
      SignificantCountZero(front);
      assert forall i | 0 <= i < |front| :: front[i] == diff[i];
    }
  }

  /** has_significant_changes: false for an empty diff, else whether some counted line is significant. */
  method HasSignificantChanges(diff: seq<string>) returns (b: bool)
    ensures b <==> exists i | 0 <= i < |diff| :: Significant(diff[i])
  {
    if diff == [] {
      return false;
    }
    var significantLines := 0;
    var i := 0;
    while i < |diff|
      invariant 0 <= i <= |diff|
      invariant significantLines == SignificantCount(diff[..i])
    {
      assert diff[..i + 1][..i] == diff[..i];
      if IsAdded(diff[i]) {
        if !Insignificant(Strip(diff[i][1..])) {
          significantLines := significantLines + 1;
        }
      } else if IsRemoved(diff[i]) {
        if !Insignificant(Strip(diff[i][1..])) {
          significantLines := significantLines + 1;
        }
      }
      i := i + 1;
    }
    assert diff[..i] == diff;
    SignificantCountZero(diff);
    b := significantLines > 0;
  }

  /** A significant diff always adds or removes at least one counted line. */
  lemma SignificantHasChanges(diff: seq<string>, i: int)
    requires 0 <= i < |diff| && Significant(diff[i])
    ensures ChangeStatistics(diff).0 + ChangeStatistics(diff).1 >= 1
  {
  }

  /** A changed line whose text starts with "! Time:" is never significant, whatever follows. */
  lemma TimestampsInsignificant(sign: char, text: string)
    requires StartsWith(text, "! Time:")
    ensures !Significant([sign] + text)
  {
    assert ([sign] + text)[1..] == text;
    assert text[0] == '!' && text[6] == ':';
    assert TrimStart(text, IsSpace) == text;
    var r := Strip(text);
    assert r == TrimEnd(text, IsSpace);
    assert |r| >= 7;
    assert r[..7] == text[..7];
    assert Insignificant(r);
  }

  /** The characters the comparison engine's _sanitize_filename replaces: <>:"/\|?* only. */
  predicate ReportUnsafe(c: char)
  {
    c in "<>:\"/\\|?*"
  }

  /** _sanitize_filename of the comparison engine: same length, unsafe characters become '_', all others stay. */
  function SanitizeName(name: string): (r: string)
    ensures |r| == |name|
    ensures forall i | 0 <= i < |r| :: !ReportUnsafe(r[i])
    ensures forall i | 0 <= i < |name| :: !ReportUnsafe(name[i]) ==> r[i] == name[i]
  {
    MapChars(name, c => if ReportUnsafe(c) then '_' else c)
  }

  /** Sanitizing twice is sanitizing once. */
  lemma SanitizeNameTwice(name: string)
    ensures SanitizeName(SanitizeName(name)) == SanitizeName(name)
  {
  }

  datatype DiffReport = DiffReport(fileName: string, lines: seq<string>)

  /** strftime('%Y-%m-%d %H:%M:%S') */
  function Generated(t: DateTime): string
    requires Backups.ValidTime(t)
  {
    NatToString(t.year)
    + ['-', DigitChar(t.month / 10), DigitChar(t.month % 10),
       '-', DigitChar(t.day / 10), DigitChar(t.day % 10),
       ' ', DigitChar(t.hour / 10), DigitChar(t.hour % 10),
       ':', DigitChar(t.minute / 10), DigitChar(t.minute % 10),
       ':', DigitChar(t.second / 10), DigitChar(t.second % 10)]
  }

  /** "=" * 60 */
  function Rule(): (r: string)
    ensures |r| == 60
  {
    seq(60, _ => '=')
  }

  function SummaryLine(added: nat, removed: nat): string
  {
    "Summary: +" + NatToString(added) + " lines added, -" + NatToString(removed) + " lines removed"
  }

  /** The report lines before the diff: five, or seven when both file names are given. */
  function Header(hostname: string, files: Option<(string, string)>, now: DateTime): (r: seq<string>)
    requires Backups.ValidTime(now)
    ensures |r| == if files.Some? then 7 else 5
  {
    ["Configuration Change Report", "Device: " + hostname, "Generated: " + Generated(now)]
    + (if files.Some? then ["Old Config: " + files.value.0, "New Config: " + files.value.1] else [])
    + [Rule(), ""]
  }

  /**
   * generate_diff_report: None for an empty diff or when the report file
   * cannot be written (`writable` false); otherwise the report named
   * CHANGES_<name>_<stamp>.diff.  `files` holds the old and new backup
   * names when both are given.
   */
  function GenerateDiffReport(diff: seq<string>, hostname: string, files: Option<(string, string)>,
                              now: DateTime, writable: bool): (r: Option<DiffReport>)
    requires Backups.ValidTime(now)
    ensures r.None? <==> diff == [] || !writable
    ensures r.Some? ==>
              var h := |Header(hostname, files, now)|;
              var lines := r.value.lines;
              |lines| == h + |diff| + 3
              && lines[h..h + |diff|] == diff
              && lines[|lines| - 1] == SummaryLine(ChangeStatistics(diff).0, ChangeStatistics(diff).1)
    ensures r.Some? ==> r.value.fileName == "CHANGES_" + SanitizeName(hostname) + "_" + Backups.Stamp(now) + ".diff"
  {
    if diff == [] then None
    else
      var stats := ChangeStatistics(diff);
      var header := Header(hostname, files, now);
      var lines := header + diff + ["", Rule(), SummaryLine(stats.0, stats.1)];
      assert lines[|header|..|header| + |diff|] == diff;
      if writable then
        Some(DiffReport("CHANGES_" + SanitizeName(hostname) + "_" + Backups.Stamp(now) + ".diff", lines))
      else None
  }
}
