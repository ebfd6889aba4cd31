/**
 * The device handler of the backup tool
 * (network_backup_tool/src/device_handler.py): cleaning what a device
 * prints, reading its hostname and configuration, dropping the
 * configuration's dynamic lines, and the table of open connections.
 *
 * Netmiko is outside the model: what a command prints, or whether it
 * raises, is an input, and a connection records the calls made on it.
 * User-supplied regular expressions are given by a matcher.  A result of
 * None stands for an exception that leaves the method.
 */
module DeviceHandler {
  import opened Wrappers
  import opened Json
  import Dict
  import Text
  import opened BackupModels
  import BackupConfig

  type Fields = BackupConfig.Fields

  const Esc: char := 27 as char

  /** The length of the longest prefix of `s` whose characters lie in lo..hi. */
  function Span(s: string, lo: char, hi: char): (n: nat)
    ensures n <= |s|
    ensures forall i | 0 <= i < n :: lo <= s[i] <= hi
    ensures n < |s| ==> !(lo <= s[n] <= hi)
    decreases |s|
  {
    if |s| > 0 && lo <= s[0] <= hi then
      var n := 1 + Span(s[1..], lo, hi);
      assert forall i | 1 <= i < n :: s[i] == s[1..][i - 1];
      n
    else 0
  }

  /**
   * The length of the escape sequence \x1B(?:[@-Z\\-_]|\[[0-?]*[ -/]*[@-~])
   * at the start of `s`, if there is one.  The three classes of the second
   * form are disjoint, so the greedy match is the only one.
   */
  function AnsiAt(s: string): (r: Option<nat>)
    ensures r.Some? ==> 2 <= r.value <= |s| && s[0] == Esc
  {
    if |s| < 2 || s[0] != Esc then None
    else if '@' <= s[1] <= 'Z' || '\\' <= s[1] <= '_' then Some(2)
    else if s[1] == '[' then
      var p := 2 + Span(s[2..], '0', '?');
      var q := p + Span(s[p..], ' ', '/');
      if q < |s| && '@' <= s[q] <= '~' then Some(q + 1) else None
    else None
  }

  /** ansi_escape.sub('', s): the escape sequences found scanning from the left are removed. */
  function StripAnsi(s: string): (r: string)
    ensures |r| <= |s|
    decreases |s|
  {
    if s == [] then []
    else
      match AnsiAt(s)
      case Some(n) => StripAnsi(s[n..])
      case None => [s[0]] + StripAnsi(s[1..])
  }

  /** Text without the escape character passes unchanged. */
  lemma {:induction false} StripAnsiPlain(s: string)
    requires Esc !in s
    ensures StripAnsi(s) == s
    decreases |s|
  {
    if s != [] {
      StripAnsiPlain(s[1..]);
    }
  }

  /** A colour code, ESC [ 0 m, is removed together with nothing else. */
  lemma StripAnsiColour(t: string)
    ensures StripAnsi([Esc, '[', '0', 'm'] + t) == StripAnsi(t)
  {
    var s := [Esc, '[', '0', 'm'] + t;
    assert s[2..] == ['0', 'm'] + t;
    assert Span(s[2..], '0', '?') == 1 by {
      assert s[2..][1..] == ['m'] + t;
    }
    assert s[3..] == ['m'] + t;
    assert s[4..] == t;
  }

  /** s.replace(c, '') */
  function DropChar(s: string, c: char): (r: string)
    ensures c !in r && |r| <= |s|
    ensures forall x | x in r :: x in s
    decreases |s|
  {
    if s == [] then []
    else if s[0] == c then DropChar(s[1..], c)
    else [s[0]] + DropChar(s[1..], c)
  }

  /** The lines _clean_output keeps: each right-stripped, the empty ones left out, in order. */
  function KeptLines(lines: seq<string>): (r: seq<string>)
    ensures |r| <= |lines|
    ensures forall k | 0 <= k < |r| :: r[k] != "" && !Text.IsSpace(r[k][|r[k]| - 1])
    decreases |lines|
  {
    if lines == [] then []
    else
      var rest := KeptLines(lines[..|lines| - 1]);
      var line := Text.RStrip(lines[|lines| - 1]);
      if line != "" then rest + [line] else rest
  }

  /** Keeping works line by line: the kept lines stay in the order of the text. */
  lemma {:induction false} KeptLinesAppend(a: seq<string>, b: seq<string>)
    ensures KeptLines(a + b) == KeptLines(a) + KeptLines(b)
    decreases |b|
  {
    if b == [] {
      assert a + b == a;
    } else {
      assert (a + b)[..|a + b| - 1] == a + b[..|b| - 1];
      KeptLinesAppend(a, b[..|b| - 1]);
    }
  }

  /** A kept line is a line of the text without its trailing whitespace, and every line with some other character is kept. */
  lemma {:induction false} KeptLinesMembers(lines: seq<string>, x: string)
    ensures x in KeptLines(lines) <==> x != "" && exists j | 0 <= j < |lines| :: x == Text.RStrip(lines[j])
    decreases |lines|
  {
    if lines != [] {
      var front := lines[..|lines| - 1];
      KeptLinesMembers(front, x);
      if exists j | 0 <= j < |front| :: x == Text.RStrip(front[j]) {
        var j :| 0 <= j < |front| && x == Text.RStrip(front[j]);
        assert lines[j] == front[j];
      }
      if exists j | 0 <= j < |lines| :: x == Text.RStrip(lines[j]) {
        var j :| 0 <= j < |lines| && x == Text.RStrip(lines[j]);
        if j < |front| {
          assert front[j] == lines[j];
        }
      }
    }
  }

  /** What _clean_output returns. */
  function Cleaned(output: string): string
  {
    Text.Join(KeptLines(Text.Split(DropChar(StripAnsi(output), '\r'), '\n')), '\n')
  }

  /** _clean_output */
  method CleanOutput(output: string) returns (r: string)
    ensures r == Cleaned(output)
  {
    var text := StripAnsi(output);
    text := DropChar(text, '\r');
    var lines := Text.Split(text, '\n');
    var kept: seq<string> := [];
    var i := 0;
    while i < |lines|
      invariant 0 <= i <= |lines|
      invariant kept == KeptLines(lines[..i])
    {
      var line := Text.RStrip(lines[i]);
      if line != "" {
        kept := kept + [line];
      }
      assert lines[..i + 1][..i] == lines[..i];
      i := i + 1;
    }
    assert lines[..i] == lines;
    r := Text.Join(kept, '\n');
  }

  /**
   * Cleaned output holds no carriage return, and its lines are the kept
   * lines: none empty, none ending in whitespace.
   */
  lemma CleanedShape(output: string)
    ensures '\r' !in Cleaned(output)
    ensures var r := Cleaned(output);
      r != "" ==> Text.Split(r, '\n') == KeptLines(Text.Split(DropChar(StripAnsi(output), '\r'), '\n'))
    ensures var r := Cleaned(output);
      r != "" ==> forall k | 0 <= k < |Text.Split(r, '\n')| ::
        Text.Split(r, '\n')[k] != "" && !Text.IsSpace(Text.Split(r, '\n')[k][|Text.Split(r, '\n')[k]| - 1])
  {
    var text := DropChar(StripAnsi(output), '\r');
    var lines := Text.Split(text, '\n');
    var kept := KeptLines(lines);
    Text.SplitAvoids(text, '\n', '\r');
    forall k | 0 <= k < |kept|
      ensures '\r' !in kept[k] && '\n' !in kept[k]
    {
      KeptLinesMembers(lines, kept[k]);
      var j :| 0 <= j < |lines| && kept[k] == Text.RStrip(lines[j]);
      assert kept[k] == lines[j][..|kept[k]|];
    }
    Text.JoinAvoids(kept, '\n', '\r');
    if kept != [] {
      Text.SplitJoin(kept, '\n');
    }
  }

  /** The first line of a text. */
  function FirstLine(s: string): string
  {
    var k := Text.IndexOf(s, '\n');
    if k < 0 then s else s[..k]
  }

  /** What follows the first line of a text. */
  function AfterFirstLine(s: string): string
  {
    var k := Text.IndexOf(s, '\n');
    if k < 0 then "" else s[k + 1..]
  }

  /**
   * get_configuration after its command lookup, for config_cmd and what
   * sending it returns (None when it raises): the cleaned output without
   * its first line when that line contains the command, stripped; '' when
   * sending raises, or when the command is not text (the echo test
   * raises).
   */
  function Configuration(configCmd: Json, reply: Option<string>): (r: string)
    ensures reply.None? || !configCmd.JStr? ==> r == ""
  {
    if reply.None? || !configCmd.JStr? then ""
    else
      var lines := Text.Split(Cleaned(reply.value), '\n');
      var body := if Text.Contains(lines[0], configCmd.s) then lines[1..] else lines;
      Text.Strip(Text.Join(body, '\n'))
  }

  /** The echo of the command is dropped exactly when the first line contains it, and nothing else is lost. */
  lemma ConfigurationEcho(cmd: string, reply: string)
    ensures var out := Cleaned(reply);
      Configuration(JStr(cmd), Some(reply))
        == if Text.Contains(FirstLine(out), cmd) then Text.Strip(AfterFirstLine(out)) else Text.Strip(out)
  {
    var out := Cleaned(reply);
    var lines := Text.Split(out, '\n');
    var k := Text.IndexOf(out, '\n');
    Text.JoinSplit(out, '\n');
    if k >= 0 {
      assert lines == [out[..k]] + Text.Split(out[k + 1..], '\n');
      assert lines[1..] == Text.Split(out[k + 1..], '\n');
      Text.JoinSplit(out[k + 1..], '\n');
    } else {
      assert lines == [out];
    }
  }

  /** The command entry of a device type, when the lookup succeeds and gives a dict (.get on anything else raises). */
  function Entry(commands: Json, deviceType: Json): (r: Option<Fields>)
    ensures r.Some? <==> BackupConfig.GetDeviceCommands(commands, deviceType).Some?
                         && BackupConfig.GetDeviceCommands(commands, deviceType).value.JObj?
  {
    match BackupConfig.GetDeviceCommands(commands, deviceType)
    case Some(JObj(fields)) => Some(fields)
    case _ => None
  }

  /** get_configuration: None when the command lookup raises. */
  function GetConfiguration(commands: Json, device: DeviceConfig, reply: Option<string>): (r: Option<string>)
    ensures r.None? <==> Entry(commands, device.deviceType).None?
    ensures r.Some? ==>
      r.value == Configuration(BackupConfig.Field(Entry(commands, device.deviceType).value, "config_cmd", JStr("show running-config")), reply)
  {
    match Entry(commands, device.deviceType)
    case None => None
    case Some(entry) => Some(Configuration(BackupConfig.Field(entry, "config_cmd", JStr("show running-config")), reply))
  }

  /**
   * How re.search(pattern, text, re.IGNORECASE).group(1) ends: Found(None)
   * when group 1 took no part, Raises for a pattern that does not compile
   * or has no group 1.
   */
  datatype SearchOutcome = Found(group: Option<string>) | NotFound | Raises

  type Searcher = (string, string) -> SearchOutcome

  const QuoteChars: set<char> := {'"', '\''}
  const PromptChars: set<char> := {'#', '>', ' '}

  /**
   * get_hostname after its command lookup.  `reply` is what sending
   * hostname_cmd returns (None when it raises) and `basePrompt` the
   * connection's base_prompt, if it has one.
   */
  function Hostname(entry: Fields, host: Json, reply: Option<string>, basePrompt: Option<string>, search: Searcher): (r: Json)
    ensures !Truthy(BackupConfig.Field(entry, "hostname_cmd", JStr(""))) ==> r == host
    ensures reply.None? ==> r == host
    ensures r == host || r.JStr?
  {
    var cmd := BackupConfig.Field(entry, "hostname_cmd", JStr(""));
    var pattern := BackupConfig.Field(entry, "hostname_pattern", JStr("(\\S+)"));
    if !Truthy(cmd) || reply.None? || !pattern.JStr? then host
    else
      match search(pattern.s, Cleaned(reply.value))
      case Found(Some(g)) => JStr(Text.StripChars(Text.Strip(g), QuoteChars))
      case NotFound =>
        if basePrompt.Some? && Text.StripChars(basePrompt.value, PromptChars) != "" then
          JStr(Text.StripChars(basePrompt.value, PromptChars))
        else host
      case _ => host
  }

  /** A matched group gives the hostname, stripped of whitespace and then of quotes at either end. */
  lemma HostnameFromGroup(entry: Fields, host: Json, reply: string, basePrompt: Option<string>, search: Searcher, g: string)
    requires Truthy(BackupConfig.Field(entry, "hostname_cmd", JStr("")))
    requires var pattern := BackupConfig.Field(entry, "hostname_pattern", JStr("(\\S+)"));
      pattern.JStr? && search(pattern.s, Cleaned(reply)) == Found(Some(g))
    ensures var r := Hostname(entry, host, Some(reply), basePrompt, search);
      r == JStr(Text.StripChars(Text.Strip(g), QuoteChars))
      && (r.s != "" ==> r.s[0] !in QuoteChars && r.s[|r.s| - 1] !in QuoteChars)
  {
  }

  /**
   * Without a match the prompt is used when something is left of it once
   * '#', '>' and ' ' are stripped; what is used neither starts nor ends
   * with one of them.  Otherwise the host is returned.
   */
  lemma HostnameFromPrompt(entry: Fields, host: Json, reply: string, basePrompt: Option<string>, search: Searcher)
    requires Truthy(BackupConfig.Field(entry, "hostname_cmd", JStr("")))
    requires var pattern := BackupConfig.Field(entry, "hostname_pattern", JStr("(\\S+)"));
      pattern.JStr? && search(pattern.s, Cleaned(reply)) == NotFound
    ensures var r := Hostname(entry, host, Some(reply), basePrompt, search);
      if basePrompt.Some? && Text.StripChars(basePrompt.value, PromptChars) != "" then
        r.JStr? && r.s != "" && r.s[0] !in PromptChars && r.s[|r.s| - 1] !in PromptChars
        && r.s == Text.StripChars(basePrompt.value, PromptChars)
      else r == host
  {
  }

  /** get_hostname: None when the command lookup raises. */
  function GetHostname(commands: Json, device: DeviceConfig, reply: Option<string>,
                       basePrompt: Option<string>, search: Searcher): (r: Option<Json>)
    ensures r.None? <==> Entry(commands, device.deviceType).None?
    ensures r.Some? ==> r.value == device.host || r.value.JStr?
  {
    match Entry(commands, device.deviceType)
    case None => None
    case Some(entry) => Some(Hostname(entry, device.host, reply, basePrompt, search))
  }

  /** How re.match(pattern, text) ends: BadPattern when the pattern does not compile (re.error). */
  datatype MatchOutcome = Matched | Unmatched | BadPattern

  type Matcher = (string, string) -> MatchOutcome

  /**
   * The skip flag cleanup_config computes for one stripped line: true at
   * the first pattern that matches; a pattern that does not compile is
   * passed over; a pattern that is not text raises (None).
   */
  function Skip(patterns: seq<Json>, text: string, rematch: Matcher): Option<bool>
    decreases |patterns|
  {
    if patterns == [] then Some(false)
    else
      match patterns[0]
      case JStr(p) => if rematch(p, text) == Matched then Some(true) else Skip(patterns[1..], text, rematch)
      case _ => None
  }

  /** The patterns tried before index i were all text and none matched. */
  predicate PassedOver(patterns: seq<Json>, text: string, rematch: Matcher, i: int)
    requires 0 <= i <= |patterns|
  {
    forall j | 0 <= j < i :: patterns[j].JStr? && rematch(patterns[j].s, text) != Matched
  }

  /**
   * A line is skipped exactly when some pattern matches it and every
   * pattern before that one is text that does not match; it is kept
   * exactly when all patterns are text and none matches, so patterns that
   * do not compile are passed over.
   */
  lemma {:induction false} SkipMeaning(patterns: seq<Json>, text: string, rematch: Matcher)
    ensures Skip(patterns, text, rematch) == Some(true) <==>
              exists i | 0 <= i < |patterns| :: PassedOver(patterns, text, rematch, i)
                && patterns[i].JStr? && rematch(patterns[i].s, text) == Matched
    ensures Skip(patterns, text, rematch) == Some(false) <==> PassedOver(patterns, text, rematch, |patterns|)
    decreases |patterns|
  {
    if patterns != [] {
      var rest := patterns[1..];
      SkipMeaning(rest, text, rematch);
      forall i | 1 <= i <= |patterns|
        ensures PassedOver(patterns, text, rematch, i) <==>
                  patterns[0].JStr? && rematch(patterns[0].s, text) != Matched && PassedOver(rest, text, rematch, i - 1)
      {
        if PassedOver(patterns, text, rematch, i) {
          forall j | 0 <= j < i - 1
            ensures rest[j].JStr? && rematch(rest[j].s, text) != Matched
          {
            assert rest[j] == patterns[j + 1];
          }
        }
        if patterns[0].JStr? && rematch(patterns[0].s, text) != Matched && PassedOver(rest, text, rematch, i - 1) {
          forall j | 0 <= j < i
            ensures patterns[j].JStr? && rematch(patterns[j].s, text) != Matched
          {
            if j > 0 {
              assert patterns[j] == rest[j - 1];
            }
          }
        }
      }
      if exists i | 0 <= i < |rest| :: PassedOver(rest, text, rematch, i) && rest[i].JStr? && rematch(rest[i].s, text) == Matched {
        var i :| 0 <= i < |rest| && PassedOver(rest, text, rematch, i) && rest[i].JStr? && rematch(rest[i].s, text) == Matched;
        if patterns[0].JStr? && rematch(patterns[0].s, text) != Matched {
          assert patterns[i + 1] == rest[i];
          assert PassedOver(patterns, text, rematch, i + 1);
        }
      }
      if exists i | 0 <= i < |patterns| :: PassedOver(patterns, text, rematch, i)
           && patterns[i].JStr? && rematch(patterns[i].s, text) == Matched {
        var i :| 0 <= i < |patterns| && PassedOver(patterns, text, rematch, i)
                 && patterns[i].JStr? && rematch(patterns[i].s, text) == Matched;
        if i > 0 {
          assert rest[i - 1] == patterns[i];
          assert PassedOver(rest, text, rematch, i - 1);
        }
      }
    }
  }

  /** With text patterns only, the filter never raises. */
  lemma {:induction false} SkipTextPatterns(patterns: seq<Json>, text: string, rematch: Matcher)
    requires forall i | 0 <= i < |patterns| :: patterns[i].JStr?
    ensures Skip(patterns, text, rematch).Some?
    decreases |patterns|
  {
    if patterns != [] {
      SkipTextPatterns(patterns[1..], text, rematch);
    }
  }

  /** Whether cleanup_config keeps a line: its stripped text is not empty and no pattern skips it; None when a test raises. */
  function Verdict(line: string, patterns: seq<Json>, rematch: Matcher): Option<bool>
  {
    var stripped := Text.Strip(line);
    match Skip(patterns, stripped, rematch)
    case None => None
    case Some(skip) => Some(!skip && stripped != "")
  }

  /** A line cleanup_config keeps. */
  predicate KeepLine(line: string, patterns: seq<Json>, rematch: Matcher)
  {
    Verdict(line, patterns, rematch) == Some(true)
  }

  /** The lines cleanup_config keeps, unmodified and in order; None when testing some line raises. */
  function Filtered(lines: seq<string>, patterns: seq<Json>, rematch: Matcher): Option<seq<string>>
    decreases |lines|
  {
    if lines == [] then Some([])
    else
      match Filtered(lines[..|lines| - 1], patterns, rematch)
      case None => None
      case Some(kept) =>
        match Verdict(lines[|lines| - 1], patterns, rematch)
        case None => None
        case Some(keep) => if keep then Some(kept + [lines[|lines| - 1]]) else Some(kept)
  }

  /**
   * When no line raises, the kept lines are exactly the lines of the text
   * that pass the filter, and they keep their order.
   */
  lemma {:induction false} FilteredMembers(lines: seq<string>, patterns: seq<Json>, rematch: Matcher, x: string)
    requires Filtered(lines, patterns, rematch).Some?
    ensures x in Filtered(lines, patterns, rematch).value <==> x in lines && KeepLine(x, patterns, rematch)
    decreases |lines|
  {
    if lines != [] {
      var front, last := lines[..|lines| - 1], lines[|lines| - 1];
      FilteredMembers(front, patterns, rematch, x);
      assert lines == front + [last];
    }
  }

  /** Filtering works line by line: the result for a text is the results for its parts, in order. */
  lemma {:induction false} FilteredAppend(a: seq<string>, b: seq<string>, patterns: seq<Json>, rematch: Matcher)
    requires Filtered(a + b, patterns, rematch).Some?
    ensures Filtered(a, patterns, rematch).Some? && Filtered(b, patterns, rematch).Some?
    ensures Filtered(a + b, patterns, rematch).value == Filtered(a, patterns, rematch).value + Filtered(b, patterns, rematch).value
    decreases |b|
  {
    if b == [] {
      assert a + b == a;
    } else {
      var b' := b[..|b| - 1];
      assert (a + b)[..|a + b| - 1] == a + b';
      assert b[..|b| - 1] == b';
      FilteredAppend(a, b', patterns, rematch);
    }
  }

  /** With text patterns only, no line raises. */
  lemma {:induction false} FilteredTextPatterns(lines: seq<string>, patterns: seq<Json>, rematch: Matcher)
    requires forall i | 0 <= i < |patterns| :: patterns[i].JStr?
    ensures Filtered(lines, patterns, rematch).Some?
    decreases |lines|
  {
    if lines != [] {
      FilteredTextPatterns(lines[..|lines| - 1], patterns, rematch);
      SkipTextPatterns(patterns, Text.Strip(lines[|lines| - 1]), rematch);
      assert Verdict(lines[|lines| - 1], patterns, rematch).Some?;
    }
  }

  /** What the loops of cleanup_config return for the patterns it was given. */
  function CleanedConfig(config: string, patterns: seq<Json>, rematch: Matcher): Option<string>
  {
    match Filtered(Text.Split(config, '\n'), patterns, rematch)
    case None => None
    case Some(kept) => Some(Text.Join(kept, '\n'))
  }

  /** The inner loop of cleanup_config: the patterns tried in order against one stripped line. */
  method SkipLine(patterns: seq<Json>, stripped: string, rematch: Matcher) returns (skip: Option<bool>)
    ensures skip == Skip(patterns, stripped, rematch)
  {
    var j := 0;
    while j < |patterns|
      invariant 0 <= j <= |patterns|
      invariant Skip(patterns, stripped, rematch) == Skip(patterns[j..], stripped, rematch)
    {
      var pattern := patterns[j];
      assert patterns[j..][0] == pattern && patterns[j..][1..] == patterns[j + 1..];
      if !pattern.JStr? {
        // re.match raises TypeError, which is not caught.
        return None;
      }
      if rematch(pattern.s, stripped) == Matched {
        return Some(true);
      }
      j := j + 1;
    }
    return Some(false);
  }

  /** Once testing a line raises, so does cleaning any text that starts with it. */
  lemma FilteredRaises(lines: seq<string>, i: nat, patterns: seq<Json>, rematch: Matcher)
    requires i < |lines| && Filtered(lines[..i + 1], patterns, rematch).None?
    ensures Filtered(lines, patterns, rematch).None?
  {
    assert lines == lines[..i + 1] + lines[i + 1..];
    if Filtered(lines, patterns, rematch).Some? {
      FilteredAppend(lines[..i + 1], lines[i + 1..], patterns, rematch);
    }
  }

  /** Cleaning one more line: its verdict decides whether it joins the kept lines. */
  lemma FilteredStep(lines: seq<string>, i: nat, patterns: seq<Json>, rematch: Matcher)
    requires i < |lines|
    ensures Filtered(lines[..i + 1], patterns, rematch) ==
      match Filtered(lines[..i], patterns, rematch)
      case None => None
      case Some(kept) =>
        match Verdict(lines[i], patterns, rematch)
        case None => None
        case Some(keep) => if keep then Some(kept + [lines[i]]) else Some(kept)
  {
    assert lines[..i + 1][..i] == lines[..i];
  }

  /** The loops of cleanup_config over the lines and, for each line, the patterns. */
  method FilterConfig(config: string, patterns: seq<Json>, rematch: Matcher) returns (r: Option<string>)
    ensures r == CleanedConfig(config, patterns, rematch)
  {
    var lines := Text.Split(config, '\n');
    var kept: seq<string> := [];
    var i := 0;
    while i < |lines|
      invariant 0 <= i <= |lines|
      invariant Filtered(lines[..i], patterns, rematch) == Some(kept)
    {
      var line := lines[i];
      var stripped := Text.Strip(line);
      var skip := SkipLine(patterns, stripped, rematch);
      FilteredStep(lines, i, patterns, rematch);
      if skip.None? {
        FilteredRaises(lines, i, patterns, rematch);
        return None;
      }
      if !skip.value && stripped != "" {
        kept := kept + [line];
      }
      i := i + 1;
    }
    assert lines[..i] == lines;
    r := Some(Text.Join(kept, '\n'));
  }

  /** The calls made on a connection. */
  datatype Action = DisablePaging | SendCommand(command: Json) | EnterEnable | Disconnect

  /** A netmiko connection, as the calls made on it. */
  class Connection {
    const deviceType: Json
    var calls: seq<Action>

    constructor (deviceType: Json, calls: seq<Action>)
      ensures this.deviceType == deviceType && this.calls == calls
    {
      this.deviceType := deviceType;
      this.calls := calls;
    }

    /** The last call made was disconnect(). */
    predicate Closed()
      reads this
    {
      |calls| > 0 && calls[|calls| - 1] == Disconnect
    }
  }

  /**
   * The calls connect makes after the session is open: paging is turned
   * off with disable_paging() for a true flag or by sending a command
   * text; the post-login command is sent when it is set; enable() is
   * called when the table asks for it and the device has a secret.
   */
  function SetupCalls(entry: Fields, secret: Json): (r: seq<Action>)
    ensures EnterEnable in r <==>
              Truthy(BackupConfig.Field(entry, "enable_password", JBool(false))) && Truthy(secret)
    ensures DisablePaging in r <==> BackupConfig.Field(entry, "disable_paging", JNull) == JBool(true)
    ensures Disconnect !in r
  {
    var paging := BackupConfig.Field(entry, "disable_paging", JNull);
    var post := BackupConfig.Field(entry, "post_login_cmd", JNull);
    var first := if Truthy(paging) && paging.JBool? then [DisablePaging]
                 else if Truthy(paging) && paging.JStr? then [SendCommand(paging)]
                 else [];
    var second := if Truthy(post) then [SendCommand(post)] else [];
    var third := if Truthy(BackupConfig.Field(entry, "enable_password", JBool(false))) && Truthy(secret) then [EnterEnable] else [];
    first + second + third
  }

  /** The calls disconnect makes on a connection: the pre-logout command when its table sets one, then disconnect(). */
  function LogoutCalls(commands: Json, deviceType: Json): (r: seq<Action>)
    ensures |r| > 0 && r[|r| - 1] == Disconnect
  {
    match Entry(commands, deviceType)
    case Some(entry) =>
      var pre := BackupConfig.Field(entry, "pre_logout_cmd", JNull);
      if Truthy(pre) then [SendCommand(pre), Disconnect] else [Disconnect]
    case None => [Disconnect]
  }

  /** How ConnectHandler and the setup calls end: refused, or opened with or without a setup call raising. */
  datatype Session = Refused | Opened(setupRaises: bool)

  class NetworkDeviceHandler {
    const configManager: BackupConfig.ConfigManager
    /** self.connections, keyed by host */
    var connections: Dict.Dict<Json, Connection>

    ghost predicate Valid()
      reads this
    {
      Dict.UniqueKeys(connections)
    }

    /** The stored connections. */
    function Open(): set<Connection>
      reads this
    {
      set i | 0 <= i < |connections| :: connections[i].1
    }

    /** The connection stored under `host`, if any. */
    function Under(host: Json): set<Connection>
      reads this
    {
      match Dict.Get(connections, host)
      case Some(c) => {c}
      case None => {}
    }

    constructor (configManager: BackupConfig.ConfigManager)
      ensures this.configManager == configManager && connections == [] && Valid()
    {
      this.configManager := configManager;
      connections := [];
    }

    /**
     * connect: the connection is stored under the host and returned only
     * when the session opens, the setup calls succeed, the command entry
     * is a dict and the host can be a key; otherwise None and the table is
     * unchanged.
     */
    method Connect(device: DeviceConfig, session: Session) returns (conn: Connection?)
      requires Valid()
      modifies this
      ensures Valid()
      ensures conn != null <==>
                session == Opened(false) && Entry(configManager.commands, device.deviceType).Some?
                && BackupConfig.Hashable(device.host)
      ensures conn != null ==>
                fresh(conn) && conn.deviceType == device.deviceType
                && conn.calls == SetupCalls(Entry(configManager.commands, device.deviceType).value, device.secret)
                && connections == Dict.Put(old(connections), device.host, conn)
      ensures conn == null ==> connections == old(connections)
    {
      var entry := Entry(configManager.commands, device.deviceType);
      if entry.None? || session.Refused? || session.setupRaises {
        return null;
      }
      var made := new Connection(device.deviceType, SetupCalls(entry.value, device.secret));
      if !BackupConfig.Hashable(device.host) {
        // Storing under an unhashable host raises TypeError.
        return null;
      }
      Dict.PutUnique(connections, device.host, made);
      connections := Dict.Put(connections, device.host, made);
      return made;
    }

    /**
     * disconnect: the host leaves the table; its connection, if there was
     * one, gets the pre-logout command and disconnect().
     */
    method Disconnect(host: Json)
      requires Valid()
      modifies this, Under(host)
      ensures Valid()
      ensures connections == Dict.Remove(old(connections), host)
      ensures !Dict.HasKey(connections, host)
      ensures forall k :: Dict.HasKey(connections, k) <==> Dict.HasKey(old(connections), k) && k != host
      ensures Dict.HasKey(old(connections), host) ==>
                var c := Dict.Get(old(connections), host).value;
                c.calls == old(c.calls) + LogoutCalls(configManager.commands, c.deviceType) && c.Closed()
    {
      forall k {
        Dict.RemoveHasKey(connections, host, k);
      }
      Dict.RemoveUnique(connections, host);
      var found := Dict.Get(connections, host);
      connections := Dict.Remove(connections, host);
      if found.Some? {
        var c := found.value;
        c.calls := c.calls + LogoutCalls(configManager.commands, c.deviceType);
      }
    }

    /** disconnect_all: every stored connection is closed and the table is left empty. */
    method DisconnectAll()
      requires Valid()
      modifies this, Open()
      ensures Valid() && connections == []
      ensures forall c | c in old(Open()) :: c.Closed()
    {
      var hosts := Dict.Keys(connections);
      ghost var stored := connections;
      var i := 0;
      while i < |hosts|
        invariant 0 <= i <= |hosts| && |hosts| == |stored|
        invariant Valid() && connections == stored[i..]
        invariant forall j | 0 <= j < i :: stored[j].1.Closed()
      {
        assert hosts[i] == stored[i].0 == connections[0].0;
        Dict.GetFirst(connections, hosts[i], 0);
        Dict.RemoveFirst(connections);
        assert stored[i..][1..] == stored[i + 1..];
        Disconnect(hosts[i]);
        i := i + 1;
      }
      forall c | c in old(Open())
        ensures c.Closed()
      {
        var j :| 0 <= j < |stored| && stored[j].1 == c;
      }
    }

    /** cleanup_config: the ignore patterns of the device type, then the line filter; None when either raises. */
    method CleanupConfig(config: string, deviceType: Json, rematch: Matcher) returns (r: Option<string>)
      modifies configManager
      ensures var patterns := BackupConfig.IgnorePatterns(old(configManager.config), deviceType);
        r == if patterns.None? then None else CleanedConfig(config, patterns.value, rematch)
      ensures var patterns := BackupConfig.IgnorePatterns(old(configManager.config), deviceType);
        configManager.config == if patterns.None? then old(configManager.config)
                                else BackupConfig.WithCommon(old(configManager.config), patterns.value)
    {
      var patterns := configManager.GetIgnorePatterns(deviceType);
      if patterns.None? {
        return None;
      }
      r := FilterConfig(config, patterns.value, rematch);
    }
  }
}
