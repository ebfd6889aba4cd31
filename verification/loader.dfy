/**
 * Input loading of the discovery tool (network_discovery/inventory/loader.py):
 * the target list, read line by line and expanded like a scanner range, and
 * the login credentials, read as a YAML or JSON document or as
 * `user:password[:enable]` text, with built-in defaults as the fallback.
 *
 * The YAML and JSON parsers are supplied by the caller as functions on the
 * file text; the file itself is a value (its text, or why it could not be read).
 */
module Loader {
  import opened Wrappers
  import Text
  import Json
  import opened Address
  import opened Device
  import PortScanner
  import IpParser

  // ---------------- the target list ----------------

  /**
   * What one line of the target file contributes: nothing for a blank or
   * comment line, otherwise the addresses of the line read as a range.
   * A range up to the last address keeps every address here, because the
   * AddressValueError raised after the last append is caught per line.
   * A range with ends of different versions raises a TypeError (Failure),
   * which ends the reading of the file.
   */
  function LineTargets(x: V6Syntax, raw: string): (r: Result<seq<string>, string>)
  {
    var line := Text.Strip(raw);
    if line == "" || Text.StartsWith(line, "#") then Success([])
    else PortScanner.Targets(x, line)
  }

  /** The per-line reading of load_ip_list as a function. */
  function LineReader(x: V6Syntax): string -> Result<seq<string>, string>
  {
    raw => LineTargets(x, raw)
  }

  /**
   * The addresses gathered from the lines, each read by `f`, and whether an
   * exception ended the loop.
   */
  function Gather(f: string -> Result<seq<string>, string>, lines: seq<string>): (r: (seq<string>, bool))
    decreases |lines|
  {
    if lines == [] then ([], false)
    else
      var prev := Gather(f, lines[..|lines| - 1]);
      if prev.1 then prev
      else
        var t := f(lines[|lines| - 1]);
        if t.Failure? then (prev.0, true) else (prev.0 + t.value, false)
  }

  /** Every line up to and including line `k` was read without an exception. */
  predicate ReadUpTo(f: string -> Result<seq<string>, string>, lines: seq<string>, k: nat)
    requires k < |lines|
  {
    forall j | 0 <= j <= k :: f(lines[j]).Success?
  }

  /** The loop ends early exactly when some line raises. */
  lemma {:induction false} GatherRaised(f: string -> Result<seq<string>, string>, lines: seq<string>)
    ensures Gather(f, lines).1 <==> exists k | 0 <= k < |lines| :: f(lines[k]).Failure?
    decreases |lines|
  {
    if lines != [] {
      var init := lines[..|lines| - 1];
      GatherRaised(f, init);
      assert forall k | 0 <= k < |init| :: init[k] == lines[k];
    }
  }

  /** An address is gathered exactly when a line read before any exception yields it. */
  lemma {:induction false} GatherMembers(f: string -> Result<seq<string>, string>, lines: seq<string>, ip: string)
    ensures ip in Gather(f, lines).0 <==>
              exists k | 0 <= k < |lines| :: ReadUpTo(f, lines, k) && ip in f(lines[k]).value
    decreases |lines|
  {
    if lines != [] {
      var n := |lines| - 1;
      var init := lines[..n];
      GatherMembers(f, init, ip);
      GatherRaised(f, init);
      assert forall k | 0 <= k < n :: init[k] == lines[k];
      assert forall k | 0 <= k < n :: ReadUpTo(f, init, k) == ReadUpTo(f, lines, k);
      if Gather(f, init).1 {
        var k :| 0 <= k < n && f(init[k]).Failure?;
        assert f(lines[k]).Failure?;
      } else {
        assert forall k | 0 <= k < n :: f(lines[k]).Success?;
        if f(lines[n]).Success? {
          assert ReadUpTo(f, lines, n);
        }
      }
    }
  }

  /** The addresses `load_ip_list` collects from the file, duplicates included. */
  function Collected(x: V6Syntax, file: IpParser.FileContent): seq<string>
  {
    match file
    case Missing => []
    case Read(lines, _) => Gather(LineReader(x), lines).0
  }

  predicate NoDuplicates(s: seq<string>)
  {
    forall i, j | 0 <= i < j < |s| :: s[i] != s[j]
  }

  /**
   * load_ip_list: the addresses of every line up to the first one that
   * raises, without duplicates.  A missing file gives [], and a read error
   * keeps what was gathered before it.
   */
  method LoadIpList(x: V6Syntax, file: IpParser.FileContent) returns (unique: seq<string>)
    ensures NoDuplicates(unique)
    ensures forall ip :: ip in unique <==> ip in Collected(x, file)
  {
    var ips: seq<string> := [];
    if file.Read? {
      var lines := file.lines;
      var i := 0;
      var raised := false;
      while i < |lines| && !raised
        invariant 0 <= i <= |lines|
        invariant Gather(LineReader(x), lines[..i]) == (ips, raised)
        invariant raised ==> Gather(LineReader(x), lines) == (ips, true)
      {
        GatherStep(LineReader(x), lines, i);
        ips, raised := AddLine(x, lines[i], ips);
        i := i + 1;
        if raised {
          GatherStops(LineReader(x), lines, i);
        }
      }
      if !raised {
        assert lines[..i] == lines;
      }
    }
    unique := Dedup(ips);
  }

  /** The body of load_ip_list's loop for one line. */
  method AddLine(x: V6Syntax, raw: string, acc: seq<string>) returns (ips: seq<string>, raised: bool)
    ensures raised <==> LineTargets(x, raw).Failure?
    ensures ips == if raised then acc else acc + LineTargets(x, raw).value
  {
    var line := Text.Strip(raw);
    ips, raised := acc, false;
    if line != "" && !Text.StartsWith(line, "#") {
      var shape := PortScanner.ShapeOf(x, line);
      if shape.Mixed? {
        raised := true;
      } else {
        var overflow;
        ips, overflow := PortScanner.AppendTargets(x, shape, acc);
      }
    }
  }

  lemma GatherStep(f: string -> Result<seq<string>, string>, lines: seq<string>, i: nat)
    requires i < |lines|
    ensures Gather(f, lines[..i + 1]) ==
              var prev := Gather(f, lines[..i]);
              var t := f(lines[i]);
              if prev.1 then prev else if t.Failure? then (prev.0, true) else (prev.0 + t.value, false)
  {
    assert lines[..i + 1][..i] == lines[..i];
  }

  /** Once the loop has raised, later lines change nothing. */
  lemma {:induction false} GatherStops(f: string -> Result<seq<string>, string>, lines: seq<string>, i: nat)
    requires i <= |lines| && Gather(f, lines[..i]).1
    ensures Gather(f, lines) == Gather(f, lines[..i])
    decreases |lines| - i
  {
    if i < |lines| {
      assert lines[..i + 1][..i] == lines[..i];
      GatherStops(f, lines, i + 1);
    } else {
      assert lines[..i] == lines;
    }
  }

  /** list(set(ips)): the same members, each once. */
  method Dedup(ips: seq<string>) returns (unique: seq<string>)
    ensures NoDuplicates(unique)
    ensures forall ip :: ip in unique <==> ip in ips
  {
    unique := [];
    var i := 0;
    while i < |ips|
      invariant 0 <= i <= |ips|
      invariant NoDuplicates(unique)
      invariant forall ip :: ip in unique <==> ip in ips[..i]
    {
      assert ips[..i + 1] == ips[..i] + [ips[i]];
      if ips[i] !in unique {
        unique := unique + [ips[i]];
      }
      i := i + 1;
    }
    assert ips[..i] == ips;
  }

  // ---------------- credentials ----------------

  /** What one entry of a credential source gives: nothing (skipped), a credential, or a raised error. */
  type Outcome = Option<Result<Credentials, string>>

  predicate Fails(o: Outcome)
  {
    o.Some? && o.value.Failure?
  }

  /** The credentials of the entries, in order, stopping at the first entry that raises. */
  function Collect(os: seq<Outcome>): (r: Result<seq<Credentials>, string>)
    ensures r.Failure? <==> exists i | 0 <= i < |os| :: Fails(os[i])
    ensures r.Success? ==> forall c :: c in r.value <==> exists i | 0 <= i < |os| :: os[i] == Some(Success(c))
    ensures r.Success? ==> |r.value| == Kept(os)
    decreases |os|
  {
    if os == [] then Success([])
    else
      var init := os[..|os| - 1];
      var prev := Collect(init);
      var last := os[|os| - 1];
      assert forall i | 0 <= i < |init| :: init[i] == os[i];
      if prev.Failure? then prev
      else if last.None? then prev
      else if last.value.Failure? then Failure(last.value.error)
      else Success(prev.value + [last.value.value])
  }

  /** The number of entries that are not skipped. */
  function Kept(os: seq<Outcome>): nat
    decreases |os|
  {
    if os == [] then 0 else Kept(os[..|os| - 1]) + (if os[|os| - 1].Some? then 1 else 0)
  }

  /** One step of `Collect`, for loops that walk the entries. */
  lemma CollectStep(os: seq<Outcome>, i: nat)
    requires i < |os|
    ensures Collect(os[..i + 1]) ==
              var prev := Collect(os[..i]);
              if prev.Failure? || os[i].None? then prev
              else if os[i].value.Failure? then Failure(os[i].value.error)
              else Success(prev.value + [os[i].value.value])
  {
    assert os[..i + 1][..i] == os[..i];
  }

  lemma CollectStops(os: seq<Outcome>, i: nat)
    requires i < |os| && Fails(os[i])
    ensures Collect(os).Failure?
  {
  }

  /**
   * A port as DeviceCredentials' range check sees it: only numbers compare
   * (a bool is an int, a whole float such as 2222.0 equals its integer).
   */
  function PortOf(j: Json.Json): (r: Option<int>)
    ensures j.JInt? ==> r == Some(j.i)
    ensures j.JBool? ==> r == Some(if j.b then 1 else 0)
    ensures j.JFloat? ==> (r.Some? <==> j.r == j.r.Floor as real) && (r.Some? ==> r.value as real == j.r)
    ensures !(j.JInt? || j.JBool? || j.JFloat?) ==> r.None?
  {
    match j
    case JInt(i) => Some(i)
    case JBool(b) => Some(if b then 1 else 0)
    case JFloat(x, _) => if x == x.Floor as real then Some(x.Floor) else None
    case _ => None
  }

  /** enable_password from a document: None stays None, anything else is kept as text. */
  function EnableOf(j: Json.Json): Option<string>
  {
    if j.JNull? then None else Some(Json.PyStr(j))
  }

  /**
   * DeviceCredentials(...) on document values: an empty (falsy) username
   * raises ValueError, a port that is not a number raises TypeError, a port
   * out of range raises ValueError.
   */
  function Build(username: Json.Json, password: Json.Json, enable: Json.Json,
                 ssh: Json.Json, telnet: Json.Json, description: Json.Json): (r: Result<Credentials, string>)
    ensures r.Success? <==>
              Json.Truthy(username) && Json.PyStr(username) != "" && PortOf(ssh).Some? && PortOf(telnet).Some?
              && ValidPort(PortOf(ssh).value) && ValidPort(PortOf(telnet).value)
    ensures r.Success? ==> ValidCredentials(r.value)
  {
    var sp := PortOf(ssh);
    var tp := PortOf(telnet);
    // A truthy value prints as non-empty text; for a float that rests on the text the document parser supplies.
    if !Json.Truthy(username) || Json.PyStr(username) == "" then Failure(EmptyUsername)
    else if sp.None? || tp.None? then Failure("'<=' not supported")
    else
      var name := Json.PyStr(username);
      NewCredentials(Credentials(name, Json.PyStr(password), EnableOf(enable), sp.value, tp.value, 10, 10,
                                 Json.PyStr(description)))
  }

  /** One `user:pass[:enable]` text; fields beyond the third are ignored. */
  function ColonCredentials(s: string): (r: Outcome)
    ensures r.Some? <==> ':' in s
    ensures r.Some? && r.value.Success? ==> ValidCredentials(r.value.value)
  {
    var parts := Text.Split(s, ':');
    Text.SplitCount(s, ':');
    Text.CountCharIn(s, ':');
    if |parts| >= 2 then
      Some(NewCredentials(Login(Text.Strip(parts[0]), Text.Strip(parts[1]),
                                if |parts| > 2 then Some(Text.Strip(parts[2])) else None)))
    else None
  }

  /** A mapping entry `username: value` of the dict form. */
  function EntryCredentials(username: string, v: Json.Json): (r: Result<Credentials, string>)
    ensures r.Success? ==> r.value.username == username && ValidCredentials(r.value)
  {
    if v.JObj? then
      Build(Json.JStr(username), Json.GetOr(v, "password", Json.JStr("")), Json.GetOr(v, "enable_password", Json.JNull),
            Json.GetOr(v, "ssh_port", Json.JInt(22)), Json.GetOr(v, "telnet_port", Json.JInt(23)),
            Json.GetOr(v, "description", Json.JStr("")))
    else NewCredentials(Login(username, Json.PyStr(v), None))
  }

  /** One item of the list form: a mapping, a `u:p[:e]` string, or anything else (skipped). */
  function ItemCredentials(item: Json.Json): (r: Outcome)
    ensures !item.JObj? && !item.JStr? ==> r.None?
    ensures r.Some? && r.value.Success? ==> ValidCredentials(r.value.value)
  {
    match item
    case JObj(_) =>
      Some(Build(Json.GetOr(item, "username", Json.JStr("")), Json.GetOr(item, "password", Json.JStr("")),
                 Json.GetOr(item, "enable_password", Json.JNull),
                 Json.GetOr(item, "ssh_port", Json.JInt(22)), Json.GetOr(item, "telnet_port", Json.JInt(23)),
                 Json.GetOr(item, "description", Json.JStr(""))))
    case JStr(s) => ColonCredentials(s)
    case _ => None
  }

  /** One line of the text form. */
  function LineCredentials(raw: string): (r: Outcome)
    ensures r.Some? ==> ':' in Text.Strip(raw)
    ensures r.Some? && r.value.Success? ==> ValidCredentials(r.value.value)
  {
    var line := Text.Strip(raw);
    if line == "" || Text.StartsWith(line, "#") then None else ColonCredentials(line)
  }

  function EntryOutcomes(fields: seq<(string, Json.Json)>): (os: seq<Outcome>)
    ensures |os| == |fields|
    ensures forall i | 0 <= i < |fields| :: os[i] == Some(EntryCredentials(fields[i].0, fields[i].1))
  {
    seq(|fields|, i requires 0 <= i < |fields| => Some(EntryCredentials(fields[i].0, fields[i].1)))
  }

  function ItemOutcomes(items: seq<Json.Json>): (os: seq<Outcome>)
    ensures |os| == |items|
    ensures forall i | 0 <= i < |items| :: os[i] == ItemCredentials(items[i])
  {
    seq(|items|, i requires 0 <= i < |items| => ItemCredentials(items[i]))
  }

  function LineOutcomes(lines: seq<string>): (os: seq<Outcome>)
    ensures |os| == |lines|
    ensures forall i | 0 <= i < |lines| :: os[i] == LineCredentials(lines[i])
  {
    seq(|lines|, i requires 0 <= i < |lines| => LineCredentials(lines[i]))
  }

  /** The credentials `_parse_credentials` returns for a document value, or the error it raises. */
  function StructuredCredentials(data: Json.Json): Result<seq<Credentials>, string>
  {
    match data
    case JObj(fields) => Collect(EntryOutcomes(fields))
    case JList(items) => Collect(ItemOutcomes(items))
    case _ => Success([])
  }

  /** The credentials `_parse_text_credentials` returns, or the error it raises. */
  function TextCredentials(content: string): Result<seq<Credentials>, string>
  {
    Collect(LineOutcomes(Text.Split(content, '\n')))
  }

  /** _parse_credentials */
  method ParseCredentials(data: Json.Json) returns (r: Result<seq<Credentials>, string>)
    ensures r == StructuredCredentials(data)
  {
    var os: seq<Outcome>;
    if data.JObj? {
      os := EntryOutcomes(data.fields);
    } else if data.JList? {
      os := ItemOutcomes(data.items);
    } else {
      return Success([]);
    }
    r := CollectAll(os);
  }

  /** _parse_text_credentials */
  method ParseTextCredentials(content: string) returns (r: Result<seq<Credentials>, string>)
    ensures r == TextCredentials(content)
  {
    r := CollectAll(LineOutcomes(Text.Split(content, '\n')));
  }

  /** The accumulation loop shared by both parsers: append each credential, stop at the first error. */
  method CollectAll(os: seq<Outcome>) returns (r: Result<seq<Credentials>, string>)
    ensures r == Collect(os)
  {
    var creds: seq<Credentials> := [];
    var i := 0;
    while i < |os|
      invariant 0 <= i <= |os|
      invariant Collect(os[..i]) == Success(creds)
    {
      CollectStep(os, i);
      var o := os[i];
      if o.Some? {
        if o.value.Failure? {
          CollectStops(os, i);
          CollectFailure(os, i);
          return Failure(o.value.error);
        }
        creds := creds + [o.value.value];
      }
      i := i + 1;
    }
    assert os[..i] == os;
    return Success(creds);
  }

  /** The error that stops the loop is the one `Collect` reports. */
  lemma {:induction false} CollectFailure(os: seq<Outcome>, i: nat)
    requires i < |os| && Fails(os[i]) && Collect(os[..i]).Success?
    ensures Collect(os) == Failure(os[i].value.error)
    decreases |os| - i
  {
    if i + 1 < |os| {
      assert os[..i + 1][..i] == os[..i];
      CollectFailed(os, i + 1);
    } else {
      assert os[..i + 1] == os;
    }
  }

  /** Once `Collect` has failed on a prefix, the failure carries to the whole. */
  lemma {:induction false} CollectFailed(os: seq<Outcome>, i: nat)
    requires 0 < i <= |os| && Collect(os[..i]).Failure?
    ensures Collect(os) == Collect(os[..i])
    decreases |os| - i
  {
    if i < |os| {
      assert os[..i + 1][..i] == os[..i];
      CollectFailed(os, i + 1);
    } else {
      assert os[..i] == os;
    }
  }

  /** The credentials of entries that all constructed. */
  function Values(os: seq<Outcome>): (cs: seq<Credentials>)
    requires forall i | 0 <= i < |os| :: os[i].Some? && os[i].value.Success?
    ensures |cs| == |os|
    ensures forall i | 0 <= i < |os| :: os[i] == Some(Success(cs[i]))
  {
    seq(|os|, i requires 0 <= i < |os| && os[i].Some? && os[i].value.Success? => os[i].value.value)
  }

  /** When no entry is skipped and none raises, `Collect` keeps every credential, in entry order. */
  lemma {:induction false} CollectEvery(os: seq<Outcome>)
    requires forall i | 0 <= i < |os| :: os[i].Some? && os[i].value.Success?
    ensures Collect(os) == Success(Values(os))
    decreases |os|
  {
    if os != [] {
      var init := os[..|os| - 1];
      assert forall i | 0 <= i < |init| :: init[i] == os[i];
      CollectEvery(init);
      assert Values(os) == Values(init) + [os[|os| - 1].value.value];
    }
  }

  /** Every credential `Collect` keeps comes from an entry whose construction succeeded. */
  lemma CollectValid(os: seq<Outcome>)
    requires forall i | 0 <= i < |os| :: os[i].Some? && os[i].value.Success? ==> ValidCredentials(os[i].value.value)
    ensures Collect(os).Success? ==> forall c | c in Collect(os).value :: ValidCredentials(c)
  {
    if Collect(os).Success? {
      forall c | c in Collect(os).value
        ensures ValidCredentials(c)
      {
        var i :| 0 <= i < |os| && os[i] == Some(Success(c));
      }
    }
  }

  /**
   * The dict form: when every entry constructs, there is one credential per
   * key, in the document's key order, and the key is the username.
   */
  lemma DictForm(fields: seq<(string, Json.Json)>)
    requires forall i | 0 <= i < |fields| :: EntryCredentials(fields[i].0, fields[i].1).Success?
    ensures StructuredCredentials(Json.JObj(fields)).Success?
    ensures |StructuredCredentials(Json.JObj(fields)).value| == |fields|
    ensures forall i | 0 <= i < |fields| ::
              StructuredCredentials(Json.JObj(fields)).value[i].username == fields[i].0
  {
    CollectEvery(EntryOutcomes(fields));
  }

  /** A scalar value of the dict form is the password, with the default ports and no enable password. */
  lemma ScalarEntry(username: string, v: Json.Json)
    requires username != "" && !v.JObj?
    ensures EntryCredentials(username, v) == Success(Login(username, Json.PyStr(v), None))
  {
  }

  /** A mapping value without port keys gets ports 22 and 23. */
  lemma MappingEntryPorts(username: string, v: Json.Json)
    requires username != "" && v.JObj? && !Json.Has(v, "ssh_port") && !Json.Has(v, "telnet_port")
    ensures EntryCredentials(username, v).Success?
    ensures EntryCredentials(username, v).value.sshPort == 22
    ensures EntryCredentials(username, v).value.telnetPort == 23
  {
  }

  /**
   * `str(d.get(key, ''))` as the model keeps it: the value's text, or "" when
   * the key is absent.  A text value is kept as it is.
   */
  function TextField(v: Json.Json, key: string): (r: string)
    ensures !Json.Has(v, key) ==> r == ""
    ensures Json.Get(v, key).Some? && Json.Get(v, key).value.JStr? ==> r == Json.Get(v, key).value.s
  {
    if Json.Has(v, key) then Json.PyStr(Json.Get(v, key).value) else ""
  }

  /** `d.get(key, default)` read as a port: the given value's number, or the default when absent. */
  function PortField(v: Json.Json, key: string, default: int): (r: Option<int>)
    ensures !Json.Has(v, key) ==> r == Some(default)
    ensures Json.Has(v, key) && Json.Get(v, key).value.JInt? ==> r == Some(Json.Get(v, key).value.i)
  {
    if Json.Has(v, key) then PortOf(Json.Get(v, key).value) else Some(default)
  }

  /**
   * What a mapping-shaped document entry gives to DeviceCredentials once it is
   * built: the password and description as given ("" when absent), no enable
   * password exactly when the key is absent or null, the given ports (22 and
   * 23 when absent) and both timeouts at 10.
   */
  predicate FieldsFrom(c: Credentials, v: Json.Json)
    requires v.JObj?
  {
    && c.password == TextField(v, "password")
    && (c.enablePassword.None? <==> !Json.Has(v, "enable_password") || Json.Get(v, "enable_password").value.JNull?)
    && (c.enablePassword.Some? ==> c.enablePassword.value == Json.PyStr(Json.Get(v, "enable_password").value))
    && PortField(v, "ssh_port", 22) == Some(c.sshPort)
    && PortField(v, "telnet_port", 23) == Some(c.telnetPort)
    && c.sshTimeout == 10 && c.telnetTimeout == 10
    && c.description == TextField(v, "description")
  }

  /** Both ports of a mapping entry are numbers in 1..65535. */
  predicate PortsAccepted(v: Json.Json)
  {
    && PortField(v, "ssh_port", 22).Some? && ValidPort(PortField(v, "ssh_port", 22).value)
    && PortField(v, "telnet_port", 23).Some? && ValidPort(PortField(v, "telnet_port", 23).value)
  }

  /**
   * The dict form `{username: {...}}`: the entry builds exactly when the key
   * is non-empty and both ports are accepted, and then the key is the username
   * and every other field is taken from the mapping.
   */
  lemma MappingEntry(username: string, v: Json.Json)
    requires v.JObj?
    ensures EntryCredentials(username, v).Success? <==> username != "" && PortsAccepted(v)
    ensures EntryCredentials(username, v).Success? ==>
              EntryCredentials(username, v).value.username == username && FieldsFrom(EntryCredentials(username, v).value, v)
  {
  }

  /**
   * The list form `[{username: ..., ...}]`: the item builds exactly when its
   * username is present, truthy and prints as non-empty text and both ports
   * are accepted, and then every field is taken from the mapping.
   */
  lemma ListItem(item: Json.Json)
    requires item.JObj?
    ensures ItemCredentials(item).Some?
    ensures ItemCredentials(item).value.Success? <==>
              Json.Has(item, "username") && Json.Truthy(Json.Get(item, "username").value)
              && TextField(item, "username") != "" && PortsAccepted(item)
    ensures ItemCredentials(item).value.Success? ==>
              ItemCredentials(item).value.value.username == TextField(item, "username")
              && FieldsFrom(ItemCredentials(item).value.value, item)
  {
  }

  /**
   * A `u:p[:e]` text made of fields without ':' gives a credential from the
   * first three stripped fields; any further field is ignored.
   */
  lemma ColonFields(parts: seq<string>)
    requires |parts| >= 2
    requires forall k | 0 <= k < |parts| :: ':' !in parts[k]
    ensures ColonCredentials(Text.Join(parts, ':')) ==
              Some(NewCredentials(Login(Text.Strip(parts[0]), Text.Strip(parts[1]),
                                        if |parts| > 2 then Some(Text.Strip(parts[2])) else None)))
  {
    Text.SplitJoin(parts, ':');
  }

  /** The `user:pass[:enable]` text of a login. */
  function ColonText(c: Credentials): (s: string)
    ensures ':' in s
  {
    if c.enablePassword.Some? then c.username + ":" + c.password + ":" + c.enablePassword.value
    else c.username + ":" + c.password
  }

  /** The fields of that text. */
  function ColonParts(c: Credentials): (parts: seq<string>)
    ensures |parts| == if c.enablePassword.Some? then 3 else 2
  {
    [c.username, c.password] + if c.enablePassword.Some? then [c.enablePassword.value] else []
  }

  /** The text is its fields joined with ':'. */
  lemma ColonTextJoin(c: Credentials)
    ensures Text.Join(ColonParts(c), ':') == ColonText(c)
  {
    var parts := ColonParts(c);
    if c.enablePassword.Some? {
      var e := c.enablePassword.value;
      assert parts[1..] == [c.password, e];
      assert parts[1..][1..] == [e];
      assert Text.Join(parts[1..], ':') == c.password + [':'] + e;
      assert ColonText(c) == c.username + [':'] + (c.password + [':'] + e);
    } else {
      assert parts == [c.username, c.password];
    }
  }

  /** Writing a login as `user:pass[:enable]` and parsing it back gives the same login. */
  lemma ColonRoundTrip(c: Credentials)
    requires c == Login(c.username, c.password, c.enablePassword) && c.username != ""
    requires ':' !in c.username && ':' !in c.password
    requires Text.Strip(c.username) == c.username && Text.Strip(c.password) == c.password
    requires c.enablePassword.Some? ==>
               ':' !in c.enablePassword.value && Text.Strip(c.enablePassword.value) == c.enablePassword.value
    ensures ColonCredentials(ColonText(c)) == Some(Success(c))
  {
    var parts := ColonParts(c);
    ColonTextJoin(c);
    assert parts[0] == c.username && parts[1] == c.password;
    assert |parts| > 2 ==> parts[2] == c.enablePassword.value;
    ColonFields(parts);
  }

  // ---------------- load_credentials ----------------

  /** What opening and reading the credentials file gives. */
  datatype Source = NotFound | Unreadable | Content(text: string)

  /** What a document parser (yaml.safe_load, json.loads) makes of the text. */
  datatype Decoded = Loaded(j: Json.Json) | Malformed

  predicate Present(d: Decoded)
  {
    d.Loaded? && !d.j.JNull?
  }

  /**
   * The `data` of load_credentials: the YAML reading, or the JSON reading
   * when YAML gave nothing; None sends the text to the line parser.
   */
  function Document(text: string, yaml: string -> Decoded, json: string -> Decoded): (r: Option<Json.Json>)
    ensures r.None? <==> !Present(yaml(text)) && !Present(json(text))
    ensures Present(yaml(text)) ==> r == Some(yaml(text).j)
    ensures r.Some? ==> !r.value.JNull?
  {
    if Present(yaml(text)) then Some(yaml(text).j)
    else if Present(json(text)) then Some(json(text).j)
    else None
  }

  /** The nine built-in logins. */
  const Defaults: seq<Credentials> := [
    Login("admin", "admin", Some("admin")),
    Login("cisco", "cisco", Some("cisco")),
    Login("admin", "password", Some("password")),
    Login("root", "password", None),
    Login("ubnt", "ubnt", None),
    Login("mikrotik", "", None),
    Login("operator", "operator", None),
    Login("user", "user", None),
    Login("administrator", "administrator", None)
  ]

  /** What the file's content parses to, or the error the parse raises. */
  function Parsed(text: string, yaml: string -> Decoded, json: string -> Decoded): (r: Result<seq<Credentials>, string>)
    ensures r.Success? ==> forall c | c in r.value :: ValidCredentials(c)
  {
    match Document(text, yaml, json)
    case Some(data) =>
      StructuredValid(data);
      StructuredCredentials(data)
    case None =>
      CollectValid(LineOutcomes(Text.Split(text, '\n')));
      TextCredentials(text)
  }

  lemma StructuredValid(data: Json.Json)
    ensures StructuredCredentials(data).Success? ==> forall c | c in StructuredCredentials(data).value :: ValidCredentials(c)
  {
    match data
    case JObj(fields) => CollectValid(EntryOutcomes(fields));
    case JList(items) => CollectValid(ItemOutcomes(items));
    case _ =>
  }

  /** The list load_credentials returns. */
  function LoadedCredentials(src: Source, yaml: string -> Decoded, json: string -> Decoded): (r: seq<Credentials>)
    ensures |r| > 0
    ensures forall c | c in r :: ValidCredentials(c)
    ensures src.Content? && Parsed(src.text, yaml, json).Success? && Parsed(src.text, yaml, json).value != [] ==>
              r == Parsed(src.text, yaml, json).value
    ensures !src.Content? || Parsed(src.text, yaml, json).Failure? || Parsed(src.text, yaml, json).value == [] ==>
              r == Defaults
  {
    if src.Content? && Parsed(src.text, yaml, json).Success? && Parsed(src.text, yaml, json).value != [] then
      Parsed(src.text, yaml, json).value
    else Defaults
  }

  /** load_credentials */
  method LoadCredentials(src: Source, yaml: string -> Decoded, json: string -> Decoded) returns (creds: seq<Credentials>)
    ensures creds == LoadedCredentials(src, yaml, json)
  {
    creds := [];
    if src.NotFound? || src.Unreadable? {
      creds := Defaults;
    } else {
      var data := Document(src.text, yaml, json);
      var r;
      if data.Some? {
        r := ParseCredentials(data.value);
      } else {
        r := ParseTextCredentials(src.text);
      }
      if r.Failure? {
        creds := Defaults;
      } else {
        creds := r.value;
      }
    }
    if creds == [] {
      creds := Defaults;
    }
  }
}
