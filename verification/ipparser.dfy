/**
 * Target expansion of the ping scanner (net_scanner/ip_parser.py): one line
 * of a target file becomes the set of address strings it denotes.  A line
 * may hold a single address, a CIDR block (section 3.1 of RFC 4632), a
 * start-end range or a comma list; blocks and ranges are capped in size.
 * Also: dropping loopback, link-local and private addresses (section 3 of
 * RFC 1918), sorting, and the counters of a file check.
 *
 * `LineAddresses` is the specification of one line; the method `ParseLine`
 * builds the same set with the loops of the original.
 */
module IpParser {
  import opened Wrappers
  import Text
  import Rx
  import opened Address

  // ---------------- normalisation ----------------

  /** `\s*c\s*` */
  function SpacedSep(c: char): Rx.Pattern
  {
    [[Rx.Atom(Rx.Space, Rx.Star), Rx.Atom(Rx.Chr(c), Rx.One), Rx.Atom(Rx.Space, Rx.Star)]]
  }

  /** The two re.sub calls that remove whitespace around '/' and then around '-'. */
  function Normalize(line: string): (r: string)
    ensures |r| <= |line|
  {
    var a := Rx.Sub(SpacedSep('/'), "/", line, 0);
    Rx.SubLength(SpacedSep('/'), "/", line, 0);
    Rx.SubLength(SpacedSep('-'), "-", a, 0);
    Rx.Sub(SpacedSep('-'), "-", a, 0)
  }

  /** The early mask check: `addr/digits` with a prefix above 32 on a dotted address or above 128 on a colon address. */
  predicate MaskRejected(l: string)
  {
    var parts := Text.Split(l, '/');
    '/' in l && |parts| == 2 &&
    var address, mask := Text.Strip(parts[0]), Text.Strip(parts[1]);
    Text.IsDigits(mask)
    && (('.' in address && Text.DigitsValue(mask) > 32) || (':' in address && Text.DigitsValue(mask) > 128))
  }

  // ---------------- what one line denotes ----------------

  /** str() of the address with value `v` in family `f`. */
  function AddrText(x: V6Syntax, f: Family, v: nat): string
    requires v < Size(f)
  {
    Show(x, Addr(f, v))
  }

  /** The text of the hosts of `n` below the value `upto`. */
  function HostTexts(x: V6Syntax, n: Network, upto: nat): set<string>
    requires ValidNetwork(n) && upto <= HostHigh(n) + 1
  {
    BroadcastInRange(n);
    set v: nat | HostLow(n) <= v < upto :: AddrText(x, n.family, v)
  }

  /** The text of the IPv4 addresses from `lo` up to, not including, `upto`. */
  function RangeTexts(lo: nat, upto: nat): set<string>
    requires upto <= V4Size
  {
    set v: nat | lo <= v < upto :: FormatIPv4(v)
  }

  lemma HostTextsStep(x: V6Syntax, n: Network, v: nat)
    requires ValidNetwork(n) && HostLow(n) <= v <= HostHigh(n) && Broadcast(n) < Size(n.family)
    ensures HostTexts(x, n, v + 1) == HostTexts(x, n, v) + {AddrText(x, n.family, v)}
  {
    BroadcastInRange(n);
  }

  lemma RangeTextsStep(lo: nat, v: nat)
    requires lo <= v < V4Size
    ensures RangeTexts(lo, v + 1) == RangeTexts(lo, v) + {FormatIPv4(v)}
  {
  }

  /** The CIDR branch: the addresses of the parsed network, or nothing when the text is not a network. */
  function CidrAddresses(x: V6Syntax, l: string): set<string>
  {
    var net := ParseNetwork(x, l);
    if net.None? then {} else NetworkAddresses(x, net.value)
  }

  /** Hosts of a block of at most 65536 addresses, else only network[1] and network[-2]. */
  function NetworkAddresses(x: V6Syntax, n: Network): set<string>
    requires ValidNetwork(n)
  {
    BroadcastInRange(n);
    if NumAddresses(n) > 65536 then {AddrText(x, n.family, n.base + 1), AddrText(x, n.family, Broadcast(n) - 1)}
    else HostTexts(x, n, HostHigh(n) + 1)
  }

  /** The range branch, for a line with exactly one '-'. */
  function RangeAddresses(x: V6Syntax, l: string): set<string>
    requires Text.CountChar(l, '-') == 1
  {
    Text.SplitCount(l, '-');
    var parts := Text.Split(l, '-');
    EndpointsAddresses(x, Text.Strip(parts[0]), Text.Strip(parts[1]))
  }

  /** A range between two address texts: same family required; IPv4 capped at 1000 addresses, IPv6 only the ends. */
  function EndpointsAddresses(x: V6Syntax, first: string, last: string): set<string>
  {
    var start, end := ParseAddr(x, first), ParseAddr(x, last);
    if start.None? || end.None? then {}
    else
      var s, e := start.value, end.value;
      if s.family != e.family then {}
      else if s.family == IPv6 then {Show(x, s), Show(x, e)}
      else if s.value > e.value then {}
      else if e.value - s.value + 1 > 1000 then {Show(x, s), Show(x, e)}
      else RangeTexts(s.value, e.value + 1)
  }

  /** The set of address strings one line of a target file yields (IPParser.parse_line). */
  function LineAddresses(x: V6Syntax, raw: string): set<string>
    decreases |raw|, 2
  {
    Text.StripShape(raw);
    StrippedAddresses(x, Text.Strip(raw))
  }

  /** parse_line after its first step, the strip. */
  function StrippedAddresses(x: V6Syntax, line: string): set<string>
    decreases |line|, 1
  {
    if line == "" || line[0] == '#' then {}
    else
      var l := Normalize(line);
      if MaskRejected(l) then {}
      else if ParseAddr(x, l).Some? then {Show(x, ParseAddr(x, l).value)}
      else if '/' in l then CidrAddresses(x, l)
      else if '-' in l && Text.CountChar(l, '-') == 1 then RangeAddresses(x, l)
      else if ',' in l then
        Text.SplitShorter(l, ',');
        PartsAddresses(x, Text.Split(l, ','), |l|)
      else {}
  }

  /** The comma branch: the union of the sets of the parts. */
  function PartsAddresses(x: V6Syntax, parts: seq<string>, bound: nat): set<string>
    requires forall k | 0 <= k < |parts| :: |parts[k]| < bound
    decreases bound, 0, |parts|
  {
    if |parts| == 0 then {}
    else PartsAddresses(x, parts[..|parts| - 1], bound) + PartAddresses(x, parts[|parts| - 1])
  }

  /** One part of a comma list: stripped, skipped when blank, otherwise parsed as a line. */
  function PartAddresses(x: V6Syntax, part: string): set<string>
    decreases |part|, 3
  {
    var p := Text.Strip(part);
    if p != "" then LineAddresses(x, p) else {}
  }

  // ---------------- the parser ----------------

  /** IPParser.parse_line */
  method ParseLine(x: V6Syntax, raw: string) returns (ips: set<string>)
    ensures ips == LineAddresses(x, raw)
    decreases |raw|, 2
  {
    ips := {};
    var line := Text.Strip(raw);
    Text.StripShape(raw);
    if line == "" || line[0] == '#' {
      return;
    }
    line := Normalize(line);
    if MaskRejected(line) {
      return;
    }
    var ip := ParseAddr(x, line);
    if ip.Some? {
      ips := {Show(x, ip.value)};
    } else if '/' in line {
      ips := ExpandCidr(x, line);
    } else if '-' in line && Text.CountChar(line, '-') == 1 {
      ips := ExpandRange(x, line);
    } else if ',' in line {
      Text.SplitShorter(line, ',');
      ips := ExpandParts(x, Text.Split(line, ','), |line|);
    }
  }

  /** The comma branch: each non-blank stripped part is parsed as a line of its own. */
  method ExpandParts(x: V6Syntax, parts: seq<string>, bound: nat) returns (ips: set<string>)
    requires forall k | 0 <= k < |parts| :: |parts[k]| < bound
    ensures ips == PartsAddresses(x, parts, bound)
    decreases bound, 0, |parts|
  {
    ips := {};
    var i := 0;
    while i < |parts|
      invariant 0 <= i <= |parts|
      invariant ips == PartsAddresses(x, parts[..i], bound)
    {
      var part := Text.Strip(parts[i]);
      PartsStep(x, parts, bound, i);
      var found: set<string> := {};
      if part != "" {
        found := ParseLine(x, part);
      }
      assert found == PartAddresses(x, parts[i]);
      ips := ips + found;
      i := i + 1;
    }
    assert parts[..|parts|] == parts;
  }

  /** The union over one more part. */
  lemma PartsStep(x: V6Syntax, parts: seq<string>, bound: nat, i: nat)
    requires forall k | 0 <= k < |parts| :: |parts[k]| < bound
    requires i < |parts|
    ensures PartsAddresses(x, parts[..i + 1], bound) == PartsAddresses(x, parts[..i], bound) + PartAddresses(x, parts[i])
  {
    assert parts[..i + 1][..i] == parts[..i];
  }

  /** The CIDR branch of parse_line. */
  method ExpandCidr(x: V6Syntax, l: string) returns (ips: set<string>)
    ensures ips == CidrAddresses(x, l)
  {
    var net := ParseNetwork(x, l);
    if net.None? {
      ips := {};
    } else {
      ips := ExpandNetwork(x, net.value);
    }
  }

  /** What parse_line adds for a parsed network. */
  method ExpandNetwork(x: V6Syntax, n: Network) returns (ips: set<string>)
    requires ValidNetwork(n)
    ensures ips == NetworkAddresses(x, n)
  {
    BroadcastInRange(n);
    if NumAddresses(n) > 65536 {
      ips := {AddrText(x, n.family, n.base + 1), AddrText(x, n.family, Broadcast(n) - 1)};
    } else {
      ips := NetworkHosts(x, n);
    }
  }

  /** The loop over network.hosts(). */
  method NetworkHosts(x: V6Syntax, n: Network) returns (ips: set<string>)
    requires ValidNetwork(n)
    ensures ips == HostTexts(x, n, HostHigh(n) + 1)
  {
    BroadcastInRange(n);
    ips := {};
    var v := HostLow(n);
    while v <= HostHigh(n)
      invariant HostLow(n) <= v <= HostHigh(n) + 1
      invariant ips == HostTexts(x, n, v)
    {
      HostTextsStep(x, n, v);
      ips := ips + {AddrText(x, n.family, v)};
      v := v + 1;
    }
  }

  /** The range branch of parse_line. */
  method ExpandRange(x: V6Syntax, l: string) returns (ips: set<string>)
    requires Text.CountChar(l, '-') == 1
    ensures ips == RangeAddresses(x, l)
  {
    Text.SplitCount(l, '-');
    var parts := Text.Split(l, '-');
    ips := ExpandEndpoints(x, Text.Strip(parts[0]), Text.Strip(parts[1]));
  }

  /** The range between two address texts, with the loop over range(start_int, end_int + 1). */
  method ExpandEndpoints(x: V6Syntax, first: string, last: string) returns (ips: set<string>)
    ensures ips == EndpointsAddresses(x, first, last)
  {
    ips := {};
    var start := ParseAddr(x, first);
    var end := ParseAddr(x, last);
    if start.None? || end.None? {
      return;
    }
    var s, e := start.value, end.value;
    if s.family != e.family {
      return;
    }
    if s.family == IPv4 {
      if s.value > e.value {
        return;
      }
      if e.value - s.value + 1 > 1000 {
        ips := {Show(x, s), Show(x, e)};
      } else {
        var v := s.value;
        while v <= e.value
          invariant s.value <= v <= e.value + 1
          invariant ips == RangeTexts(s.value, v)
        {
          RangeTextsStep(s.value, v);
          ips := ips + {FormatIPv4(v)};
          v := v + 1;
        }
      }
    } else {
      ips := {Show(x, s), Show(x, e)};
    }
  }

  // ---------------- properties of one line ----------------

  predicate NoSpace(t: string)
  {
    forall j | 0 <= j < |t| :: !Text.IsSpace(t[j])
  }

  /** On text without whitespace, `\s*c\s*` matches exactly one `c`. */
  lemma SepMatch(c: char, t: string, i: nat)
    requires i <= |t| && NoSpace(t)
    ensures Rx.MatchAt(SpacedSep(c), t, i, false) == if i < |t| && t[i] == c then Some(Rx.Hit(i + 1, "")) else None
  {
    var p := SpacedSep(c)[0];
    assert Rx.MatchAt(SpacedSep(c), t, i, false) == Rx.MatchFrom(p, 0, t, i, false, i, "");
    assert Rx.MatchFrom(p, 0, t, i, false, i, "") == Rx.MatchFrom(p, 1, t, i, false, i, "");
    if i < |t| && t[i] == c {
      assert Rx.MatchFrom(p, 2, t, i + 1, false, i, "") == Rx.MatchFrom(p, 3, t, i + 1, false, i, "");
      assert Rx.MatchFrom(p, 1, t, i, false, i, "") == Rx.MatchFrom(p, 2, t, i + 1, false, i, "");
    } else {
      assert Rx.MatchFrom(p, 1, t, i, false, i, "") == None;
    }
  }

  lemma {:induction false} SubKeeps(c: char, t: string, i: nat)
    requires i <= |t| && NoSpace(t)
    ensures Rx.Sub(SpacedSep(c), [c], t, i) == t[i..]
    decreases |t| - i
  {
    if i < |t| {
      SepMatch(c, t, i);
      SubKeeps(c, t, i + 1);
      assert t[i..] == [t[i]] + t[i + 1..];
    }
  }

  /** Text without whitespace is left alone by the normalisation. */
  lemma NormalizeKeeps(t: string)
    requires NoSpace(t)
    ensures Normalize(t) == t
  {
    SubKeeps('/', t, 0);
    SubKeeps('-', t, 0);
    assert t[0..] == t;
  }

  /** What valid IPv4 text looks like: digits and dots, at least one dot. */
  lemma IPv4Text(a: string)
    requires ParseIPv4(a).Some?
    ensures |a| > 0 && '.' in a && NoSpace(a) && '/' !in a && '-' !in a && ':' !in a && a[0] != '#'
    ensures forall j | 0 <= j < |a| :: Text.IsAsciiDigit(a[j]) || a[j] == '.'
  {
    IPv4TextChars(a);
    Text.SplitCount(a, '.');
    Text.CountCharIn(a, '.');
  }

  /** Text holding a character other than a digit or a dot is not IPv4 text. */
  lemma NotIPv4(l: string, c: char)
    requires c in l && c != '.' && !Text.IsAsciiDigit(c)
    ensures ParseIPv4(l).None?
  {
    if ParseIPv4(l).Some? {
      IPv4TextChars(l);
    }
  }

  /** Blank lines and comment lines yield nothing. */
  lemma BlankOrComment(x: V6Syntax, raw: string)
    requires Text.Strip(raw) == "" || Text.Strip(raw)[0] == '#'
    ensures LineAddresses(x, raw) == {}
  {
  }

  /** A line holding one IPv4 address yields exactly that address. */
  lemma SingleIPv4(x: V6Syntax, s: string)
    requires ParseIPv4(s).Some?
    ensures LineAddresses(x, s) == {s}
  {
    IPv4Text(s);
    Text.StripKeeps(s);
    NormalizeKeeps(s);
    FormatParseIPv4(s);
  }

  /**
   * Once the line holds a '/', the CIDR branch decides it: no later branch
   * (the comma list, the dotted netmask) is ever reached.
   */
  lemma SlashDecides(x: V6Syntax, raw: string)
    requires Text.Strip(raw) != "" && Text.Strip(raw)[0] != '#'
    requires '/' in Normalize(Text.Strip(raw))
    ensures var l := Normalize(Text.Strip(raw));
      LineAddresses(x, raw) == if MaskRejected(l) then {} else CidrAddresses(x, l)
  {
    NotIPv4(Normalize(Text.Strip(raw)), '/');
  }

  /** A line with two or more '/' (a comma list of CIDR blocks, say) yields nothing at all. */
  lemma ManySlashes(x: V6Syntax, raw: string)
    requires Text.Strip(raw) != "" && Text.Strip(raw)[0] != '#'
    requires Text.CountChar(Normalize(Text.Strip(raw)), '/') >= 2
    ensures LineAddresses(x, raw) == {}
  {
    var l := Normalize(Text.Strip(raw));
    Text.CountCharIn(l, '/');
    SlashDecides(x, raw);
    Text.SplitCount(l, '/');
    assert ParseNetworkOf(x, IPv4, l).None?;
    assert ParseNetworkOf(x, IPv6, l).None?;
  }

  /** Membership in RangeTexts, by value. */
  lemma RangeTextsHas(lo: nat, upto: nat, v: nat)
    requires upto <= V4Size && v < V4Size
    ensures FormatIPv4(v) in RangeTexts(lo, upto) <==> lo <= v < upto
  {
    if FormatIPv4(v) in RangeTexts(lo, upto) {
      var w: nat :| lo <= w < upto && FormatIPv4(w) == FormatIPv4(v);
      FormatIPv4Injective(v, w);
    }
  }

  /** Membership in HostTexts of an IPv4 network, by value. */
  lemma HostTextsHas(x: V6Syntax, n: Network, upto: nat, v: nat)
    requires ValidNetwork(n) && n.family == IPv4 && upto <= HostHigh(n) + 1 && v < V4Size
    ensures FormatIPv4(v) in HostTexts(x, n, upto) <==> HostLow(n) <= v < upto
  {
    BroadcastInRange(n);
    if FormatIPv4(v) in HostTexts(x, n, upto) {
      var w: nat :| HostLow(n) <= w < upto && AddrText(x, IPv4, w) == FormatIPv4(v);
      FormatIPv4Injective(v, w);
    }
    if HostLow(n) <= v < upto {
      assert AddrText(x, IPv4, v) in HostTexts(x, n, upto);
    }
  }

  /**
   * The addresses of a parsed IPv4 network: every usable host for blocks of
   * at most 65536 addresses (network and broadcast left out from /30 down),
   * otherwise only the second and the next-to-last address.
   */
  lemma NetworkAddressesV4(x: V6Syntax, n: Network)
    requires ValidNetwork(n) && n.family == IPv4
    ensures forall v: nat | v < V4Size ::
      FormatIPv4(v) in NetworkAddresses(x, n) <==>
        if NumAddresses(n) > 65536 then v == n.base + 1 || v == Broadcast(n) - 1
        else HostLow(n) <= v <= HostHigh(n)
    ensures NumAddresses(n) <= 65536 && n.prefix <= 30 ==>
      forall v: nat | v < V4Size :: FormatIPv4(v) in NetworkAddresses(x, n) <==> n.base < v < Broadcast(n)
  {
    if NumAddresses(n) > 65536 {
      LargeNetworkV4(x, n);
    } else {
      forall v: nat | v < V4Size
        ensures FormatIPv4(v) in NetworkAddresses(x, n) <==> HostLow(n) <= v <= HostHigh(n)
      {
        HostTextsHas(x, n, HostHigh(n) + 1, v);
      }
    }
  }

  lemma LargeNetworkV4(x: V6Syntax, n: Network)
    requires ValidNetwork(n) && n.family == IPv4 && NumAddresses(n) > 65536
    ensures forall v: nat | v < V4Size ::
      FormatIPv4(v) in NetworkAddresses(x, n) <==> v == n.base + 1 || v == Broadcast(n) - 1
  {
    BroadcastInRange(n);
    var first, last := n.base + 1, Broadcast(n) - 1;
    LargeNetworkSet(x, n);
    forall v: nat | v < V4Size
      ensures FormatIPv4(v) in {FormatIPv4(first), FormatIPv4(last)} <==> v == first || v == last
    {
      PairHas(first, last, v);
    }
  }

  lemma LargeNetworkSet(x: V6Syntax, n: Network)
    requires ValidNetwork(n) && n.family == IPv4 && NumAddresses(n) > 65536
    ensures Broadcast(n) < V4Size
    ensures NetworkAddresses(x, n) == {FormatIPv4(n.base + 1), FormatIPv4(Broadcast(n) - 1)}
  {
    BroadcastInRange(n);
    assert AddrText(x, IPv4, n.base + 1) == FormatIPv4(n.base + 1);
    assert AddrText(x, IPv4, Broadcast(n) - 1) == FormatIPv4(Broadcast(n) - 1);
  }

  lemma PairHas(first: nat, last: nat, v: nat)
    requires first < V4Size && last < V4Size && v < V4Size
    ensures FormatIPv4(v) in {FormatIPv4(first), FormatIPv4(last)} <==> v == first || v == last
  {
    if FormatIPv4(v) == FormatIPv4(first) {
      FormatIPv4Injective(v, first);
    }
    if FormatIPv4(v) == FormatIPv4(last) {
      FormatIPv4Injective(v, last);
    }
  }

  /** Two pieces around one separator split back into the two pieces. */
  lemma SplitTwo(a: string, b: string, d: char)
    requires d !in a && d !in b
    ensures Text.Split(a + [d] + b, d) == [a, b]
    ensures Text.CountChar(a + [d] + b, d) == 1
  {
    assert Text.Join([a, b], d) == a + [d] + b;
    Text.SplitJoin([a, b], d);
    Text.SplitCount(a + [d] + b, d);
  }

  lemma NoSpaceJoin(a: string, b: string, c: char)
    requires NoSpace(a) && NoSpace(b) && !Text.IsSpace(c)
    ensures NoSpace(a + [c] + b)
  {
    var l := a + [c] + b;
    forall j | 0 <= j < |l|
      ensures !Text.IsSpace(l[j])
    {
      if j < |a| { assert l[j] == a[j]; } else if j > |a| { assert l[j] == b[j - |a| - 1]; }
    }
  }

  /** Text without whitespace is its own strip, and normalisation leaves it alone. */
  lemma NoSpaceKept(l: string)
    requires NoSpace(l)
    ensures Text.Strip(l) == l && Normalize(l) == l
  {
    Text.StripKeeps(l);
    NormalizeKeeps(l);
  }

  /** Joining two whitespace-free pieces with a separator gives text that stripping and normalisation leave alone. */
  lemma JoinedText(a: string, b: string, c: char)
    requires NoSpace(a) && NoSpace(b) && !Text.IsSpace(c) && a != [] && a[0] != '#'
    ensures var l := a + [c] + b;
      Text.Strip(l) == l && Normalize(l) == l && l[0] != '#' && l[|a|] == c
  {
    NoSpaceJoin(a, b, c);
    NoSpaceKept(a + [c] + b);
  }

  /** The text `a/m` for dotted `a` and digits `m` passes the early steps of parse_line unchanged, and splits back. */
  lemma SlashText(a: string, m: string)
    requires ParseIPv4(a).Some? && Text.IsDigits(m)
    ensures var l := a + "/" + m;
      && Text.Strip(l) == l && Normalize(l) == l && l[0] != '#'
      && Text.Split(l, '/') == [a, m] && Text.Strip(a) == a && Text.Strip(m) == m
      && '/' in l && ':' !in l && '.' in a && ':' !in a
  {
    IPv4Text(a);
    DigitsText(m);
    assert a + "/" + m == a + ['/'] + m;
    JoinedText(a, m, '/');
    Text.StripKeeps(a);
    Text.StripKeeps(m);
    SplitTwo(a, m, '/');
  }

  /** Digits carry no whitespace, slash or colon, and are their own strip. */
  lemma DigitsText(m: string)
    requires Text.IsDigits(m)
    ensures NoSpace(m) && '/' !in m && ':' !in m && '-' !in m
  {
    assert forall j | 0 <= j < |m| :: Text.IsAsciiDigit(m[j]);
  }

  /**
   * `a/m` with a dotted address: a numeric mask above 32 yields nothing,
   * otherwise the line yields the addresses of the network a/m.
   */
  lemma CidrLineV4(x: V6Syntax, a: string, m: string)
    requires ParseIPv4(a).Some? && Text.IsDigits(m)
    ensures Text.DigitsValue(m) > 32 ==> LineAddresses(x, a + "/" + m) == {}
    ensures Text.DigitsValue(m) <= 32 ==>
      var p := Text.DigitsValue(m);
      LineAddresses(x, a + "/" + m) == NetworkAddresses(x, Network(IPv4, MaskOff(IPv4, ParseIPv4(a).value, p), p))
  {
    var l := a + "/" + m;
    SlashText(a, m);
    SlashDecides(x, l);
    assert MaskRejected(l) <==> Text.DigitsValue(m) > 32;
    if Text.DigitsValue(m) <= 32 {
      var p := Text.DigitsValue(m);
      assert ParseMask(IPv4, m) == Some(p);
      assert ParseNetworkOf(x, IPv4, l) == Some(Network(IPv4, MaskOff(IPv4, ParseIPv4(a).value, p), p));
    }
  }

  /** The text `a-b` for dotted `a` and `b` passes the early steps of parse_line unchanged. */
  lemma DashText(a: string, b: string)
    requires ParseIPv4(a).Some? && ParseIPv4(b).Some?
    ensures var l := a + "-" + b;
      && Text.Strip(l) == l && Normalize(l) == l && l[0] != '#'
      && Text.CountChar(l, '-') == 1 && '/' !in l && ':' !in l && '-' in l && ParseIPv4(l).None?
  {
    IPv4Text(a);
    IPv4Text(b);
    assert a + "-" + b == a + ['-'] + b;
    JoinedText(a, b, '-');
    SplitTwo(a, b, '-');
    DashChars(a, b);
  }

  lemma DashChars(a: string, b: string)
    requires '/' !in a && '/' !in b && ':' !in a && ':' !in b
    ensures var l := a + "-" + b;
      '/' !in l && ':' !in l && '-' in l && ParseIPv4(l).None?
  {
    var l := a + "-" + b;
    assert l[|a|] == '-';
    NotIPv4(l, '-');
  }

  /** A line `a-b` with dotted `a` and `b` goes to the range branch. */
  lemma DashLine(x: V6Syntax, a: string, b: string)
    requires ParseIPv4(a).Some? && ParseIPv4(b).Some?
    ensures Text.CountChar(a + "-" + b, '-') == 1
    ensures LineAddresses(x, a + "-" + b) == RangeAddresses(x, a + "-" + b)
  {
    var l := a + "-" + b;
    DashText(a, b);
    assert ParseAddr(x, l).None?;
    assert !MaskRejected(l);
  }

  /** The range branch on dotted `a` and `b`. */
  lemma DashRange(x: V6Syntax, a: string, b: string)
    requires ParseIPv4(a).Some? && ParseIPv4(b).Some?
    requires Text.CountChar(a + "-" + b, '-') == 1
    ensures var s, e := ParseIPv4(a).value, ParseIPv4(b).value;
      RangeAddresses(x, a + "-" + b) ==
        if s > e then {} else if e - s + 1 > 1000 then {a, b} else RangeTexts(s, e + 1)
  {
    DashSplit(a, b);
    EndpointsV4(x, a, b);
  }

  lemma DashSplit(a: string, b: string)
    requires ParseIPv4(a).Some? && ParseIPv4(b).Some?
    ensures Text.Split(a + "-" + b, '-') == [a, b]
    ensures Text.Strip(a) == a && Text.Strip(b) == b
  {
    IPv4Text(a);
    IPv4Text(b);
    SplitTwo(a, b, '-');
    Text.StripKeeps(a);
    Text.StripKeeps(b);
  }

  lemma EndpointsV4(x: V6Syntax, a: string, b: string)
    requires ParseIPv4(a).Some? && ParseIPv4(b).Some?
    ensures var s, e := ParseIPv4(a).value, ParseIPv4(b).value;
      EndpointsAddresses(x, a, b) ==
        if s > e then {} else if e - s + 1 > 1000 then {a, b} else RangeTexts(s, e + 1)
  {
    FormatParseIPv4(a);
    FormatParseIPv4(b);
  }

  /**
   * `a-b` with two dotted addresses: nothing when a > b, both ends only when
   * the range holds more than 1000 addresses, otherwise every address from a
   * to b inclusive.
   */
  lemma RangeLineV4(x: V6Syntax, a: string, b: string)
    requires ParseIPv4(a).Some? && ParseIPv4(b).Some?
    ensures var s, e := ParseIPv4(a).value, ParseIPv4(b).value;
      && (s > e ==> LineAddresses(x, a + "-" + b) == {})
      && (s <= e && e - s + 1 > 1000 ==> LineAddresses(x, a + "-" + b) == {a, b})
      && (s <= e && e - s + 1 <= 1000 ==>
            forall v: nat | v < V4Size :: FormatIPv4(v) in LineAddresses(x, a + "-" + b) <==> s <= v <= e)
  {
    var l := a + "-" + b;
    DashLine(x, a, b);
    DashRange(x, a, b);
    var s, e := ParseIPv4(a).value, ParseIPv4(b).value;
    if s <= e && e - s + 1 <= 1000 {
      forall v: nat | v < V4Size
        ensures FormatIPv4(v) in LineAddresses(x, l) <==> s <= v <= e
      {
        RangeTextsHas(s, e + 1, v);
      }
    }
  }

  /** A comma list yields the union of what its parts yield. */
  lemma PartsUnion(x: V6Syntax, parts: seq<string>, bound: nat, ip: string)
    requires forall k | 0 <= k < |parts| :: |parts[k]| < bound
    ensures ip in PartsAddresses(x, parts, bound) <==> exists k | 0 <= k < |parts| :: ip in PartAddresses(x, parts[k])
  {
    if ip in PartsAddresses(x, parts, bound) {
      var k := PartsWitness(x, parts, bound, ip);
    }
    if exists k | 0 <= k < |parts| :: ip in PartAddresses(x, parts[k]) {
      var k :| 0 <= k < |parts| && ip in PartAddresses(x, parts[k]);
      PartsFrom(x, parts, bound, ip, k);
    }
  }

  /** An address of the union comes from some part. */
  lemma {:induction false} PartsWitness(x: V6Syntax, parts: seq<string>, bound: nat, ip: string) returns (k: nat)
    requires forall k | 0 <= k < |parts| :: |parts[k]| < bound
    requires ip in PartsAddresses(x, parts, bound)
    ensures k < |parts| && ip in PartAddresses(x, parts[k])
    decreases |parts|
  {
    var init := parts[..|parts| - 1];
    if ip in PartAddresses(x, parts[|parts| - 1]) {
      k := |parts| - 1;
    } else {
      k := PartsWitness(x, init, bound, ip);
      assert init[k] == parts[k];
    }
  }

  /** Every address of a part is in the union. */
  lemma {:induction false} PartsFrom(x: V6Syntax, parts: seq<string>, bound: nat, ip: string, k: nat)
    requires forall k | 0 <= k < |parts| :: |parts[k]| < bound
    requires k < |parts| && ip in PartAddresses(x, parts[k])
    ensures ip in PartsAddresses(x, parts, bound)
    decreases |parts|
  {
    var init := parts[..|parts| - 1];
    if k < |parts| - 1 {
      assert init[k] == parts[k];
      PartsFrom(x, init, bound, ip, k);
    }
  }

  // ---------------- filter_local_ips ----------------

  function OneOf(lo: char, hi: char): Rx.Elem
  {
    Rx.Atom(Rx.Ranges([(lo, hi)]), Rx.One)
  }

  const Dot: Rx.Elem := Rx.Atom(Rx.Chr('.'), Rx.One)

  /**
   * The local-address patterns, in order, each applied with re.match.  The
   * group `(1[6-9]|2[0-9]|3[0-1])` of the 172 pattern is spread over three
   * alternatives, which match the same texts.
   */
  const LocalPatterns: seq<Rx.Pattern> := [
    Rx.Lit("127."),
    Rx.Lit("169.254."),
    Rx.Lit("10."),
    [Rx.LitElems("172.1") + [OneOf('6', '9'), Dot],
     Rx.LitElems("172.2") + [OneOf('0', '9'), Dot],
     Rx.LitElems("172.3") + [OneOf('0', '1'), Dot]],
    Rx.Lit("192.168."),
    [Rx.LitElems("::1") + [Rx.End]],
    Rx.Lit("fe80::"),
    Rx.Lit("fc00::"),
    Rx.Lit("fd00::")
  ]

  /** Some local pattern matches at the start of `ip`. */
  predicate IsLocal(ip: string)
  {
    exists k | 0 <= k < |LocalPatterns| :: Rx.MatchesStart(LocalPatterns[k], ip)
  }

  /** The text after `172.` begins with a second octet from 16 to 31 and a dot. */
  predicate Second172(r: string)
  {
    |r| >= 3 && r[2] == '.' &&
    ((r[0] == '1' && '6' <= r[1] <= '9') || (r[0] == '2' && '0' <= r[1] <= '9') || (r[0] == '3' && '0' <= r[1] <= '1'))
  }

  /** The local patterns as plain prefix tests. */
  predicate LocalPrefix(ip: string)
  {
    || Text.StartsWith(ip, "127.")
    || Text.StartsWith(ip, "169.254.")
    || Text.StartsWith(ip, "10.")
    || (Text.StartsWith(ip, "172.") && Second172(ip[4..]))
    || Text.StartsWith(ip, "192.168.")
    || ip == "::1" || ip == "::1\n"
    || Text.StartsWith(ip, "fe80::")
    || Text.StartsWith(ip, "fc00::")
    || Text.StartsWith(ip, "fd00::")
  }

  /**
   * filter_local_ips: the addresses of `ips` that no local pattern matches.
   * Each address is tested against the patterns in order until one matches.
   */
  method FilterLocal(ips: set<string>) returns (kept: set<string>)
    ensures kept == set ip | ip in ips && !IsLocal(ip)
  {
    kept := {};
    var rest := ips;
    while rest != {}
      invariant rest <= ips
      invariant kept == set ip | ip in ips - rest && !IsLocal(ip)
      decreases |rest|
    {
      var ip :| ip in rest;
      var isLocal := false;
      var k := 0;
      while k < |LocalPatterns| && !isLocal
        invariant 0 <= k <= |LocalPatterns|
        invariant isLocal <==> exists j | 0 <= j < k :: Rx.MatchesStart(LocalPatterns[j], ip)
      {
        if Rx.MatchesStart(LocalPatterns[k], ip) {
          isLocal := true;
        }
        k := k + 1;
      }
      if !isLocal {
        kept := kept + {ip};
      }
      rest := rest - {ip};
    }
  }

  /** Filtering only removes addresses. */
  lemma FilterSubset(ips: set<string>)
    ensures (set ip | ip in ips && !IsLocal(ip)) <= ips
  {
  }

  /** Each local pattern is the prefix test it reads as. */
  lemma LocalText(ip: string)
    ensures IsLocal(ip) <==> LocalPrefix(ip)
  {
    Rx.LitMatchesStart("127.", ip);
    Rx.LitMatchesStart("169.254.", ip);
    Rx.LitMatchesStart("10.", ip);
    Match172(ip);
    Rx.LitMatchesStart("192.168.", ip);
    MatchLoopback(ip);
    Rx.LitMatchesStart("fe80::", ip);
    Rx.LitMatchesStart("fc00::", ip);
    Rx.LitMatchesStart("fd00::", ip);
    assert Rx.MatchesStart(LocalPatterns[0], ip) <==> Text.StartsWith(ip, "127.");
    assert Rx.MatchesStart(LocalPatterns[1], ip) <==> Text.StartsWith(ip, "169.254.");
    assert Rx.MatchesStart(LocalPatterns[2], ip) <==> Text.StartsWith(ip, "10.");
    assert Rx.MatchesStart(LocalPatterns[4], ip) <==> Text.StartsWith(ip, "192.168.");
    assert Rx.MatchesStart(LocalPatterns[6], ip) <==> Text.StartsWith(ip, "fe80::");
    assert Rx.MatchesStart(LocalPatterns[7], ip) <==> Text.StartsWith(ip, "fc00::");
    assert Rx.MatchesStart(LocalPatterns[8], ip) <==> Text.StartsWith(ip, "fd00::");
  }

  lemma Match172(ip: string)
    ensures Rx.MatchesStart(LocalPatterns[3], ip) <==> Text.StartsWith(ip, "172.") && Second172(ip[4..])
  {
    var pat := LocalPatterns[3];
    Rx.MatchAtAny(pat, ip, 0, false);
    forall a | 0 <= a < 3
      ensures Rx.MatchFrom(pat[a], 0, ip, 0, false, 0, "").Some? <==> Alt172(ip, a)
    {
      Match172Alt(ip, a);
    }
    if |ip| >= 7 {
      assert ip[4..][0] == ip[4] && ip[4..][1] == ip[5] && ip[4..][2] == ip[6];
      if Text.StartsWith(ip, "172.") && Second172(ip[4..]) {
        if ip[4] == '1' {
          assert Alt172(ip, 0);
        } else if ip[4] == '2' {
          assert Alt172(ip, 1);
        } else {
          assert Alt172(ip, 2);
        }
      }
    }
  }

  /** The text matched by the a-th alternative of the 172 pattern. */
  predicate Alt172(ip: string, a: nat)
  {
    |ip| >= 7 && ip[..4] == "172." && ip[6] == '.' &&
    if a == 0 then ip[4] == '1' && '6' <= ip[5] <= '9'
    else if a == 1 then ip[4] == '2' && '0' <= ip[5] <= '9'
    else ip[4] == '3' && '0' <= ip[5] <= '1'
  }

  lemma Match172Alt(ip: string, a: nat)
    requires a < 3
    ensures Rx.MatchFrom(LocalPatterns[3][a], 0, ip, 0, false, 0, "").Some? <==> Alt172(ip, a)
  {
    if a == 0 {
      assert "172.1" == "172." + ['1'];
      MatchSecond(ip, '1', '6', '9');
    } else if a == 1 {
      assert "172.2" == "172." + ['2'];
      MatchSecond(ip, '2', '0', '9');
    } else {
      assert "172.3" == "172." + ['3'];
      MatchSecond(ip, '3', '0', '1');
    }
  }

  /** `172\.d[lo-hi]\.` matches at the start exactly when the characters are there. */
  lemma MatchSecond(ip: string, d: char, lo: char, hi: char)
    ensures Rx.MatchFrom(Rx.LitElems("172." + [d]) + [OneOf(lo, hi), Dot], 0, ip, 0, false, 0, "").Some? <==>
      |ip| >= 7 && ip[..4] == "172." && ip[4] == d && lo <= ip[5] <= hi && ip[6] == '.'
  {
    var q := SecondSeven(d, lo, hi);
    SecondElems(d, lo, hi);
    Rx.FixedMatch(q, 0, ip, 0, 0, "");
    if |ip| >= 7 {
      SecondClasses(ip, d, lo, hi);
    }
  }

  /** The seven single-character elements of `172\.d[lo-hi]\.`, one by one. */
  function SecondSeven(d: char, lo: char, hi: char): seq<Rx.Elem>
  {
    [Rx.Atom(Rx.Chr('1'), Rx.One), Rx.Atom(Rx.Chr('7'), Rx.One), Rx.Atom(Rx.Chr('2'), Rx.One),
     Rx.Atom(Rx.Chr('.'), Rx.One), Rx.Atom(Rx.Chr(d), Rx.One), OneOf(lo, hi), Dot]
  }

  lemma SecondElems(d: char, lo: char, hi: char)
    ensures Rx.LitElems("172." + [d]) + [OneOf(lo, hi), Dot] == SecondSeven(d, lo, hi)
    ensures |SecondSeven(d, lo, hi)| == 7 && Rx.FixedFrom(SecondSeven(d, lo, hi), 0)
  {
  }

  /** Each of the seven elements takes its own character exactly when the text has the expected one there. */
  lemma SecondClasses(ip: string, d: char, lo: char, hi: char)
    requires |ip| >= 7
    ensures var p := SecondSeven(d, lo, hi);
      (forall j | 0 <= j < 7 :: Rx.ClassHas(p[j].cls, ip[0 + j - 0])) <==>
      ip[..4] == "172." && ip[4] == d && lo <= ip[5] <= hi && ip[6] == '.'
  {
    RangeClass(lo, hi, ip[5]);
    var p := SecondSeven(d, lo, hi);
    assert (forall j | 0 <= j < 7 :: Rx.ClassHas(p[j].cls, ip[j])) <==>
      ip[0] == '1' && ip[1] == '7' && ip[2] == '2' && ip[3] == '.' && ip[4] == d && lo <= ip[5] <= hi && ip[6] == '.';
    assert ip[..4] == "172." <==> ip[0] == '1' && ip[1] == '7' && ip[2] == '2' && ip[3] == '.';
  }

  lemma RangeClass(lo: char, hi: char, c: char)
    ensures Rx.ClassHas(OneOf(lo, hi).cls, c) <==> lo <= c <= hi
  {
    if lo <= c <= hi {
      assert [(lo, hi)][0].0 <= c <= [(lo, hi)][0].1;
    }
  }

  lemma MatchLoopback(ip: string)
    ensures Rx.MatchesStart(LocalPatterns[5], ip) <==> ip == "::1" || ip == "::1\n"
  {
    var p := Rx.LitElems("::1") + [Rx.End];
    assert LocalPatterns[5] == [p];
    assert Rx.MatchAt([p], ip, 0, false) == Rx.MatchFrom(p, 0, ip, 0, false, 0, "");
    Rx.FixedEndMatch(p, 0, ip, 0, 0, "");
    forall j | 0 <= j < 3
      ensures p[j] == Rx.Atom(Rx.Chr("::1"[j]), Rx.One)
    {
    }
    if |ip| == 3 || (|ip| == 4 && ip[3] == '\n') {
      assert (forall j | 0 <= j < 3 :: ip[j] == "::1"[j]) <==> ip[..3] == "::1";
      assert |ip| == 4 ==> ip == ip[..3] + "\n";
    }
  }

  /** The IPv4 blocks the filter removes, by octet: 127/8, 169.254/16, 10/8, 172.16/12 and 192.168/16. */
  predicate LocalBlock(v: nat)
    requires v < V4Size
  {
    var o := Octets(v);
    || o[0] == 127
    || (o[0] == 169 && o[1] == 254)
    || o[0] == 10
    || (o[0] == 172 && 16 <= o[1] <= 31)
    || (o[0] == 192 && o[1] == 168)
  }

  /**
   * On IPv4 text the filter removes exactly loopback (127/8), link-local
   * (169.254/16) and the three private blocks of section 3 of RFC 1918.
   */
  lemma LocalIPv4(v: nat)
    requires v < V4Size
    ensures IsLocal(FormatIPv4(v)) <==> LocalBlock(v)
  {
    LocalText(FormatIPv4(v));
    LocalPrefixIPv4(v);
  }

  lemma LocalPrefixIPv4(v: nat)
    requires v < V4Size
    ensures LocalPrefix(FormatIPv4(v)) <==> LocalBlock(v)
  {
    var s := FormatIPv4(v);
    IPv4NotV6Local(v);
    LocalWords();
    assert "127." == Text.NatToString(127) + ".";
    assert "10." == Text.NatToString(10) + ".";
    assert "169.254." == Text.NatToString(169) + "." + (Text.NatToString(254) + ".");
    assert "192.168." == Text.NatToString(192) + "." + (Text.NatToString(168) + ".");
    FirstOctetPrefix(v, 127);
    FirstOctetPrefix(v, 10);
    TwoOctetPrefix(v, 169, 254);
    TwoOctetPrefix(v, 192, 168);
    Block172(v);
  }

  /** The printed address starts with `str(k).` exactly when its first octet is k. */
  lemma FirstOctetPrefix(v: nat, k: nat)
    requires v < V4Size
    ensures Text.StartsWith(FormatIPv4(v), Text.NatToString(k) + ".") <==> Octets(v)[0] == k
  {
    var o := Octets(v);
    var r2 := Text.NatToString(o[2]) + "." + Text.NatToString(o[3]);
    FormatIPv4Words(v);
    Text.FirstWord(Text.NatToString(o[0]), Text.NatToString(o[1]) + "." + r2, Text.NatToString(k));
    OctetWord(o[0], k);
  }

  /** The printed address starts with `str(k0).str(k1).` exactly when its first octets are k0 and k1. */
  lemma TwoOctetPrefix(v: nat, k0: nat, k1: nat)
    requires v < V4Size
    ensures Text.StartsWith(FormatIPv4(v), Text.NatToString(k0) + "." + (Text.NatToString(k1) + "."))
      <==> Octets(v)[0] == k0 && Octets(v)[1] == k1
  {
    var o := Octets(v);
    var r2 := Text.NatToString(o[2]) + "." + Text.NatToString(o[3]);
    FormatIPv4Words(v);
    Text.TwoWords(Text.NatToString(o[0]), Text.NatToString(o[1]), r2, Text.NatToString(k0), Text.NatToString(k1));
    OctetWord(o[0], k0);
    OctetWord(o[1], k1);
  }

  /** The 172 pattern on a printed address: first octet 172, second from 16 to 31. */
  lemma Block172(v: nat)
    requires v < V4Size
    ensures var s := FormatIPv4(v);
      Text.StartsWith(s, "172.") && Second172(s[4..]) <==> Octets(v)[0] == 172 && 16 <= Octets(v)[1] <= 31
  {
    var s := FormatIPv4(v);
    var o := Octets(v);
    var r2 := Text.NatToString(o[2]) + "." + Text.NatToString(o[3]);
    var r1 := Text.NatToString(o[1]) + "." + r2;
    LocalWords();
    assert "172." == Text.NatToString(172) + ".";
    FirstOctetPrefix(v, 172);
    if o[0] == 172 {
      FormatIPv4Words(v);
      assert s[4..] == r1;
      Second172Octet(o[1], r2);
    }
  }

  /** The decimal words of the filtered blocks. */
  lemma LocalWords()
    ensures Text.NatToString(127) == "127" && Text.NatToString(10) == "10"
    ensures Text.NatToString(172) == "172" && Text.NatToString(169) == "169"
    ensures Text.NatToString(254) == "254" && Text.NatToString(192) == "192"
    ensures Text.NatToString(168) == "168"
  {
  }

  /** Printed IPv4 text never matches the IPv6 patterns. */
  lemma IPv4NotV6Local(v: nat)
    requires v < V4Size
    ensures var s := FormatIPv4(v);
      !Text.StartsWith(s, "fe80::") && !Text.StartsWith(s, "fc00::") && !Text.StartsWith(s, "fd00::")
      && s != "::1" && s != "::1\n"
  {
    var s := FormatIPv4(v);
    ParseFormatIPv4(v);
    IPv4Text(s);
    Text.StartsWithHas(s, "fe80::", ':');
    Text.StartsWithHas(s, "fc00::", ':');
    Text.StartsWithHas(s, "fd00::", ':');
    assert ':' in "::1" && ':' in "::1\n";
  }

  /** The word of an octet is str(k) exactly when the octet is k. */
  lemma OctetWord(o: nat, k: nat)
    ensures Text.NatToString(o) == Text.NatToString(k) <==> o == k
  {
    if Text.NatToString(o) == Text.NatToString(k) {
      Text.NatToStringInjective(o, k);
    }
  }

  /** After `172.`, the pattern accepts a second octet exactly from 16 to 31. */
  lemma Second172Octet(n: nat, rest: string)
    requires n < 256
    ensures Second172(Text.NatToString(n) + "." + rest) <==> 16 <= n <= 31
  {
    var t := Text.NatToString(n);
    var r := t + "." + rest;
    Text.NatToStringLength(n);
    if n < 10 {
      assert r[1] == '.';
    } else if n < 100 {
      assert r[0] == Text.DigitChar(n / 10) && r[1] == Text.DigitChar(n % 10) && r[2] == '.';
    } else {
      assert r[2] == t[2] && Text.IsAsciiDigit(t[2]);
    }
  }

  // ---------------- validate_ip and sort_ips ----------------

  /** validate_ip: the text is an IPv4 or an IPv6 address. */
  predicate ValidateIp(x: V6Syntax, s: string)
  {
    ParseAddr(x, s).Some?
  }

  /** The key sort_ips sorts by: (0, IPv4 address), (1, IPv6 address), or (2, text) for the rest. */
  datatype SortKey = SortKey(group: nat, value: nat, text: string)

  function KeyOf(x: V6Syntax, s: string): (k: SortKey)
    ensures k.group < 2 <==> ValidateIp(x, s)
    ensures k.group == 0 <==> ParseIPv4(s).Some?
    ensures k.group == 0 ==> k.value == ParseIPv4(s).value
  {
    match ParseAddr(x, s)
    case Some(a) => SortKey(if a.family == IPv4 then 0 else 1, a.value, "")
    case None => SortKey(2, 0, s)
  }

  /** Tuple comparison of keys; addresses of one family compare by value, the rest as strings. */
  predicate KeyLe(a: SortKey, b: SortKey)
  {
    a.group < b.group || (a.group == b.group && (a.value < b.value || (a.value == b.value && Text.StrLe(a.text, b.text))))
  }

  lemma KeyLeTotal(a: SortKey, b: SortKey)
    ensures KeyLe(a, b) || KeyLe(b, a)
  {
    Text.StrLeTotal(a.text, b.text);
  }

  lemma KeyLeTrans(a: SortKey, b: SortKey, c: SortKey)
    requires KeyLe(a, b) && KeyLe(b, c)
    ensures KeyLe(a, c)
  {
    if a.group == b.group == c.group && a.value == b.value == c.value {
      Text.StrLeTrans(a.text, b.text, c.text);
    }
  }

  predicate SortedByKey(x: V6Syntax, l: seq<string>)
  {
    forall i, j | 0 <= i < j < |l| :: KeyLe(KeyOf(x, l[i]), KeyOf(x, l[j]))
  }

  /** Insert `s` after every element whose key is not above its own (keeps sorted() stable). */
  function Insert(x: V6Syntax, r: seq<string>, s: string): (q: seq<string>)
    ensures multiset(q) == multiset(r) + multiset{s}
    decreases |r|
  {
    if |r| == 0 || KeyLe(KeyOf(x, r[|r| - 1]), KeyOf(x, s)) then r + [s]
    else
      assert r == r[..|r| - 1] + [r[|r| - 1]];
      Insert(x, r[..|r| - 1], s) + [r[|r| - 1]]
  }

  /** sorted(ip_list, key=ip_key) as a stable insertion sort. */
  function SortIps(x: V6Syntax, l: seq<string>): (r: seq<string>)
    ensures multiset(r) == multiset(l)
    decreases |l|
  {
    if |l| == 0 then []
    else
      assert l == l[..|l| - 1] + [l[|l| - 1]];
      Insert(x, SortIps(x, l[..|l| - 1]), l[|l| - 1])
  }

  /** Inserting into a sorted list keeps it sorted. */
  lemma {:induction false} InsertSorted(x: V6Syntax, r: seq<string>, s: string)
    requires SortedByKey(x, r)
    ensures SortedByKey(x, Insert(x, r, s))
    decreases |r|
  {
    if |r| > 0 && !KeyLe(KeyOf(x, r[|r| - 1]), KeyOf(x, s)) {
      var init, last := r[..|r| - 1], r[|r| - 1];
      InsertSorted(x, init, s);
      KeyLeTotal(KeyOf(x, last), KeyOf(x, s));
      AllBelow(x, Insert(x, init, s), init, s, last);
      AppendSorted(x, Insert(x, init, s), last);
    } else if |r| > 0 {
      forall i | 0 <= i < |r|
        ensures KeyLe(KeyOf(x, r[i]), KeyOf(x, s))
      {
        if i < |r| - 1 {
          KeyLeTrans(KeyOf(x, r[i]), KeyOf(x, r[|r| - 1]), KeyOf(x, s));
        }
      }
      AppendSorted(x, r, s);
    }
  }

  /** Every element of a sorted prefix lies at or below its last element. */
  lemma AllBelow(x: V6Syntax, q: seq<string>, init: seq<string>, s: string, b: string)
    requires multiset(q) == multiset(init) + multiset{s}
    requires forall i | 0 <= i < |init| :: KeyLe(KeyOf(x, init[i]), KeyOf(x, b))
    requires KeyLe(KeyOf(x, s), KeyOf(x, b))
    ensures forall i | 0 <= i < |q| :: KeyLe(KeyOf(x, q[i]), KeyOf(x, b))
  {
    forall i | 0 <= i < |q|
      ensures KeyLe(KeyOf(x, q[i]), KeyOf(x, b))
    {
      assert q[i] in multiset(q);
      if q[i] != s {
        assert q[i] in multiset(init);
        var k :| 0 <= k < |init| && init[k] == q[i];
      }
    }
  }

  lemma AppendSorted(x: V6Syntax, q: seq<string>, b: string)
    requires SortedByKey(x, q)
    requires forall i | 0 <= i < |q| :: KeyLe(KeyOf(x, q[i]), KeyOf(x, b))
    ensures SortedByKey(x, q + [b])
  {
    var r := q + [b];
    forall i, j | 0 <= i < j < |r|
      ensures KeyLe(KeyOf(x, r[i]), KeyOf(x, r[j]))
    {
      assert r[i] == q[i];
    }
  }

  /**
   * sort_ips returns a permutation of its input in key order: every IPv4
   * address before every IPv6 address before every other string, addresses
   * of one family ascending by value, the rest ascending as strings.
   */
  lemma {:induction false} SortIpsSorted(x: V6Syntax, l: seq<string>)
    ensures SortedByKey(x, SortIps(x, l))
    decreases |l|
  {
    if |l| > 0 {
      SortIpsSorted(x, l[..|l| - 1]);
      InsertSorted(x, SortIps(x, l[..|l| - 1]), l[|l| - 1]);
    }
  }

  /** The group order, spelled out. */
  lemma SortIpsGroups(x: V6Syntax, l: seq<string>, i: nat, j: nat)
    requires i < j < |SortIps(x, l)|
    ensures var r := SortIps(x, l);
      && (ParseIPv4(r[j]).Some? ==> ParseIPv4(r[i]).Some? && ParseIPv4(r[i]).value <= ParseIPv4(r[j]).value)
      && (ValidateIp(x, r[j]) ==> ValidateIp(x, r[i]))
  {
    SortIpsSorted(x, l);
  }

  // ---------------- parse_file and validate_file ----------------

  /** What reading a target file gives: no file, or its lines up to a possible read error. */
  datatype FileContent = Missing | Read(lines: seq<string>, failure: Option<string>)

  /** parse_file's set with the two counters it logs. */
  datatype FileParse = FileParse(ips: set<string>, successfulLines: nat, totalLines: nat)

  /** The union of what the lines yield. */
  function FileAddresses(x: V6Syntax, lines: seq<string>): set<string>
  {
    if |lines| == 0 then {} else FileAddresses(x, lines[..|lines| - 1]) + LineAddresses(x, lines[|lines| - 1])
  }

  /** The number of lines that yield at least one address. */
  function ParsedLines(x: V6Syntax, lines: seq<string>): nat
  {
    if |lines| == 0 then 0
    else ParsedLines(x, lines[..|lines| - 1]) + (if LineAddresses(x, lines[|lines| - 1]) != {} then 1 else 0)
  }

  /** The union and the count over one more line. */
  lemma FileStep(x: V6Syntax, lines: seq<string>, i: nat)
    requires i < |lines|
    ensures FileAddresses(x, lines[..i + 1]) == FileAddresses(x, lines[..i]) + LineAddresses(x, lines[i])
    ensures ParsedLines(x, lines[..i + 1]) == ParsedLines(x, lines[..i]) + (if LineAddresses(x, lines[i]) != {} then 1 else 0)
  {
    assert lines[..i + 1][..i] == lines[..i];
  }

  /**
   * parse_file: every line is parsed and the sets are joined; a missing or
   * unreadable file is an error for the caller.
   */
  method ParseFile(x: V6Syntax, file: FileContent) returns (r: Result<FileParse, string>)
    ensures r.Success? <==> file.Read? && file.failure.None?
    ensures r.Success? ==> r.value == FileParse(FileAddresses(x, file.lines), ParsedLines(x, file.lines), |file.lines|)
  {
    if file.Missing? {
      return Failure("file not found");
    }
    var lines := file.lines;
    var ips: set<string> := {};
    var successful, total := 0, 0;
    var i := 0;
    while i < |lines|
      invariant 0 <= i <= |lines|
      invariant ips == FileAddresses(x, lines[..i])
      invariant successful == ParsedLines(x, lines[..i]) && total == i
    {
      FileStep(x, lines, i);
      total := total + 1;
      var found := ParseLine(x, lines[i]);
      if found != {} {
        ips := ips + found;
        successful := successful + 1;
      }
      i := i + 1;
    }
    assert lines[..i] == lines;
    if file.failure.Some? {
      return Failure(file.failure.value);
    }
    return Success(FileParse(ips, successful, total));
  }

  /** How validate_file classifies one line. */
  datatype LineCheck = Skipped | Found(count: nat) | Unparsed

  function CheckLine(x: V6Syntax, raw: string): (c: LineCheck)
    ensures c.Found? ==> c.count > 0
  {
    var line := Text.Strip(raw);
    if line == "" || line[0] == '#' then Skipped
    else
      var ips := LineAddresses(x, line);
      if ips != {} then Found(|ips|) else Unparsed
  }

  /** One step of validate_file's loop: strip, skip blank and comment lines, parse the rest. */
  method CheckOne(x: V6Syntax, raw: string) returns (c: LineCheck)
    ensures c == CheckLine(x, raw)
  {
    var line := Text.Strip(raw);
    if line == "" || line[0] == '#' {
      return Skipped;
    }
    var ips := ParseLine(x, line);
    if ips != {} {
      return Found(|ips|);
    }
    return Unparsed;
  }

  /** The results dictionary of validate_file. */
  datatype Validation = Validation(
    valid: bool, totalLines: nat, successfulLines: nat, errorLines: seq<nat>, ipCount: nat, errors: seq<string>)

  const NoAddressesError := "Не найдено корректных IP-адресов"

  /** The number of lines that yield addresses. */
  function FoundLines(x: V6Syntax, lines: seq<string>): nat
  {
    if |lines| == 0 then 0
    else FoundLines(x, lines[..|lines| - 1]) + (if CheckLine(x, lines[|lines| - 1]).Found? then 1 else 0)
  }

  /** The addresses counted line by line. */
  function IpCount(x: V6Syntax, lines: seq<string>): nat
  {
    if |lines| == 0 then 0
    else
      var c := CheckLine(x, lines[|lines| - 1]);
      IpCount(x, lines[..|lines| - 1]) + (if c.Found? then c.count else 0)
  }

  /** The 1-based numbers of the lines that are neither blank, comments nor parsed. */
  function ErrorLines(x: V6Syntax, lines: seq<string>): seq<nat>
  {
    if |lines| == 0 then []
    else ErrorLines(x, lines[..|lines| - 1]) + (if CheckLine(x, lines[|lines| - 1]).Unparsed? then [|lines|] else [])
  }

  function SkippedLines(x: V6Syntax, lines: seq<string>): nat
  {
    if |lines| == 0 then 0
    else SkippedLines(x, lines[..|lines| - 1]) + (if CheckLine(x, lines[|lines| - 1]).Skipped? then 1 else 0)
  }

  /** The counters over one more line. */
  lemma CountsStep(x: V6Syntax, lines: seq<string>, i: nat)
    requires i < |lines|
    ensures var c := CheckLine(x, lines[i]);
      && FoundLines(x, lines[..i + 1]) == FoundLines(x, lines[..i]) + (if c.Found? then 1 else 0)
      && IpCount(x, lines[..i + 1]) == IpCount(x, lines[..i]) + (if c.Found? then c.count else 0)
      && ErrorLines(x, lines[..i + 1]) == ErrorLines(x, lines[..i]) + (if c.Unparsed? then [i + 1] else [])
  {
    assert lines[..i + 1][..i] == lines[..i];
  }

  /**
   * validate_file: counts every line, skips blank and comment lines, and
   * records each remaining line as parsed (with its number of addresses) or
   * as an error line.  The file is invalid when it cannot be read or when no
   * address was found.
   */
  method ValidateFile(x: V6Syntax, path: string, file: FileContent) returns (r: Validation)
    ensures file.Missing? ==> r == Validation(false, 0, 0, [], 0, ["Файл не найден: " + path])
    ensures file.Read? ==>
      var l := file.lines;
      && r.totalLines == |l| && r.successfulLines == FoundLines(x, l)
      && r.errorLines == ErrorLines(x, l) && r.ipCount == IpCount(x, l)
      && r.valid == (file.failure.None? && IpCount(x, l) > 0)
      && r.errors == (if file.failure.Some? then ["Ошибка чтения файла: " + file.failure.value]
                      else if IpCount(x, l) == 0 then [NoAddressesError] else [])
  {
    if file.Missing? {
      r := Validation(true, 0, 0, [], 0, []);
      r := r.(valid := false, errors := r.errors + ["Файл не найден: " + path]);
      return;
    }
    r := CheckLines(x, file.lines);
    if file.failure.Some? {
      r := r.(valid := false, errors := r.errors + ["Ошибка чтения файла: " + file.failure.value]);
      return;
    }
    if r.ipCount == 0 {
      r := r.(valid := false, errors := r.errors + [NoAddressesError]);
    }
  }

  /** The line loop of validate_file. */
  method CheckLines(x: V6Syntax, lines: seq<string>) returns (r: Validation)
    ensures r == Validation(true, |lines|, FoundLines(x, lines), ErrorLines(x, lines), IpCount(x, lines), [])
  {
    r := Validation(true, 0, 0, [], 0, []);
    var i := 0;
    while i < |lines|
      invariant 0 <= i <= |lines|
      invariant r == Validation(true, i, FoundLines(x, lines[..i]), ErrorLines(x, lines[..i]), IpCount(x, lines[..i]), [])
    {
      r := r.(totalLines := r.totalLines + 1);
      var c := CheckOne(x, lines[i]);
      CountsStep(x, lines, i);
      if c.Found? {
        r := r.(successfulLines := r.successfulLines + 1, ipCount := r.ipCount + c.count);
      } else if c.Unparsed? {
        r := r.(errorLines := r.errorLines + [i + 1]);
      }
      i := i + 1;
    }
    assert lines[..i] == lines;
  }

  /** Parsing a stripped line is parsing the line. */
  lemma StripLine(x: V6Syntax, raw: string)
    ensures LineAddresses(x, Text.Strip(raw)) == LineAddresses(x, raw)
  {
    Text.StripTwice(raw);
    assert LineAddresses(x, Text.Strip(raw)) == StrippedAddresses(x, Text.Strip(Text.Strip(raw)));
  }

  /** What the classification of a line says about its addresses. */
  lemma CheckLineAddresses(x: V6Syntax, raw: string)
    ensures var c := CheckLine(x, raw);
      && (c.Found? <==> LineAddresses(x, raw) != {})
      && (c.Found? ==> c.count == |LineAddresses(x, raw)|)
  {
    StripLine(x, raw);
  }

  /** Every line is skipped, parsed or an error line. */
  lemma {:induction false} ValidateCounts(x: V6Syntax, lines: seq<string>)
    ensures SkippedLines(x, lines) + FoundLines(x, lines) + |ErrorLines(x, lines)| == |lines|
    decreases |lines|
  {
    if |lines| > 0 {
      ValidateCounts(x, lines[..|lines| - 1]);
    }
  }

  /** The error lines are line numbers of the file, in increasing order. */
  lemma {:induction false} ErrorLinesOrdered(x: V6Syntax, lines: seq<string>)
    ensures forall k | k in ErrorLines(x, lines) :: 1 <= k <= |lines|
    ensures forall i, j | 0 <= i < j < |ErrorLines(x, lines)| :: ErrorLines(x, lines)[i] < ErrorLines(x, lines)[j]
    decreases |lines|
  {
    if |lines| > 0 {
      var e := ErrorLines(x, lines[..|lines| - 1]);
      ErrorLinesOrdered(x, lines[..|lines| - 1]);
      assert forall i | 0 <= i < |e| :: e[i] in e;
    }
  }

  /** A line is listed exactly when it is neither blank, a comment nor parsed. */
  lemma {:induction false} ErrorLinesExact(x: V6Syntax, lines: seq<string>, k: nat)
    requires 1 <= k <= |lines|
    ensures k in ErrorLines(x, lines) <==> CheckLine(x, lines[k - 1]).Unparsed?
    decreases |lines|
  {
    var init := lines[..|lines| - 1];
    var e := ErrorLines(x, init);
    var tail: seq<nat> := if CheckLine(x, lines[|lines| - 1]).Unparsed? then [|lines|] else [];
    assert ErrorLines(x, lines) == e + tail;
    if k < |lines| {
      ErrorLinesExact(x, init, k);
      assert init[k - 1] == lines[k - 1];
      assert k !in tail;
    } else {
      ErrorLinesOrdered(x, init);
      assert k !in e;
    }
  }

  /**
   * parse_file and validate_file agree: the same lines count as successful,
   * the file yields no address exactly when validate_file counts none, and
   * the distinct addresses never outnumber the counted ones.
   */
  lemma {:induction false} ParseValidateAgree(x: V6Syntax, lines: seq<string>)
    ensures ParsedLines(x, lines) == FoundLines(x, lines)
    ensures FileAddresses(x, lines) == {} <==> IpCount(x, lines) == 0
    ensures |FileAddresses(x, lines)| <= IpCount(x, lines)
    decreases |lines|
  {
    if |lines| > 0 {
      var init, last := lines[..|lines| - 1], lines[|lines| - 1];
      ParseValidateAgree(x, init);
      CheckLineAddresses(x, last);
      assert |FileAddresses(x, init) + LineAddresses(x, last)| <= |FileAddresses(x, init)| + |LineAddresses(x, last)|;
    }
  }
}
