/**
 * IP addresses and networks as Python's `ipaddress` module treats them.
 *
 * IPv4 text is parsed and printed here (dotted quad, four decimal octets,
 * no leading zeros).  IPv6 text (section 2.2 of RFC 4291, with the
 * compressed form section 4 of RFC 5952 prescribes for printing) is not
 * spelled out: its parser and printer are a `V6Syntax` value that callers
 * supply, and every operation that reads an address takes one.
 *
 * ip_network(text, strict=False) accepts a prefix length, and for IPv4 also
 * a dotted netmask or hostmask, and masks off host bits.  Host enumeration
 * follows Python: the network and broadcast addresses are excluded for IPv4,
 * only the network address for IPv6, and a /31 (/127) yields both of its
 * addresses and a /32 (/128) its single address.
 */
module Address {
  import opened Wrappers
  import Text

  function Pow2(k: nat): (r: nat)
    ensures r >= 1
  {
    if k == 0 then 1 else 2 * Pow2(k - 1)
  }

  lemma {:induction false} Pow2Add(a: nat, b: nat)
    ensures Pow2(a + b) == Pow2(a) * Pow2(b)
    decreases a
  {
    if a > 0 {
      Pow2Add(a - 1, b);
    }
  }

  lemma {:induction false} Pow2Mono(a: nat, b: nat)
    requires a <= b
    ensures Pow2(a) <= Pow2(b)
    decreases b
  {
    if a < b {
      Pow2Mono(a, b - 1);
    }
  }

  const V4Size: nat := 0x1_0000_0000
  const V6Size: nat := 0x1_0000_0000_0000_0000_0000_0000_0000_0000

  datatype Family = IPv4 | IPv6

  function Bits(f: Family): nat
  {
    if f == IPv4 then 32 else 128
  }

  function Size(f: Family): (r: nat)
    ensures r == Pow2(Bits(f))
  {
    Pow2Size();
    if f == IPv4 then V4Size else V6Size
  }

  lemma Pow2Size()
    ensures Pow2(32) == V4Size && Pow2(128) == V6Size
  {
    assert Pow2(2) == 4;
    Pow2Add(2, 2);
    Pow2Add(4, 4);
    assert Pow2(8) == 256;
    Pow2Add(8, 8);
    assert Pow2(16) == 0x1_0000;
    Pow2Add(16, 16);
    assert Pow2(32) == V4Size;
    Pow2Add(32, 32);
    Pow2Add(64, 64);
  }

  /** An address: its family and its integer value (int(ip)). */
  datatype Addr = Addr(family: Family, value: nat)

  predicate ValidAddr(a: Addr)
  {
    a.value < Size(a.family)
  }

  // ---------------- IPv4 text ----------------

  /** One dotted-quad octet: 1 to 3 ASCII digits, no leading zero, at most 255. */
  function ParseOctet(s: string): (r: Option<nat>)
    ensures r.Some? ==> r.value < 256
  {
    if Text.IsDigits(s) && |s| <= 3 && (s == "0" || s[0] != '0') && Text.DigitsValue(s) <= 255
    then Some(Text.DigitsValue(s))
    else None
  }

  function OctetsValue(o: seq<nat>): (r: nat)
    requires |o| == 4 && forall i | 0 <= i < 4 :: o[i] < 256
    ensures r < V4Size
  {
    ((o[0] * 256 + o[1]) * 256 + o[2]) * 256 + o[3]
  }

  /** IPv4Address(text): exactly four valid octets separated by dots. */
  function ParseIPv4(s: string): (r: Option<nat>)
    ensures r.Some? ==> r.value < V4Size
  {
    var parts := Text.Split(s, '.');
    if |parts| == 4 && ParseOctet(parts[0]).Some? && ParseOctet(parts[1]).Some?
       && ParseOctet(parts[2]).Some? && ParseOctet(parts[3]).Some?
    then
      Some(OctetsValue([ParseOctet(parts[0]).value, ParseOctet(parts[1]).value,
                        ParseOctet(parts[2]).value, ParseOctet(parts[3]).value]))
    else None
  }

  /** The four octets of an IPv4 value, most significant first. */
  function Octets(n: nat): (o: seq<nat>)
    requires n < V4Size
    ensures |o| == 4 && (forall i | 0 <= i < 4 :: o[i] < 256)
    ensures OctetsValue(o) == n
  {
    var r3 := n / 256;
    var r2 := r3 / 256;
    [r2 / 256, r2 % 256, r3 % 256, n % 256]
  }

  /** str(IPv4Address(n)) */
  function FormatIPv4(n: nat): string
    requires n < V4Size
  {
    var o := Octets(n);
    Text.Join([Text.NatToString(o[0]), Text.NatToString(o[1]),
               Text.NatToString(o[2]), Text.NatToString(o[3])], '.')
  }

  lemma OctetText(o: nat)
    requires o < 256
    ensures ParseOctet(Text.NatToString(o)) == Some(o)
  {
    var s := Text.NatToString(o);
    Text.NatToStringValue(o);
    Text.DigitsValueBound(s);
    if |s| > 3 {
      LeadingDigitBound(s);
    }
  }

  lemma LeadingDigitBound(s: string)
    requires Text.IsDigits(s) && |s| > 3 && s[0] != '0'
    ensures Text.DigitsValue(s) >= 1000
  {
    PrefixValueBound(s, 4);
    assert Text.Pow10(3) == 1000;
    PrefixValueMono(s, 4, |s|);
    assert s[..|s|] == s;
  }

  lemma {:induction false} PrefixValueMono(s: string, j: nat, k: nat)
    requires Text.IsDigits(s) && 1 <= j <= k <= |s|
    ensures Text.DigitsValue(s[..j]) <= Text.DigitsValue(s[..k])
    decreases k - j
  {
    if j < k {
      PrefixValueMono(s, j, k - 1);
      assert s[..k][..k - 1] == s[..k - 1];
    }
  }

  lemma {:induction false} PrefixValueBound(s: string, k: nat)
    requires Text.IsDigits(s) && s[0] != '0' && 1 <= k <= |s|
    ensures Text.DigitsValue(s[..k]) >= Text.Pow10(k - 1)
    decreases k
  {
    if k > 1 {
      PrefixValueBound(s, k - 1);
      assert s[..k][..k - 1] == s[..k - 1];
    }
  }

  /** Printing an IPv4 address and parsing the text gives the address back. */
  lemma ParseFormatIPv4(n: nat)
    requires n < V4Size
    ensures ParseIPv4(FormatIPv4(n)) == Some(n)
  {
    var o := Octets(n);
    var parts := [Text.NatToString(o[0]), Text.NatToString(o[1]),
                  Text.NatToString(o[2]), Text.NatToString(o[3])];
    forall i | 0 <= i < 4
      ensures '.' !in parts[i]
      ensures ParseOctet(parts[i]) == Some(o[i])
    {
      OctetText(o[i]);
      assert Text.IsDigits(parts[i]);
    }
    Text.SplitJoin(parts, '.');
  }

  lemma OctetsOfValue(o: seq<nat>)
    requires |o| == 4 && forall i | 0 <= i < 4 :: o[i] < 256
    ensures Octets(OctetsValue(o)) == o
  {
    var n := OctetsValue(o);
    var r3 := (o[0] * 256 + o[1]) * 256 + o[2];
    var r2 := o[0] * 256 + o[1];
    DivMod256(r3, o[3]);
    DivMod256(r2, o[2]);
    DivMod256(o[0], o[1]);
  }

  lemma DivMod256(q: nat, r: nat)
    requires r < 256
    ensures (q * 256 + r) / 256 == q && (q * 256 + r) % 256 == r
  {
  }

  /** Distinct IPv4 values print differently. */
  lemma FormatIPv4Injective(v: nat, w: nat)
    requires v < V4Size && w < V4Size && FormatIPv4(v) == FormatIPv4(w)
    ensures v == w
  {
    ParseFormatIPv4(v);
    ParseFormatIPv4(w);
  }

  /** The dotted quad as its four decimal words. */
  lemma FormatIPv4Words(n: nat)
    requires n < V4Size
    ensures var o := Octets(n);
      FormatIPv4(n) == Text.NatToString(o[0]) + "." + (Text.NatToString(o[1]) + "." +
        (Text.NatToString(o[2]) + "." + Text.NatToString(o[3])))
  {
    var o := Octets(n);
    var w := [Text.NatToString(o[0]), Text.NatToString(o[1]), Text.NatToString(o[2]), Text.NatToString(o[3])];
    assert w[1..][1..][1..] == [w[3]];
    assert Text.Join(w[1..][1..], '.') == w[2] + "." + w[3];
    assert Text.Join(w[1..], '.') == w[1] + "." + (w[2] + "." + w[3]);
    assert Text.Join(w, '.') == w[0] + "." + (w[1] + "." + (w[2] + "." + w[3]));
  }

  /** IPv4 text consists of ASCII digits and dots only. */
  lemma IPv4TextChars(s: string)
    requires ParseIPv4(s).Some?
    ensures forall i | 0 <= i < |s| :: Text.IsAsciiDigit(s[i]) || s[i] == '.'
  {
    var parts := Text.Split(s, '.');
    forall k | 0 <= k < |parts|
      ensures Text.IsDigits(parts[k])
    {
      assert ParseOctet(parts[k]).Some?;
    }
    Text.JoinChars(parts, '.', Text.IsAsciiDigit);
    Text.JoinSplit(s, '.');
  }

  /**
   * Valid IPv4 text is canonical: printing the parsed address reproduces the
   * text, so keeping the text or keeping str(ip_address(text)) is the same.
   */
  lemma FormatParseIPv4(s: string)
    requires ParseIPv4(s).Some?
    ensures FormatIPv4(ParseIPv4(s).value) == s
  {
    var parts := Text.Split(s, '.');
    var o := [ParseOctet(parts[0]).value, ParseOctet(parts[1]).value,
              ParseOctet(parts[2]).value, ParseOctet(parts[3]).value];
    OctetsOfValue(o);
    forall i | 0 <= i < 4
      ensures Text.NatToString(o[i]) == parts[i]
    {
      Text.CanonicalDigits(parts[i]);
    }
    Text.JoinSplit(s, '.');
    assert parts == [parts[0], parts[1], parts[2], parts[3]];
  }

  // ---------------- IPv6 text, supplied by the caller ----------------

  /** A parser and printer for IPv6 text (RFC 4291 section 2.2, RFC 5952 section 4). */
  datatype V6Syntax = V6Syntax(parse: string -> Option<nat>, show: nat -> string)

  /**
   * What every IPv6 syntax is expected to satisfy: parsed values fit in 128
   * bits, IPv6 text always holds a colon (so it is never IPv4 text) and never a slash, and
   * printed text parses back.
   */
  ghost predicate LawfulV6(x: V6Syntax)
  {
    (forall s :: x.parse(s).Some? ==> x.parse(s).value < V6Size && ':' in s && '/' !in s)
    && (forall n: nat :: n < V6Size ==> x.parse(x.show(n)) == Some(n))
  }

  /** IPv6Address(text), keeping only what a lawful syntax could return. */
  function ParseIPv6(x: V6Syntax, s: string): (r: Option<nat>)
    ensures r.Some? ==> r.value < V6Size && ':' in s && '/' !in s
    ensures LawfulV6(x) ==> r == x.parse(s)
  {
    var v6 := x.parse(s);
    if v6.Some? && v6.value < V6Size && ':' in s && '/' !in s then v6 else None
  }

  /** ipaddress.ip_address(text): IPv4 is tried first, then IPv6. */
  function ParseAddr(x: V6Syntax, s: string): (r: Option<Addr>)
    ensures r.Some? ==> ValidAddr(r.value)
    ensures ParseIPv4(s).Some? ==> r == Some(Addr(IPv4, ParseIPv4(s).value))
    ensures r.Some? && r.value.family == IPv6 ==> ':' in s
  {
    var v4 := ParseIPv4(s);
    if v4.Some? then Some(Addr(IPv4, v4.value))
    else
      var v6 := ParseIPv6(x, s);
      if v6.Some? then Some(Addr(IPv6, v6.value)) else None
  }

  /** str(ip) */
  function Show(x: V6Syntax, a: Addr): string
    requires ValidAddr(a)
  {
    if a.family == IPv4 then FormatIPv4(a.value) else x.show(a.value)
  }

  /** Printing an address and parsing it again gives the address back. */
  lemma ParseShow(x: V6Syntax, a: Addr)
    requires LawfulV6(x) && ValidAddr(a)
    ensures ParseAddr(x, Show(x, a)) == Some(a)
  {
    if a.family == IPv4 {
      ParseFormatIPv4(a.value);
    } else {
      var s := x.show(a.value);
      assert x.parse(s) == Some(a.value);
      assert ':' in s;
      if ParseIPv4(s).Some? {
        var parts := Text.Split(s, '.');
        forall i | 0 <= i < 4
          ensures ':' !in parts[i]
        {
          assert Text.IsDigits(parts[i]);
        }
        Text.JoinSplit(s, '.');
        Text.JoinAvoids(parts, '.', ':');
      }
    }
  }

  /** Distinct addresses print differently. */
  lemma ShowInjective(x: V6Syntax, a: Addr, b: Addr)
    requires LawfulV6(x) && ValidAddr(a) && ValidAddr(b)
    requires Show(x, a) == Show(x, b)
    ensures a == b
  {
    ParseShow(x, a);
    ParseShow(x, b);
  }

  // ---------------- networks ----------------

  /** A network: family, network address (host bits cleared) and prefix length. */
  datatype Network = Network(family: Family, base: nat, prefix: nat)

  predicate ValidNetwork(n: Network)
  {
    n.prefix <= Bits(n.family) && n.base < Size(n.family)
    && n.base % Pow2(Bits(n.family) - n.prefix) == 0
  }

  /** The netmask with `p` leading one bits out of `bits`. */
  function MaskOf(bits: nat, p: nat): nat
    requires p <= bits
  {
    (Pow2(p) - 1) * Pow2(bits - p)
  }

  /** The prefix length p <= bits, searched from `p` upward, whose netmask is `m`. */
  function PrefixOfMask(bits: nat, m: nat, p: nat): (r: Option<nat>)
    requires p <= bits + 1
    ensures r.Some? ==> r.value <= bits && MaskOf(bits, r.value) == m
    decreases bits + 1 - p
  {
    if p > bits then None
    else if MaskOf(bits, p) == m then Some(p)
    else PrefixOfMask(bits, m, p + 1)
  }

  /**
   * The prefix length a mask text denotes: ASCII digits in range; for IPv4
   * also a dotted netmask or, failing that, a dotted hostmask.
   */
  function ParseMask(f: Family, s: string): (r: Option<nat>)
    ensures r.Some? ==> r.value <= Bits(f)
  {
    if Text.IsDigits(s) && Text.DigitsValue(s) <= Bits(f) then Some(Text.DigitsValue(s))
    else if f == IPv6 then None
    else
      var m := ParseIPv4(s);
      if m.None? then None
      else
        var asNetmask := PrefixOfMask(32, m.value, 0);
        if asNetmask.Some? then asNetmask
        else PrefixOfMask(32, V4Size - 1 - m.value, 0)
  }

  /** The address with its host bits cleared. */
  function MaskOff(f: Family, v: nat, prefix: nat): (r: nat)
    requires prefix <= Bits(f) && v < Size(f)
    ensures r <= v && r % Pow2(Bits(f) - prefix) == 0
    ensures ValidNetwork(Network(f, r, prefix))
  {
    var block := Pow2(Bits(f) - prefix);
    RoundDown(v, block);
    (v / block) * block
  }

  lemma RoundDown(v: nat, b: nat)
    requires b > 0
    ensures v % b <= v && (v - v % b) % b == 0 && v - v % b == (v / b) * b
  {
    var q := v / b;
    assert v == q * b + v % b;
    assert q * b >= 0;
    MulMod(q, b);
  }

  lemma MulLess(x: int, y: int, b: nat)
    requires b > 0 && x * b < y * b
    ensures x < y
  {
  }

  lemma MulMod(q: nat, b: nat)
    requires b > 0
    ensures (q * b) % b == 0 && (q * b) / b == q
  {
    var n := q * b;
    var d := n / b;
    assert n == d * b + n % b;
    assert (d + 1) * b == d * b + b;
    MulLess(d, q + 1, b);
    MulLess(q, d + 1, b);
  }

  /** One family's network constructor on `addr/mask` text. */
  function ParseNetworkOf(x: V6Syntax, f: Family, s: string): (r: Option<Network>)
    ensures r.Some? ==> ValidNetwork(r.value) && r.value.family == f
  {
    var parts := Text.Split(s, '/');
    if |parts| > 2 then None
    else
      var a := if f == IPv4 then ParseIPv4(parts[0]) else ParseIPv6(x, parts[0]);
      var mask := if |parts| == 2 then ParseMask(f, parts[1]) else Some(Bits(f));
      if a.None? || mask.None? || a.value >= Size(f) then None
      else Some(Network(f, MaskOff(f, a.value, mask.value), mask.value))
  }

  /** ipaddress.ip_network(text, strict=False): IPv4 is tried first, then IPv6. */
  function ParseNetwork(x: V6Syntax, s: string): (r: Option<Network>)
    ensures r.Some? ==> ValidNetwork(r.value)
  {
    var v4 := ParseNetworkOf(x, IPv4, s);
    if v4.Some? then v4 else ParseNetworkOf(x, IPv6, s)
  }

  /** network.num_addresses */
  function NumAddresses(n: Network): nat
    requires n.prefix <= Bits(n.family)
  {
    Pow2(Bits(n.family) - n.prefix)
  }

  /** network.broadcast_address, as an integer. */
  function Broadcast(n: Network): nat
    requires n.prefix <= Bits(n.family)
  {
    n.base + NumAddresses(n) - 1
  }

  lemma BroadcastInRange(n: Network)
    requires ValidNetwork(n)
    ensures Broadcast(n) < Size(n.family)
  {
    var b := Pow2(Bits(n.family) - n.prefix);
    var m := Pow2(n.prefix);
    Pow2Add(Bits(n.family) - n.prefix, n.prefix);
    assert Size(n.family) == b * m;
    BlockFits(n.base, b, m);
  }

  /** A multiple of b below b * m leaves room for a whole block of b. */
  lemma BlockFits(base: nat, b: nat, m: nat)
    requires b > 0 && base % b == 0 && base < b * m
    ensures base + b <= b * m
  {
    var q := base / b;
    RoundDown(base, b);
    assert base == q * b;
    MulLess(q, m, b);
    MulMonotone(q + 1, m, b);
  }

  lemma MulMonotone(x: nat, y: nat, b: nat)
    requires x <= y
    ensures x * b <= y * b
  {
  }

  /** The integer values network.hosts() yields, lowest first: the first and last of them. */
  function HostLow(n: Network): nat
    requires n.prefix <= Bits(n.family)
  {
    if n.prefix + 1 >= Bits(n.family) then n.base else n.base + 1
  }

  function HostHigh(n: Network): nat
    requires n.prefix <= Bits(n.family)
  {
    if n.prefix >= Bits(n.family) - 1 || n.family == IPv6 then Broadcast(n) else Broadcast(n) - 1
  }

  /** The addresses of network.hosts(), as integers in ascending order. */
  function Hosts(n: Network): (r: seq<nat>)
    requires n.prefix <= Bits(n.family)
    ensures forall i | 0 <= i < |r| :: r[i] == HostLow(n) + i
    ensures |r| == HostHigh(n) + 1 - HostLow(n)
  {
    seq(HostHigh(n) + 1 - HostLow(n), i => HostLow(n) + i)
  }

  /** network.hosts() leaves out the network and broadcast addresses exactly when the prefix is /30 or shorter (IPv4). */
  lemma HostsV4(n: Network)
    requires ValidNetwork(n) && n.family == IPv4
    ensures n.prefix <= 30 ==>
              |Hosts(n)| == NumAddresses(n) - 2 && n.base !in Hosts(n) && Broadcast(n) !in Hosts(n)
    ensures n.prefix == 31 ==> Hosts(n) == [n.base, n.base + 1]
    ensures n.prefix == 32 ==> Hosts(n) == [n.base]
  {
    if n.prefix <= 30 {
      Pow2Mono(2, 32 - n.prefix);
      assert Pow2(2) == 4;
    }
    if n.prefix == 31 {
      assert NumAddresses(n) == 2;
    }
  }

  /** IPv6 hosts() leaves out only the network address (the Subnet-Router anycast address). */
  lemma HostsV6(n: Network)
    requires ValidNetwork(n) && n.family == IPv6 && n.prefix < 127
    ensures |Hosts(n)| == NumAddresses(n) - 1
    ensures n.base !in Hosts(n) && Broadcast(n) in Hosts(n)
  {
    Pow2Mono(1, 128 - n.prefix);
    assert Hosts(n)[|Hosts(n)| - 1] == Broadcast(n);
  }
}
