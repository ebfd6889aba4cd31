/**
 * What the SSH and Telnet connection managers share: the key under which a
 * live session is cached, "host:port:username".
 */
module Connectors {
  import Text

  /** f"{host}:{port}:{username}" */
  function CacheKey(host: string, port: int, username: string): (r: string)
    ensures |r| > |host| + 1 && r[..|host|] == host && r[|host|] == ':'
  {
    host + ":" + Text.IntToString(port) + ":" + username
  }

  lemma IntToStringNoColon(i: int)
    ensures ':' !in Text.IntToString(i)
  {
  }

  /** str(i) is one-to-one on integers, the sign included. */
  lemma IntToStringInjective(i: int, j: int)
    requires Text.IntToString(i) == Text.IntToString(j)
    ensures i == j
  {
    if i < 0 && j < 0 {
      assert Text.NatToString(-i) == Text.IntToString(i)[1..];
      Text.NatToStringInjective(-i, -j);
    } else if i >= 0 && j >= 0 {
      Text.NatToStringInjective(i, j);
    }
  }

  /** The text before the first separator, and the text after it, are determined by the whole. */
  lemma SplitAtFirst(a1: string, b1: string, a2: string, b2: string, d: char)
    requires d !in a1 && d !in a2 && a1 + [d] + b1 == a2 + [d] + b2
    ensures a1 == a2 && b1 == b2
  {
    var k := a1 + [d] + b1;
    Text.IndexOfAfter(a1, b1, d);
    Text.IndexOfAfter(a2, b2, d);
    assert a1 == k[..|a1|] == a2;
    assert b1 == k[|a1| + 1..] == b2;
  }

  /**
   * Two sessions share a cache entry only when host, port and username all
   * agree, provided the hosts hold no ':' (an IPv6 literal would break this).
   */
  lemma CacheKeyInjective(h1: string, p1: int, u1: string, h2: string, p2: int, u2: string)
    requires ':' !in h1 && ':' !in h2
    requires CacheKey(h1, p1, u1) == CacheKey(h2, p2, u2)
    ensures h1 == h2 && p1 == p2 && u1 == u2
  {
    var t1, t2 := Text.IntToString(p1), Text.IntToString(p2);
    IntToStringNoColon(p1);
    IntToStringNoColon(p2);
    assert CacheKey(h1, p1, u1) == h1 + [':'] + (t1 + [':'] + u1);
    assert CacheKey(h2, p2, u2) == h2 + [':'] + (t2 + [':'] + u2);
    SplitAtFirst(h1, t1 + [':'] + u1, h2, t2 + [':'] + u2, ':');
    SplitAtFirst(t1, u1, t2, u2, ':');
    IntToStringInjective(p1, p2);
  }
}
