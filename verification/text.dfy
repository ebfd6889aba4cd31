/**
 * The Python `str` operations the modelled code relies on: whitespace
 * stripping (str.strip, with and without a character set), lower-casing,
 * substring tests, splitting on and joining with a one-character separator,
 * character replacement, and decimal digit strings (str.isdigit, int(),
 * str(int)).
 *
 * Whitespace is the set for which Python's str.isspace() holds; the regular
 * expression class \s on str patterns uses the same set.  Lower-casing is
 * ASCII only.
 */
module Text {

  /** Python's str.isspace() for one character. */
  predicate IsSpace(c: char)
  {
    var n := c as int;
    (9 <= n <= 13) || (28 <= n <= 32) || n == 0x85 || n == 0xA0 || n == 0x1680
    || (0x2000 <= n <= 0x200A) || n == 0x2028 || n == 0x2029 || n == 0x202F
    || n == 0x205F || n == 0x3000
  }

  predicate IsAsciiDigit(c: char) { '0' <= c <= '9' }

  /** Python's str.isdigit() restricted to ASCII: non-empty and all digits. */
  predicate IsDigits(s: string)
  {
    |s| > 0 && forall i | 0 <= i < |s| :: IsAsciiDigit(s[i])
  }

  /** The longest suffix of `s` that does not start with a character `drop` accepts. */
  function TrimStart(s: string, drop: char -> bool): (r: string)
    ensures |r| <= |s| && r == s[|s| - |r|..]
    ensures |r| > 0 ==> !drop(r[0])
    ensures forall i | 0 <= i < |s| - |r| :: drop(s[i])
    decreases |s|
  {
    if |s| > 0 && drop(s[0]) then TrimStart(s[1..], drop) else s
  }

  /** The longest prefix of `s` that does not end with a character `drop` accepts. */
  function TrimEnd(s: string, drop: char -> bool): (r: string)
    ensures |r| <= |s| && r == s[..|r|]
    ensures |r| > 0 ==> !drop(r[|r| - 1])
    ensures forall i | |r| <= i < |s| :: drop(s[i])
    decreases |s|
  {
    if |s| > 0 && drop(s[|s| - 1]) then TrimEnd(s[..|s| - 1], drop) else s
  }

  /** str.strip() */
  function Strip(s: string): string
  {
    TrimEnd(TrimStart(s, IsSpace), IsSpace)
  }

  /** str.rstrip() */
  function RStrip(s: string): string
  {
    TrimEnd(s, IsSpace)
  }

  /** str.strip(chars) */
  function StripChars(s: string, chars: set<char>): string
  {
    TrimEnd(TrimStart(s, c => c in chars), c => c in chars)
  }

  /** str.strip(chars) keeps a slice of `s` that neither starts nor ends with one of `chars`. */
  lemma StripCharsShape(s: string, chars: set<char>)
    ensures var r := StripChars(s, chars);
      |r| <= |s| && (forall c | c in r :: c in s)
      && (|r| > 0 ==> r[0] !in chars && r[|r| - 1] !in chars)
  {
    var r := StripChars(s, chars);
    var a := TrimStart(s, c => c in chars);
    assert r == TrimEnd(a, c => c in chars);
    forall c | c in r
      ensures c in s
    {
      var i :| 0 <= i < |r| && r[i] == c;
      assert a[i] == c;
      assert s[|s| - |a| + i] == c;
    }
  }

  /** Text that neither starts nor ends with one of `chars` is its own strip(chars). */
  lemma StripCharsKeeps(s: string, chars: set<char>)
    requires |s| > 0 ==> s[0] !in chars && s[|s| - 1] !in chars
    ensures StripChars(s, chars) == s
  {
    if |s| > 0 {
      assert TrimStart(s, c => c in chars) == s;
    }
  }

  /** A stripped string neither starts nor ends with whitespace, and it is empty exactly when `s` is all whitespace. */
  lemma StripShape(s: string)
    ensures var r := Strip(s);
      |r| <= |s|
      && (|r| > 0 ==> !IsSpace(r[0]) && !IsSpace(r[|r| - 1]))
      && (r == "" <==> forall i | 0 <= i < |s| :: IsSpace(s[i]))
  {
  }

  /** Text that neither starts nor ends with whitespace is its own strip. */
  lemma StripKeeps(s: string)
    requires |s| > 0 ==> !IsSpace(s[0]) && !IsSpace(s[|s| - 1])
    ensures Strip(s) == s
  {
    if |s| > 0 {
      assert TrimStart(s, IsSpace) == s;
    }
  }

  /** Stripping twice is stripping once. */
  lemma StripTwice(s: string)
    ensures Strip(Strip(s)) == Strip(s)
  {
    StripShape(s);
    StripKeeps(Strip(s));
  }

  /** Python's `a <= b` on strings: lexicographic by code point. */
  predicate StrLe(a: string, b: string)
    decreases |a|
  {
    |a| == 0 || (|b| > 0 && (a[0] < b[0] || (a[0] == b[0] && StrLe(a[1..], b[1..]))))
  }

  lemma {:induction false} StrLeTotal(a: string, b: string)
    ensures StrLe(a, b) || StrLe(b, a)
    decreases |a|
  {
    if |a| > 0 && |b| > 0 && a[0] == b[0] {
      StrLeTotal(a[1..], b[1..]);
    }
  }

  lemma {:induction false} StrLeTrans(a: string, b: string, c: string)
    requires StrLe(a, b) && StrLe(b, c)
    ensures StrLe(a, c)
    decreases |a|
  {
    if |a| > 0 && a[0] == b[0] && b[0] == c[0] {
      StrLeTrans(a[1..], b[1..], c[1..]);
    }
  }

  lemma {:induction false} StrLeAntisym(a: string, b: string)
    requires StrLe(a, b) && StrLe(b, a)
    ensures a == b
    decreases |a|
  {
    if |a| > 0 {
      StrLeAntisym(a[1..], b[1..]);
      assert a == [a[0]] + a[1..] && b == [b[0]] + b[1..];
    }
  }

  /** Python's str.lower() on ASCII letters. */
  function LowerChar(c: char): char
  {
    if 'A' <= c <= 'Z' then (c as int + 32) as char else c
  }

  function Lower(s: string): (r: string)
    ensures |r| == |s|
    ensures forall i | 0 <= i < |s| :: r[i] == LowerChar(s[i])
  {
    seq(|s|, i requires 0 <= i < |s| => LowerChar(s[i]))
  }

  /** Python's str.upper() on ASCII letters. */
  function UpperChar(c: char): char
  {
    if 'a' <= c <= 'z' then (c as int - 32) as char else c
  }

  function Upper(s: string): (r: string)
    ensures |r| == |s|
    ensures forall i | 0 <= i < |s| :: r[i] == UpperChar(s[i])
  {
    seq(|s|, i requires 0 <= i < |s| => UpperChar(s[i]))
  }

  /** Every character of `s` replaced by `f` of it (re.sub with a character class, str.replace of one character). */
  function MapChars(s: string, f: char -> char): (r: string)
    ensures |r| == |s|
    ensures forall i | 0 <= i < |s| :: r[i] == f(s[i])
  {
    seq(|s|, i requires 0 <= i < |s| => f(s[i]))
  }

  /** str.replace(a, b) for one-character a and b. */
  function ReplaceChar(s: string, a: char, b: char): (r: string)
    ensures |r| == |s|
    ensures a != b ==> a !in r
    ensures forall i | 0 <= i < |s| :: s[i] != a ==> r[i] == s[i]
  {
    MapChars(s, c => if c == a then b else c)
  }

  predicate StartsWith(s: string, p: string)
  {
    |p| <= |s| && s[..|p|] == p
  }

  predicate EndsWith(s: string, p: string)
  {
    |p| <= |s| && s[|s| - |p|..] == p
  }

  /** Python's `sub in s`. */
  predicate Contains(s: string, sub: string)
  {
    exists i | 0 <= i <= |s| :: StartsWith(s[i..], sub)
  }

  lemma ContainsAt(s: string, sub: string, i: nat)
    requires i + |sub| <= |s| && s[i..i + |sub|] == sub
    ensures Contains(s, sub)
  {
    assert StartsWith(s[i..], sub);
  }

  /** Index of the first `c` in `s`, or -1 (str.find for one character). */
  function IndexOf(s: string, c: char): (r: int)
    ensures -1 <= r < |s|
    ensures r >= 0 ==> s[r] == c && c !in s[..r]
    ensures r < 0 <==> c !in s
    decreases |s|
  {
    if |s| == 0 then -1
    else if s[0] == c then 0
    else
      var k := IndexOf(s[1..], c);
      assert s[1..] == s[1..];
      if k < 0 then -1
      else
        assert s[..k + 1] == [s[0]] + s[1..][..k];
        k + 1
  }

  /** Number of occurrences of `c` in `s` (str.count for one character). */
  function CountChar(s: string, c: char): nat
    decreases |s|
  {
    if |s| == 0 then 0 else (if s[0] == c then 1 else 0) + CountChar(s[1..], c)
  }

  /** str.split(d) for a one-character separator `d`: never empty, no part holds `d`. */
  function Split(s: string, d: char): (r: seq<string>)
    ensures |r| >= 1
    ensures forall k | 0 <= k < |r| :: d !in r[k]
    decreases |s|
  {
    var k := IndexOf(s, d);
    if k < 0 then [s]
    else
      var head, rest := s[..k], Split(s[k + 1..], d);
      assert d !in head;
      var r := [head] + rest;
      assert forall j | 1 <= j < |r| :: r[j] == rest[j - 1];
      r
  }

  /** When the first separator sits right after `a`, it is found there. */
  lemma {:induction false} IndexOfAfter(a: string, b: string, d: char)
    requires d !in a
    ensures IndexOf(a + [d] + b, d) == |a|
    decreases |a|
  {
    if |a| > 0 {
      assert (a + [d] + b)[1..] == a[1..] + [d] + b;
      IndexOfAfter(a[1..], b, d);
    }
  }

  /** d.join(parts) */
  function Join(parts: seq<string>, d: char): string
    decreases |parts|
  {
    if |parts| == 0 then ""
    else if |parts| == 1 then parts[0]
    else parts[0] + [d] + Join(parts[1..], d)
  }

  /** A character absent from the text is absent from every split part. */
  lemma {:induction false} SplitAvoids(s: string, d: char, c: char)
    requires c !in s
    ensures forall k | 0 <= k < |Split(s, d)| :: c !in Split(s, d)[k]
    decreases |s|
  {
    var k := IndexOf(s, d);
    if k >= 0 {
      assert s == s[..k] + [d] + s[k + 1..];
      SplitAvoids(s[k + 1..], d, c);
      var parts := Split(s, d);
      assert parts == [s[..k]] + Split(s[k + 1..], d);
      forall m | 0 <= m < |parts|
        ensures c !in parts[m]
      {
        if m > 0 {
          assert parts[m] == Split(s[k + 1..], d)[m - 1];
        }
      }
    }
  }

  /** Splitting and re-joining on the same separator gives the string back. */
  lemma {:induction false} JoinSplit(s: string, d: char)
    ensures Join(Split(s, d), d) == s
    decreases |s|
  {
    var k := IndexOf(s, d);
    if k >= 0 {
      var head, rest := s[..k], s[k + 1..];
      var tail := Split(rest, d);
      JoinSplit(rest, d);
      var parts := [head] + tail;
      assert Split(s, d) == parts;
      assert |parts| > 1 && parts[0] == head && parts[1..] == tail;
      assert Join(parts, d) == head + [d] + Join(tail, d);
      assert s == head + [d] + rest;
    }
  }

  /** A character that is neither the separator nor in any part is not in the joined text. */
  lemma {:induction false} JoinAvoids(parts: seq<string>, d: char, c: char)
    requires c != d
    requires forall k | 0 <= k < |parts| :: c !in parts[k]
    ensures c !in Join(parts, d)
    decreases |parts|
  {
    if |parts| > 1 {
      JoinAvoids(parts[1..], d, c);
    }
  }

  /** Every character of a joined text is the separator or a character of some part. */
  lemma {:induction false} JoinChars(parts: seq<string>, d: char, ok: char -> bool)
    requires forall k, i | 0 <= k < |parts| && 0 <= i < |parts[k]| :: ok(parts[k][i])
    ensures forall i | 0 <= i < |Join(parts, d)| :: ok(Join(parts, d)[i]) || Join(parts, d)[i] == d
    decreases |parts|
  {
    if |parts| > 1 {
      JoinChars(parts[1..], d, ok);
      var j := Join(parts, d);
      var rest := Join(parts[1..], d);
      assert j == parts[0] + [d] + rest;
      forall i | 0 <= i < |j|
        ensures ok(j[i]) || j[i] == d
      {
        if i < |parts[0]| {
          assert j[i] == parts[0][i];
        } else if i > |parts[0]| {
          assert j[i] == rest[i - |parts[0]| - 1];
        }
      }
    }
  }

  /** Joining parts that do not hold the separator and splitting again gives the parts back. */
  lemma {:induction false} SplitJoin(parts: seq<string>, d: char)
    requires |parts| >= 1
    requires forall k | 0 <= k < |parts| :: d !in parts[k]
    ensures Split(Join(parts, d), d) == parts
    decreases |parts|
  {
    if |parts| > 1 {
      var s := Join(parts, d);
      var rest := Join(parts[1..], d);
      assert s == parts[0] + [d] + rest;
      IndexOfAfter(parts[0], rest, d);
      assert s[..|parts[0]|] == parts[0];
      assert s[|parts[0]| + 1..] == rest;
      SplitJoin(parts[1..], d);
    } else {
      assert IndexOf(parts[0], d) < 0;
    }
  }

  /** No split part is longer than the text; when the separator occurs, every part is shorter. */
  lemma {:induction false} SplitShorter(s: string, d: char)
    ensures forall k | 0 <= k < |Split(s, d)| :: |Split(s, d)[k]| <= |s|
    ensures d in s ==> forall k | 0 <= k < |Split(s, d)| :: |Split(s, d)[k]| < |s|
    decreases |s|
  {
    var k := IndexOf(s, d);
    if k >= 0 {
      SplitShorter(s[k + 1..], d);
      assert Split(s, d) == [s[..k]] + Split(s[k + 1..], d);
    }
  }

  /** The number of split parts is one more than the number of separators. */
  lemma {:induction false} SplitCount(s: string, d: char)
    ensures |Split(s, d)| == CountChar(s, d) + 1
    decreases |s|
  {
    var k := IndexOf(s, d);
    if k >= 0 {
      CountPrefixFree(s, d, k);
      SplitCount(s[k + 1..], d);
      assert s == s[..k] + [d] + s[k + 1..];
      CountAppend(s[..k] + [d], s[k + 1..], d);
      CountAppend(s[..k], [d], d);
      assert CountChar([d], d) == 1;
    } else {
      CountPrefixFree(s, d, |s|);
      assert s[..|s|] == s;
    }
  }

  /** A character occurs exactly when its count is positive. */
  lemma {:induction false} CountCharIn(s: string, c: char)
    ensures CountChar(s, c) > 0 <==> c in s
    decreases |s|
  {
    if |s| > 0 {
      CountCharIn(s[1..], c);
      assert s == [s[0]] + s[1..];
    }
  }

  lemma {:induction false} CountPrefixFree(s: string, d: char, k: nat)
    requires k <= |s| && d !in s[..k]
    ensures CountChar(s[..k], d) == 0
    decreases k
  {
    if k > 0 {
      assert s[..k][1..] == s[1..][..k - 1];
      CountPrefixFree(s[1..], d, k - 1);
    }
  }

  lemma {:induction false} CountAppend(a: string, b: string, d: char)
    ensures CountChar(a + b, d) == CountChar(a, d) + CountChar(b, d)
    decreases |a|
  {
    if |a| > 0 {
      assert (a + b)[1..] == a[1..] + b;
      CountAppend(a[1..], b, d);
    } else {
      assert a + b == b;
    }
  }

  function DigitValue(c: char): nat
    requires IsAsciiDigit(c)
  {
    c as int - '0' as int
  }

  function DigitChar(d: nat): (c: char)
    requires d < 10
    ensures IsAsciiDigit(c) && DigitValue(c) == d
  {
    ('0' as int + d) as char
  }

  /** int(s) for a string of ASCII digits. */
  function DigitsValue(s: string): nat
    requires forall i | 0 <= i < |s| :: IsAsciiDigit(s[i])
    decreases |s|
  {
    if |s| == 0 then 0 else DigitsValue(s[..|s| - 1]) * 10 + DigitValue(s[|s| - 1])
  }

  /** str(n) for a natural number: digits only, no leading zero. */
  function NatToString(n: nat): (r: string)
    ensures IsDigits(r)
    ensures r[0] == '0' ==> r == "0"
    decreases n
  {
    if n < 10 then [DigitChar(n)] else NatToString(n / 10) + [DigitChar(n % 10)]
  }

  /** str(i) for any integer. */
  function IntToString(i: int): string
  {
    if i < 0 then "-" + NatToString(-i) else NatToString(i)
  }

  /** int(str(n)) == n */
  lemma {:induction false} NatToStringValue(n: nat)
    ensures DigitsValue(NatToString(n)) == n
    decreases n
  {
    if n >= 10 {
      NatToStringValue(n / 10);
      var s := NatToString(n);
      assert s[..|s| - 1] == NatToString(n / 10);
    }
  }

  /** Distinct numbers print differently. */
  lemma NatToStringInjective(m: nat, n: nat)
    requires NatToString(m) == NatToString(n)
    ensures m == n
  {
    NatToStringValue(m);
    NatToStringValue(n);
  }

  /** A leading digit word followed by a dot starts with `w.` exactly when the word is `w`. */
  lemma FirstWord(t: string, rest: string, w: string)
    requires IsDigits(t) && IsDigits(w)
    ensures StartsWith(t + "." + rest, w + ".") <==> t == w
  {
    var u := t + "." + rest;
    if StartsWith(u, w + ".") {
      assert u[|t|] == '.';
      assert forall j | 0 <= j < |t| :: u[j] == t[j];
      assert |t| < |w| ==> u[|t|] == w[|t|] && IsAsciiDigit(w[|t|]);
      assert |w| < |t| ==> u[|w|] == '.' && IsAsciiDigit(t[|w|]);
      assert t == u[..|w|];
    }
  }

  /** Dropping a common prefix keeps a prefix test. */
  lemma StartsWithCommon(a: string, b: string, c: string)
    ensures StartsWith(a + b, a + c) <==> StartsWith(b, c)
  {
    if |c| <= |b| {
      assert (a + b)[..|a + c|] == a + b[..|c|];
      assert b[..|c|] == (a + b[..|c|])[|a|..];
      assert c == (a + c)[|a|..];
    }
  }

  /** Text that starts with something holding `c` holds `c`. */
  lemma StartsWithHas(s: string, p: string, c: char)
    requires c in p
    ensures StartsWith(s, p) ==> c in s
  {
    if StartsWith(s, p) {
      var j :| 0 <= j < |p| && p[j] == c;
      assert s[j] == c;
    }
  }

  /** A prefix of a prefix is a prefix. */
  lemma StartsWithPrefix(s: string, a: string, b: string)
    requires StartsWith(s, a + b)
    ensures StartsWith(s, a)
  {
    assert s[..|a|] == (a + b)[..|a|];
  }

  /** Two leading digit words: `t0.t1.rest` starts with `w0.w1.` exactly when the words agree. */
  lemma TwoWords(t0: string, t1: string, rest: string, w0: string, w1: string)
    requires IsDigits(t0) && IsDigits(t1) && IsDigits(w0) && IsDigits(w1)
    ensures StartsWith(t0 + "." + (t1 + "." + rest), w0 + "." + (w1 + ".")) <==> t0 == w0 && t1 == w1
  {
    var u := t0 + "." + (t1 + "." + rest);
    FirstWord(t0, t1 + "." + rest, w0);
    if StartsWith(u, w0 + "." + (w1 + ".")) {
      StartsWithPrefix(u, w0 + ".", w1 + ".");
    }
    if t0 == w0 {
      StartsWithCommon(w0 + ".", t1 + "." + rest, w1 + ".");
      FirstWord(t1, rest, w1);
    }
  }

  /** str(n) has one digit below 10, two below 100 and at least three from 100. */
  lemma NatToStringLength(n: nat)
    ensures n < 10 ==> NatToString(n) == [DigitChar(n)]
    ensures 10 <= n < 100 ==> NatToString(n) == [DigitChar(n / 10), DigitChar(n % 10)]
    ensures n >= 100 ==> |NatToString(n)| >= 3
  {
    if n >= 100 {
      assert |NatToString(n / 10)| >= 2;
    }
  }

  /** A value below 10^|s| has at most |s| digits; used for length bounds. */
  lemma {:induction false} DigitsValueBound(s: string)
    requires forall i | 0 <= i < |s| :: IsAsciiDigit(s[i])
    ensures DigitsValue(s) < Pow10(|s|)
    decreases |s|
  {
    if |s| > 0 {
      DigitsValueBound(s[..|s| - 1]);
    }
  }

  function Pow10(k: nat): (r: nat)
    ensures r >= 1
  {
    if k == 0 then 1 else 10 * Pow10(k - 1)
  }

  /** A digit string without a leading zero has exactly as many digits as str() prints. */
  lemma {:induction false} CanonicalDigits(s: string)
    requires IsDigits(s)
    requires s[0] != '0' || |s| == 1
    ensures NatToString(DigitsValue(s)) == s
    decreases |s|
  {
    var init := s[..|s| - 1];
    if |s| == 1 {
    } else {
      assert IsDigits(init);
      assert init[0] == s[0];
      CanonicalDigits(init);
      LeadingDigitPositive(init);
      var v := DigitsValue(s);
      assert v == DigitsValue(init) * 10 + DigitValue(s[|s| - 1]);
      assert v / 10 == DigitsValue(init);
      assert v % 10 == DigitValue(s[|s| - 1]);
      assert s == init + [s[|s| - 1]];
    }
  }

  lemma {:induction false} LeadingDigitPositive(s: string)
    requires IsDigits(s) && s[0] != '0'
    ensures DigitsValue(s) >= 1
    decreases |s|
  {
    if |s| > 1 {
      assert s[..|s| - 1][0] == s[0];
      LeadingDigitPositive(s[..|s| - 1]);
    }
  }
}
