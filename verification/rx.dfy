/**
 * The fragment of Python's `re` that the fixed patterns of the modelled code
 * use: literal characters, character classes (ranges, \d, \s, \S, `.`),
 * the quantifiers `?`, `*` and `+` on one class, at most one capturing group,
 * the end anchor `$`, and alternation at the top level.  Matching backtracks
 * with greedy quantifiers in the order Python's engine tries them, so the
 * group captured is the one `re` reports.
 *
 * Patterns that users put into configuration files are not written in this
 * fragment; they go through the abstract engine of module RegexOracle.
 */
module Rx {
  import opened Wrappers
  import Text

  /** A character class.  `Ranges` lists inclusive ranges, one character being (c, c). */
  datatype Cls =
    | Chr(c: char)
    | Ranges(rs: seq<(char, char)>)
    | NotRanges(rs: seq<(char, char)>)
    | Digit
    | Space
    | NotSpace
    | NotNewline

  datatype Quant = One | Opt | Star

  datatype Elem =
    | Atom(cls: Cls, q: Quant)
    | Open      // start of the capturing group
    | Close     // end of the capturing group
    | End       // `$`

  /** Top-level alternatives, tried in order at each position. */
  type Pattern = seq<seq<Elem>>

  /** What a successful match reports: where it ends and the text of group 1 ("" without a group). */
  datatype Hit = Hit(end: nat, group: string)

  predicate InRanges(rs: seq<(char, char)>, c: char)
  {
    exists j | 0 <= j < |rs| :: rs[j].0 <= c <= rs[j].1
  }

  predicate ClassHas(k: Cls, c: char)
  {
    match k
    case Chr(x) => c == x
    case Ranges(rs) => InRanges(rs, c)
    case NotRanges(rs) => !InRanges(rs, c)
    case Digit => Text.IsAsciiDigit(c)
    case Space => Text.IsSpace(c)
    case NotSpace => !Text.IsSpace(c)
    case NotNewline => c != '\n'
  }

  /** Simple case folding used by re.IGNORECASE: ASCII letters and the basic Cyrillic alphabet. */
  function FoldLower(c: char): char
  {
    var n := c as int;
    if 'A' <= c <= 'Z' then (n + 32) as char
    else if 0x410 <= n <= 0x42F then (n + 32) as char
    else if 0x400 <= n <= 0x40F then (n + 80) as char
    else c
  }

  function FoldUpper(c: char): char
  {
    var n := c as int;
    if 'a' <= c <= 'z' then (n - 32) as char
    else if 0x430 <= n <= 0x44F then (n - 32) as char
    else if 0x450 <= n <= 0x45F then (n - 80) as char
    else c
  }

  predicate Accepts(k: Cls, c: char, ci: bool)
  {
    ClassHas(k, c) || (ci && (ClassHas(k, FoldLower(c)) || ClassHas(k, FoldUpper(c))))
  }

  /**
   * Match elements p[k..] against t from position i.  `gs` is where the group
   * opened and `grp` the group text captured so far.  Greedy quantifiers try
   * to take one more character before giving up on it.
   */
  function MatchFrom(p: seq<Elem>, k: nat, t: string, i: nat, ci: bool, gs: nat, grp: string): (r: Option<Hit>)
    requires k <= |p| && gs <= i <= |t|
    ensures r.Some? ==> i <= r.value.end <= |t|
    decreases |t| - i, |p| - k
  {
    if k == |p| then Some(Hit(i, grp))
    else
      match p[k]
      case Open => MatchFrom(p, k + 1, t, i, ci, i, grp)
      case Close => MatchFrom(p, k + 1, t, i, ci, gs, t[gs..i])
      case End =>
        if i == |t| || (i + 1 == |t| && t[i] == '\n') then MatchFrom(p, k + 1, t, i, ci, gs, grp) else None
      case Atom(cls, q) =>
        var can := i < |t| && Accepts(cls, t[i], ci);
        match q
        case One => if can then MatchFrom(p, k + 1, t, i + 1, ci, gs, grp) else None
        case Opt =>
          var taken := if can then MatchFrom(p, k + 1, t, i + 1, ci, gs, grp) else None;
          if taken.Some? then taken else MatchFrom(p, k + 1, t, i, ci, gs, grp)
        case Star =>
          var taken := if can then MatchFrom(p, k, t, i + 1, ci, gs, grp) else None;
          if taken.Some? then taken else MatchFrom(p, k + 1, t, i, ci, gs, grp)
  }

  /** The first alternative that matches at position i. */
  function MatchAt(pat: Pattern, t: string, i: nat, ci: bool): (r: Option<Hit>)
    requires i <= |t|
    ensures r.Some? ==> i <= r.value.end <= |t|
    decreases |pat|
  {
    if |pat| == 0 then None
    else
      var m := MatchFrom(pat[0], 0, t, i, ci, i, "");
      if m.Some? then m else MatchAt(pat[1..], t, i, ci)
  }

  /** re.search from position i: the leftmost position where the pattern matches. */
  function SearchFrom(pat: Pattern, t: string, i: nat, ci: bool): (r: Option<Hit>)
    requires i <= |t|
    decreases |t| - i
  {
    var m := MatchAt(pat, t, i, ci);
    if m.Some? then m else if i == |t| then None else SearchFrom(pat, t, i + 1, ci)
  }

  /** `re.search(pattern, t)` succeeds. */
  predicate Found(pat: Pattern, t: string, ci: bool)
  {
    SearchFrom(pat, t, 0, ci).Some?
  }

  /** `m = re.search(pattern, t)` followed by `m.group(1)`. */
  function SearchGroup(pat: Pattern, t: string, ci: bool): Option<string>
  {
    var m := SearchFrom(pat, t, 0, ci);
    if m.Some? then Some(m.value.group) else None
  }

  /** `re.match(pattern, t)`: a match anchored at the start. */
  predicate MatchesStart(pat: Pattern, t: string)
  {
    MatchAt(pat, t, 0, false).Some?
  }

  /** `re.findall` for a pattern with one group: the groups of the successive non-overlapping matches. */
  function FindAll(pat: Pattern, t: string, i: nat, ci: bool): seq<string>
    decreases |t| + 1 - i
  {
    if i > |t| then []
    else
      var m := MatchAt(pat, t, i, ci);
      if m.Some? then [m.value.group] + FindAll(pat, t, if m.value.end > i then m.value.end else i + 1, ci)
      else FindAll(pat, t, i + 1, ci)
  }

  /** `re.sub(pattern, rep, t)` for a pattern that never matches the empty string. */
  function Sub(pat: Pattern, rep: string, t: string, i: nat): string
    requires i <= |t|
    decreases |t| - i
  {
    if i == |t| then ""
    else
      var m := MatchAt(pat, t, i, false);
      if m.Some? && m.value.end > i then rep + Sub(pat, rep, t, m.value.end)
      else [t[i]] + Sub(pat, rep, t, i + 1)
  }

  /** Replacing matches by at most one character never makes the text longer. */
  lemma {:induction false} SubLength(pat: Pattern, rep: string, t: string, i: nat)
    requires i <= |t| && |rep| <= 1
    ensures |Sub(pat, rep, t, i)| <= |t| - i
    decreases |t| - i
  {
    if i < |t| {
      var m := MatchAt(pat, t, i, false);
      if m.Some? && m.value.end > i {
        SubLength(pat, rep, t, m.value.end);
      } else {
        SubLength(pat, rep, t, i + 1);
      }
    }
  }

  // ---- building patterns ----

  function LitElems(s: string): (r: seq<Elem>)
    ensures |r| == |s|
    ensures forall j | 0 <= j < |s| :: r[j] == Atom(Chr(s[j]), One)
  {
    seq(|s|, j requires 0 <= j < |s| => Atom(Chr(s[j]), One))
  }

  /** A pattern that is a plain string. */
  function Lit(s: string): Pattern
  {
    [LitElems(s)]
  }

  /** `x+` */
  function Plus(k: Cls): seq<Elem>
  {
    [Atom(k, One), Atom(k, Star)]
  }

  /** `s[0-9]+`: the literal `s` followed by at least one digit. */
  function LitDigits(s: string): Pattern
  {
    [LitElems(s) + Plus(Digit)]
  }

  /** `a\s+b` */
  function LitSpaceLit(a: string, b: string): Pattern
  {
    [LitElems(a) + Plus(Space) + LitElems(b)]
  }

  // ---- literal patterns behave as substring tests ----

  lemma {:induction false} LitMatchFrom(s: string, k: nat, t: string, i: nat, gs: nat, grp: string)
    requires k <= |s| && gs <= i <= |t|
    ensures MatchFrom(LitElems(s), k, t, i, false, gs, grp).Some? <==> Text.StartsWith(t[i..], s[k..])
    decreases |s| - k
  {
    var p := LitElems(s);
    if k < |s| {
      assert p[k] == Atom(Chr(s[k]), One);
      if i < |t| && t[i] == s[k] {
        LitMatchFrom(s, k + 1, t, i + 1, gs, grp);
        assert Text.StartsWith(t[i..], s[k..]) <==> Text.StartsWith(t[i + 1..], s[k + 1..]) by {
          assert s[k..] == [s[k]] + s[k + 1..];
          assert t[i..] == [t[i]] + t[i + 1..];
        }
      } else if i < |t| {
        assert s[k..][0] == s[k];
        assert t[i..][0] == t[i];
      }
    }
  }

  lemma {:induction false} LitSearchFrom(s: string, t: string, i: nat)
    requires i <= |t|
    ensures SearchFrom(Lit(s), t, i, false).Some? <==> exists j | i <= j <= |t| :: Text.StartsWith(t[j..], s)
    decreases |t| - i
  {
    LitMatchFrom(s, 0, t, i, i, "");
    assert s[0..] == s;
    assert MatchAt(Lit(s), t, i, false) == MatchFrom(LitElems(s), 0, t, i, false, i, "");
    if Text.StartsWith(t[i..], s) {
    } else if i < |t| {
      LitSearchFrom(s, t, i + 1);
      if exists j | i <= j <= |t| :: Text.StartsWith(t[j..], s) {
        var j :| i <= j <= |t| && Text.StartsWith(t[j..], s);
        assert j != i;
      }
    }
  }

  /** Searching for a plain string is Python's `s in t`. */
  lemma LitFound(s: string, t: string)
    ensures Found(Lit(s), t, false) <==> Text.Contains(t, s)
  {
    LitSearchFrom(s, t, 0);
  }

  /** A pattern alternative made of single characters only. */
  predicate FixedFrom(p: seq<Elem>, k: nat)
  {
    forall j | k <= j < |p| :: p[j].Atom? && p[j].q == One
  }

  /** Single-character elements match exactly when each consumes its own character. */
  lemma {:induction false} FixedMatch(p: seq<Elem>, k: nat, t: string, i: nat, gs: nat, grp: string)
    requires k <= |p| && gs <= i <= |t| && FixedFrom(p, k)
    ensures MatchFrom(p, k, t, i, false, gs, grp).Some? <==>
      |p| - k <= |t| - i && forall j | k <= j < |p| :: ClassHas(p[j].cls, t[i + j - k])
    decreases |p| - k
  {
    if k < |p| {
      if i < |t| && ClassHas(p[k].cls, t[i]) {
        FixedMatch(p, k + 1, t, i + 1, gs, grp);
      }
    }
  }

  /** Single-character elements followed by `$`: the text must end there, or end in one newline there. */
  lemma {:induction false} FixedEndMatch(p: seq<Elem>, k: nat, t: string, i: nat, gs: nat, grp: string)
    requires 0 < |p| && k < |p| && gs <= i <= |t| && p[|p| - 1] == End
    requires forall j | k <= j < |p| - 1 :: p[j].Atom? && p[j].q == One
    ensures MatchFrom(p, k, t, i, false, gs, grp).Some? <==>
      var e := i + (|p| - 1 - k);
      && e <= |t|
      && (forall j | k <= j < |p| - 1 :: ClassHas(p[j].cls, t[i + j - k]))
      && (e == |t| || (e + 1 == |t| && t[e] == '\n'))
    decreases |p| - k
  {
    if k < |p| - 1 {
      if i < |t| && ClassHas(p[k].cls, t[i]) {
        FixedEndMatch(p, k + 1, t, i + 1, gs, grp);
      }
    }
  }

  /** A pattern matches at a position when one of its alternatives does. */
  lemma {:induction false} MatchAtAny(pat: Pattern, t: string, i: nat, ci: bool)
    requires i <= |t|
    ensures MatchAt(pat, t, i, ci).Some? <==> exists a | 0 <= a < |pat| :: MatchFrom(pat[a], 0, t, i, ci, i, "").Some?
    decreases |pat|
  {
    if |pat| > 0 {
      MatchAtAny(pat[1..], t, i, ci);
      if exists a | 0 <= a < |pat| :: MatchFrom(pat[a], 0, t, i, ci, i, "").Some? {
        var a :| 0 <= a < |pat| && MatchFrom(pat[a], 0, t, i, ci, i, "").Some?;
        if a > 0 {
          assert pat[1..][a - 1] == pat[a];
        }
      }
      if exists a | 0 <= a < |pat[1..]| :: MatchFrom(pat[1..][a], 0, t, i, ci, i, "").Some? {
        var a :| 0 <= a < |pat[1..]| && MatchFrom(pat[1..][a], 0, t, i, ci, i, "").Some?;
        assert pat[a + 1] == pat[1..][a];
      }
    }
  }

  /** re.match with a plain string is str.startswith. */
  lemma LitMatchesStart(s: string, t: string)
    ensures MatchesStart(Lit(s), t) <==> Text.StartsWith(t, s)
  {
    LitMatchFrom(s, 0, t, 0, 0, "");
    assert s[0..] == s && t[0..] == t;
    assert MatchAt(Lit(s), t, 0, false) == MatchFrom(LitElems(s), 0, t, 0, false, 0, "");
  }

  /** Findall results are the groups of matches, in order; with no match at all the result is empty. */
  lemma {:induction false} FindAllEmpty(pat: Pattern, t: string, i: nat, ci: bool)
    requires i <= |t|
    ensures FindAll(pat, t, i, ci) == [] <==> SearchFrom(pat, t, i, ci).None?
    decreases |t| - i
  {
    if MatchAt(pat, t, i, ci).None? && i < |t| {
      FindAllEmpty(pat, t, i + 1, ci);
    }
  }
}
