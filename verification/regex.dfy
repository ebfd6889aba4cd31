/**
 * Python's `re` engine, left abstract.  The classifier's fixed patterns and
 * the patterns users write into configuration files are searched through
 * these functions; only a pattern without metacharacters is given its
 * meaning outright (searching for it is a substring test).
 */
module RegexOracle {
  import opened Wrappers
  import Text

  /**
   * re.search(pattern, text, re.IGNORECASE if the flag is set): None when
   * nothing matches, otherwise the text of group 1 (empty for a pattern
   * without a group).
   */
  type Search = (string, string, bool) -> Option<string>

  /** A pattern of a fixed table: plain text, or a real regular expression. */
  datatype Pat = Plain(s: string) | Regex(src: string)

  /** re.search(p, text) succeeds. */
  predicate Hits(search: Search, p: Pat, text: string)
  {
    match p
    case Plain(s) => Text.Contains(text, s)
    case Regex(src) => search(src, text, false).Some?
  }

  /** Some pattern of the list matches. */
  predicate AnyHit(search: Search, pats: seq<Pat>, text: string)
  {
    exists k | 0 <= k < |pats| :: Hits(search, pats[k], text)
  }

  /** Group 1 of the first pattern, in list order, that matches (case-insensitively). */
  function FirstGroup(search: Search, pats: seq<string>, text: string): (r: Option<string>)
    ensures r.None? <==> forall k | 0 <= k < |pats| :: search(pats[k], text, true).None?
    ensures r.Some? ==> exists k | 0 <= k < |pats| :: search(pats[k], text, true) == r
                          && forall j | 0 <= j < k :: search(pats[j], text, true).None?
    decreases |pats|
  {
    if pats == [] then None
    else if search(pats[0], text, true).Some? then search(pats[0], text, true)
    else
      var r := FirstGroup(search, pats[1..], text);
      if r.Some? then
        var k :| 0 <= k < |pats[1..]| && search(pats[1..][k], text, true) == r
                 && forall j | 0 <= j < k :: search(pats[1..][j], text, true).None?;
        assert search(pats[k + 1], text, true) == r;
        assert forall j | 0 <= j < k + 1 :: search(pats[j], text, true).None?;
        r
      else
        assert forall k | 1 <= k < |pats| :: pats[k] == pats[1..][k - 1];
        r
  }
}
