/**
 * Values read from YAML and JSON documents, with the Python operations the
 * modelled code applies to them: truthiness, dict.get, isinstance tests,
 * str() and int().  Objects keep key order, as Python dicts do.  A float
 * carries the text Python prints for it, which the document parser supplies.
 */
module Json {
  import opened Wrappers
  import Text
  import Dict

  datatype Json =
    | JNull
    | JBool(b: bool)
    | JInt(i: int)
    | JFloat(r: real, repr: string)
    | JStr(s: string)
    | JList(items: seq<Json>)
    | JObj(fields: seq<(string, Json)>)

  /** Python's bool(x). */
  predicate Truthy(j: Json)
  {
    match j
    case JNull => false
    case JBool(b) => b
    case JInt(i) => i != 0
    case JFloat(r, _) => r != 0.0
    case JStr(s) => s != ""
    case JList(items) => items != []
    case JObj(fields) => fields != []
  }

  /** d.get(key) on a dict; None for a missing key and for a value that is not a dict. */
  function Get(j: Json, key: string): (r: Option<Json>)
    ensures r.Some? ==> j.JObj? && Dict.HasKey(j.fields, key)
    ensures j.JObj? && Dict.HasKey(j.fields, key) ==> r.Some?
  {
    if j.JObj? then Dict.Get(j.fields, key) else None
  }

  /** d.get(key, default) */
  function GetOr(j: Json, key: string, default: Json): Json
  {
    Get(j, key).GetOr(default)
  }

  /** `key in d` */
  predicate Has(j: Json, key: string)
  {
    j.JObj? && Dict.HasKey(j.fields, key)
  }

  /** Python's str(x) for a string, number, bool or None; containers print with repr(). */
  function PyStr(j: Json): string
  {
    match j
    case JStr(s) => s
    case _ => Repr(j)
  }

  /** Python's repr(x); quotes inside strings are not escaped. */
  function Repr(j: Json): string
  {
    match j
    case JNull => "None"
    case JBool(b) => if b then "True" else "False"
    case JInt(i) => Text.IntToString(i)
    case JFloat(_, repr) => repr
    case JStr(s) => "'" + s + "'"
    case JList(items) => "[" + ReprItems(items) + "]"
    case JObj(fields) => "{" + ReprFields(fields) + "}"
  }

  function ReprItems(items: seq<Json>): string
    decreases items
  {
    if |items| == 0 then ""
    else if |items| == 1 then Repr(items[0])
    else Repr(items[0]) + ", " + ReprItems(items[1..])
  }

  function ReprFields(fields: seq<(string, Json)>): string
    decreases fields
  {
    if |fields| == 0 then ""
    else
      assert fields[0].1 < fields[0];
      var entry := "'" + fields[0].0 + "': " + Repr(fields[0].1);
      if |fields| == 1 then entry else entry + ", " + ReprFields(fields[1..])
  }

  /** Python's int(x) for the values it accepts: ints, bools, floats (truncated toward zero) and decimal text. */
  function IntOf(j: Json): (r: Option<int>)
    ensures j.JInt? ==> r == Some(j.i)
    ensures j.JNull? || j.JList? || j.JObj? ==> r.None?
  {
    match j
    case JInt(i) => Some(i)
    case JBool(b) => Some(if b then 1 else 0)
    case JFloat(x, _) => Some(if x >= 0.0 then x.Floor else -((-x).Floor))
    case JStr(s) => ParseInt(s)
    case _ => None
  }

  /** int(s) for text: surrounding whitespace, an optional sign, then ASCII digits. */
  function ParseInt(s: string): (r: Option<int>)
    ensures r.Some? ==> Text.Strip(s) != ""
  {
    var t := Text.Strip(s);
    if |t| > 0 && (t[0] == '-' || t[0] == '+') && Text.IsDigits(t[1..]) then
      var v: int := Text.DigitsValue(t[1..]);
      Some(if t[0] == '-' then -v else v)
    else if Text.IsDigits(t) then Some(Text.DigitsValue(t))
    else None
  }

  /** int(str(n)) == n: the decimal text of a natural number reads back as that number. */
  lemma ParseIntOfNatToString(n: nat)
    ensures ParseInt(Text.NatToString(n)) == Some(n)
  {
    var s := Text.NatToString(n);
    StripDigits(s);
    Text.NatToStringValue(n);
    assert s[0] != '-' && s[0] != '+';
  }

  /** Digit strings have no surrounding whitespace. */
  lemma StripDigits(s: string)
    requires Text.IsDigits(s)
    ensures Text.Strip(s) == s
  {
    assert !Text.IsSpace(s[0]);
    assert !Text.IsSpace(s[|s| - 1]);
  }
}
