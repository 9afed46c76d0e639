/**
 * The dynamic values the bot reads from its secrets store and from incoming
 * webhook bodies (decoded JSON), with the few Python operations applied to
 * them: truthiness, subscripting, `dict.get`, `==` and `in`.
 * Floating-point numbers are not modelled.
 */
module Json {
  import opened Wrappers
  import opened Text

  datatype Json =
    | JNull
    | JBool(b: bool)
    | JInt(i: int)
    | JStr(s: string)
    | JList(items: seq<Json>)
    | JObj(fields: map<string, Json>)

  /** Python's `bool(v)`. */
  predicate Truthy(j: Json) {
    match j
    case JNull => false
    case JBool(b) => b
    case JInt(i) => i != 0
    case JStr(s) => s != ""
    case JList(items) => items != []
    case JObj(fields) => fields != map[]
  }

  /** `v[key]` succeeds: `v` is a dict holding `key` (otherwise Python raises KeyError or TypeError). */
  predicate Has(j: Json, key: string) {
    j.JObj? && key in j.fields
  }

  function At(j: Json, key: string): Json
    requires Has(j, key)
  {
    j.fields[key]
  }

  /** `d.get(key)` on a dict: the value, or `None` when the key is absent. */
  function Get(d: map<string, Json>, key: string): (r: Json)
    ensures key !in d ==> r == JNull
  {
    if key in d then d[key] else JNull
  }

  /** The integer a value stands for in arithmetic and comparisons (`bool` is an `int` in Python). */
  function NumberOf(j: Json): Option<int> {
    match j
    case JInt(i) => Some(i)
    case JBool(b) => Some(if b then 1 else 0)
    case _ => None
  }

  /**
   * Python's `a == b`. Numbers compare by value across `int` and `bool`;
   * everything else compares structurally (so a bool nested inside a list is
   * not equated with the matching int, which Python would do).
   */
  predicate PyEq(a: Json, b: Json) {
    if NumberOf(a).Some? && NumberOf(b).Some? then NumberOf(a) == NumberOf(b) else a == b
  }

  predicate OccursAt(t: string, s: string, i: int) {
    0 <= i <= |s| - |t| && s[i..i + |t|] == t
  }

  /** Python's `t in s` for two strings. */
  predicate IsSubstring(t: string, s: string) {
    exists i | 0 <= i <= |s| :: OccursAt(t, s, i)
  }

  /** Python's `x in container`; `None` stands for the TypeError of a container that does not support it. */
  function Contains(container: Json, x: Json): (r: Option<bool>)
    ensures container.JList? ==> r == Some(exists i :: 0 <= i < |container.items| && PyEq(container.items[i], x))
  {
    match container
    case JList(items) => Some(exists i :: 0 <= i < |items| && PyEq(items[i], x))
    case JStr(s) => if x.JStr? then Some(IsSubstring(x.s, s)) else None
    case JObj(fields) =>
      if x.JList? || x.JObj? then None else Some(x.JStr? && x.s in fields)
    case _ => None
  }

  /**
   * The text `f"{v}"` gives a scalar value; for a list or a dict, whose text
   * starts with a bracket, the text is not modelled and the result is `None`.
   */
  function StrOf(v: Json): Option<string> {
    match v
    case JStr(s) => Some(s)
    case JInt(i) => Some(IntStr(i))
    case JNull => Some("None")
    case JBool(b) => Some(if b then "True" else "False")
    case _ => None
  }
}
