/**
 * The Python values that `json.loads` produces, and the few Python operations the backend
 * applies to them without knowing their type: truth testing, `key in value`, `value[key]`,
 * iteration and hashing.
 *
 * A JSON object is kept as the dict Python builds from it: its entries in insertion order,
 * one entry per key.
 */
module PyJson {
  import opened Wrappers
  import opened Strings

  datatype Value =
    | JNull
    | JBool(b: bool)
    | JNum(n: real)
    | JStr(s: string)
    | JArr(items: seq<Value>)
    | JObj(entries: seq<(string, Value)>)

  /** Python's truth value: `None`, `False`, zero and empty containers are false. */
  predicate Truthy(v: Value) {
    match v
    case JNull => false
    case JBool(b) => b
    case JNum(n) => n != 0.0
    case JStr(s) => s != ""
    case JArr(items) => items != []
    case JObj(entries) => entries != []
  }

  function Keys(entries: seq<(string, Value)>): seq<string> {
    if |entries| == 0 then [] else [entries[0].0] + Keys(entries[1..])
  }

  /** `d.get(key)` on a dict. */
  function Get(entries: seq<(string, Value)>, key: string): (r: Option<Value>)
    ensures r.Some? <==> key in Keys(entries)
  {
    if |entries| == 0 then None
    else if entries[0].0 == key then Some(entries[0].1)
    else Get(entries[1..], key)
  }

  /** `d.get(key, default)` on a dict. */
  function GetOr(entries: seq<(string, Value)>, key: string, default: Value): Value {
    Get(entries, key).GetOr(default)
  }

  /** Python's `key in v` for a string key: dict keys, list members, substrings;
      any other type raises `TypeError` (None here). */
  function PyIn(key: string, v: Value): Option<bool> {
    match v
    case JObj(entries) => Some(key in Keys(entries))
    case JArr(items) => Some(JStr(key) in items)
    case JStr(s) => Some(Contains(s, key))
    case _ => None
  }

  /** What `for x in v` walks over: list items, dict keys, string characters;
      any other type raises `TypeError` (None here). */
  function PyIter(v: Value): Option<seq<Value>> {
    match v
    case JArr(items) => Some(items)
    case JObj(entries) => Some(seq(|entries|, i requires 0 <= i < |entries| => JStr(entries[i].0)))
    case JStr(s) => Some(seq(|s|, i requires 0 <= i < |s| => JStr([s[i]])))
    case _ => None
  }

  /** Lists and dicts cannot be put in a set. */
  predicate Hashable(v: Value) {
    !v.JArr? && !v.JObj?
  }

  /** The value Python's set membership compares: `True == 1` (and `False == 0`). */
  function HashKey(v: Value): Value {
    match v
    case JBool(b) => JNum(if b then 1.0 else 0.0)
    case _ => v
  }
}
