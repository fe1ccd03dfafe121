/** Parsed JSON request values and the few Python operations the handlers apply to them. */
module Json {
  import opened Wrappers
  import opened Text

  /**
   * A value as `request.get_json()` hands it to a handler. Numbers are integers;
   * object members keep their textual order. `JNull` is Python's `None`.
   */
  datatype Json =
    | JNull
    | JBool(b: bool)
    | JNum(n: int)
    | JStr(s: string)
    | JArr(items: seq<Json>)
    | JObj(members: seq<(string, Json)>)

  /** The member names of an object, in order. */
  function Keys(members: seq<(string, Json)>): (ks: seq<string>)
    ensures |ks| == |members|
    ensures forall i :: 0 <= i < |members| ==> ks[i] == members[i].0
  {
    if |members| == 0 then [] else Keys(members[..|members| - 1]) + [members[|members| - 1].0]
  }

  /**
   * `obj.get(key, None)`: the value of the last member named `key` (the one `json.loads`
   * keeps), or `JNull` when there is none.
   */
  function Get(members: seq<(string, Json)>, key: string): (v: Json)
    ensures key !in Keys(members) ==> v == JNull
    ensures v != JNull ==> (key, v) in members
  {
    if |members| == 0 then JNull
    else if members[|members| - 1].0 == key then members[|members| - 1].1
    else Get(members[..|members| - 1], key)
  }

  /**
   * Python's `needle in container` for a string needle: member-name test on an object,
   * substring test on a string, element equality on a list. `None` when Python raises
   * `TypeError` (null, booleans and numbers are not containers).
   */
  function PyContains(container: Json, needle: string): Option<bool> {
    match container
    case JObj(members) => Some(needle in Keys(members))
    case JStr(s) => Some(IsSubstring(needle, s))
    case JArr(items) => Some(JStr(needle) in items)
    case _ => None
  }

  /**
   * The values `for x in v` visits: the items of a list, the member names of an object,
   * the one-character strings of a string. `None` when Python raises `TypeError`.
   */
  function Elements(v: Json): Option<seq<Json>> {
    match v
    case JArr(items) => Some(items)
    case JObj(members) => Some(seq(|members|, i requires 0 <= i < |members| => JStr(members[i].0)))
    case JStr(s) => Some(seq(|s|, i requires 0 <= i < |s| => JStr([s[i]])))
    case _ => None
  }
}
