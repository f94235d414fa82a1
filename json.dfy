/** The values `JSON.parse` produces, and the few JavaScript operations the
    viewer applies to them: property reads, truthiness, `== null`,
    `Object.entries`, `parseFloat` and conversion to a string. */
module JsonValue {
  import opened Wrappers
  import Text

  /** A parsed JSON value. An object keeps its members in source order; where
      a key repeats, the last occurrence is the one `JSON.parse` keeps. */
  datatype Json =
    | JNull
    | JBool(b: bool)
    | JNum(n: real)
    | JStr(s: string)
    | JArr(items: seq<Json>)
    | JObj(members: seq<(string, Json)>)

  /** `typeof v === 'object' && v !== null`: objects and arrays. */
  predicate IsObjectType(v: Json) {
    v.JObj? || v.JArr?
  }

  /** The value of `key`, from its last occurrence. */
  function Lookup(members: seq<(string, Json)>, key: string): (r: Option<Json>)
    ensures r.Some? <==> exists i :: 0 <= i < |members| && members[i].0 == key
    ensures r.Some? ==> exists i :: && 0 <= i < |members| && members[i] == (key, r.value)
                                    && forall j :: i < j < |members| ==> members[j].0 != key
  {
    if |members| == 0 then None
    else if members[|members| - 1].0 == key then Some(members[|members| - 1].1)
    else
      var init := members[..|members| - 1];
      var r := Lookup(init, key);
      assert r.Some? <==> exists i :: 0 <= i < |members| && members[i].0 == key by {
        if exists i :: 0 <= i < |members| && members[i].0 == key {
          var i :| 0 <= i < |members| && members[i].0 == key;
          assert init[i] == members[i];
        }
      }
      assert r.Some? ==> exists i :: && 0 <= i < |members| && members[i] == (key, r.value)
                                     && forall j :: i < j < |members| ==> members[j].0 != key by {
        if r.Some? {
          var i :| && 0 <= i < |init| && init[i] == (key, r.value)
                   && forall j :: i < j < |init| ==> init[j].0 != key;
          assert members[i] == init[i];
          assert forall j :: i < j < |members| ==> members[j].0 != key by {
            forall j | i < j < |members| ensures members[j].0 != key {
              if j < |init| {
                assert members[j] == init[j];
              }
            }
          }
        }
      }
      r
  }

  /** The property read `v.key`; `None` is `undefined`. Only objects have the
      properties the viewer reads: on an array, a string, a number or a
      boolean each of them is `undefined`. */
  function Get(v: Json, key: string): (r: Option<Json>)
    ensures r.Some? ==> v.JObj?
  {
    if v.JObj? then Lookup(v.members, key) else None
  }

  /** `x == null`: true of `undefined` and of `null`. */
  predicate IsNullish(x: Option<Json>) {
    x.None? || x.value.JNull?
  }

  /** JavaScript truthiness: `undefined`, `null`, `false`, `0` and `""` are
      falsy; every object and array is truthy. */
  predicate Truthy(x: Option<Json>) {
    match x
    case None => false
    case Some(v) =>
      match v
      case JNull => false
      case JBool(b) => b
      case JNum(n) => n != 0.0
      case JStr(s) => s != []
      case JArr(_) => true
      case JObj(_) => true
  }

  /** `parseFloat(v)`: a number is its own value; any other value goes through
      the text-to-number conversion `numOf`. */
  function ParseFloat(numOf: Json -> real, v: Json): (r: real)
    ensures v.JNum? ==> r == v.n
  {
    if v.JNum? then v.n else numOf(v)
  }

  /** `` `${v}` ``: the string conversion of a JSON value; `numStr` is
      `Number.prototype.toString`. An array is the comma-joined conversion of
      its elements, with `null` elements written as nothing. */
  function ToJsString(numStr: real -> string, v: Json): string
    decreases v, 1
  {
    match v
    case JNull => "null"
    case JBool(b) => if b then "true" else "false"
    case JNum(n) => numStr(n)
    case JStr(s) => s
    case JArr(items) => JoinElements(numStr, v, items)
    case JObj(_) => "[object Object]"
  }

  function JoinElements(numStr: real -> string, ghost parent: Json, items: seq<Json>): string
    requires forall i :: 0 <= i < |items| ==> items[i] < parent
    decreases parent, 0, |items|
  {
    if |items| == 0 then ""
    else
      var head := if items[0].JNull? then "" else ToJsString(numStr, items[0]);
      if |items| == 1 then head else head + "," + JoinElements(numStr, parent, items[1..])
  }

  /** `Object.entries(v)`: an object's members; an array's or a string's
      elements keyed by their decimal index; nothing for a number or a
      boolean. (The JavaScript rule that lists integer-like object keys first
      is not modelled: members stay in document order.) */
  function Entries(v: Json): (r: seq<(string, Json)>)
    ensures v.JObj? ==> r == v.members
    ensures !IsObjectType(v) && !v.JStr? ==> r == []
  {
    match v
    case JObj(members) => members
    case JArr(items) => seq(|items|, i requires 0 <= i < |items| => (Text.NatToString(i), items[i]))
    case JStr(s) => seq(|s|, i requires 0 <= i < |s| => (Text.NatToString(i), JStr([s[i]])))
    case _ => []
  }
}
