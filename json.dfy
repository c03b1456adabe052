/**
 * JSON values as the Rust (`serde_json::Value`) and TypeScript (`unknown` from
 * `JSON.parse`) code sees them. Numbers are whole numbers; `Infinity` is what
 * `JSON.parse` makes of a literal too large for a double (`1e400`, `-1e400`), and
 * `NaN` stands for the value a JavaScript caller can pass where a number is expected.
 */
module Json {
  import opened Wrappers
  import opened Text

  datatype Value =
    | Null
    | Bool(b: bool)
    | Num(n: int)
    | Infinity(negative: bool)
    | NaN
    | Str(s: string)
    | Arr(items: seq<Value>)
    | Obj(fields: map<string, Value>)

  const EmptyObject: Value := Obj(map[])

  /** `value.get(key)`: the member of an object, nothing for any other value. */
  function Get(v: Value, key: string): (r: Option<Value>)
    ensures r.Some? <==> v.Obj? && key in v.fields
  {
    if v.Obj? && key in v.fields then Some(v.fields[key]) else None
  }

  /** `value.get(key).and_then(Value::as_str)` / `typeof content[key] === "string"`. */
  function GetString(v: Value, key: string): (r: Option<string>)
    ensures r.Some? <==> v.Obj? && key in v.fields && v.fields[key].Str?
    ensures r.Some? ==> v.fields[key] == Str(r.value)
  {
    match Get(v, key)
    case Some(Str(s)) => Some(s)
    case _ => None
  }

  /** `value.get(key).and_then(Value::as_array)` / `Array.isArray(content[key])`. */
  function GetArray(v: Value, key: string): (r: Option<seq<Value>>)
    ensures r.Some? <==> v.Obj? && key in v.fields && v.fields[key].Arr?
    ensures r.Some? ==> v.fields[key] == Arr(r.value)
  {
    match Get(v, key)
    case Some(Arr(items)) => Some(items)
    case _ => None
  }

  /** The member `key` when it is itself an object. */
  function GetObject(v: Value, key: string): (r: Option<Value>)
    ensures r.Some? <==> v.Obj? && key in v.fields && v.fields[key].Obj?
    ensures r.Some? ==> r.value == v.fields[key]
  {
    match Get(v, key)
    case Some(Obj(m)) => Some(Obj(m))
    case _ => None
  }

  /** `typeof v === "object"` for a truthy value: an object or an array. */
  predicate IsObjectLike(v: Value)
  {
    v.Obj? || v.Arr?
  }

  /** The entries of an array as a JavaScript object sees them: keyed by the decimal index. */
  function ArrayEntries(items: seq<Value>): (r: map<string, Value>)
    ensures forall i :: 0 <= i < |items| ==> NatToString(i) in r && r[NatToString(i)] == items[i]
    ensures forall k :: k in r ==> exists i :: 0 <= i < |items| && k == NatToString(i)
  {
    if items == [] then map[]
    else
      var n := |items| - 1;
      var prev := ArrayEntries(items[..n]);
      var r := prev[NatToString(n) := items[n]];
      assert forall i :: 0 <= i < |items| ==> NatToString(i) in r && r[NatToString(i)] == items[i] by {
        forall i | 0 <= i < |items|
          ensures NatToString(i) in r && r[NatToString(i)] == items[i]
        {
          if i < n {
            NatToStringDistinct(i, n);
            assert items[..n][i] == items[i];
          }
        }
      }
      assert forall k :: k in r ==> exists i :: 0 <= i < |items| && k == NatToString(i) by {
        forall k | k in r
          ensures exists i :: 0 <= i < |items| && k == NatToString(i)
        {
          if k in prev {
            var i :| 0 <= i < n && k == NatToString(i);
          } else {
            assert k == NatToString(n);
          }
        }
      }
      r
  }

  lemma {:induction false} NatToStringDistinct(i: nat, j: nat)
    requires i != j
    ensures NatToString(i) != NatToString(j)
  {
    if NatToString(i) == NatToString(j) {
      NatToStringInjective(i, j);
    }
  }

  /** `Object.entries(v)` for an object or an array; nothing for any other value. */
  function Entries(v: Value): (r: map<string, Value>)
    ensures v.Obj? ==> r == v.fields
    ensures !IsObjectLike(v) ==> r == map[]
  {
    match v
    case Obj(m) => m
    case Arr(items) => ArrayEntries(items)
    case _ => map[]
  }
}
