/**
  The JavaScript values that travel in realtime payloads and service replies,
  and the three operations the handlers apply to them: property access
  (`v.key`), optional indexing (`v?.[0]`) and object spread (`{...v}`).
  Numbers are kept as integers: the core only compares and copies them.
 */
module Json {
  import opened Wrappers

  datatype Value =
    | Undefined
    | Null
    | Bool(b: bool)
    | Num(n: int)
    | Str(s: string)
    | Arr(items: seq<Value>)
    | Obj(fields: map<string, Value>)

  /** `undefined` or `null`: the values whose property access throws. */
  predicate Nullish(v: Value) {
    v.Undefined? || v.Null?
  }

  /** `v.key`. None stands for the TypeError thrown when `v` is nullish.
      Only the own fields of records are modelled; a missing field reads as
      `undefined`, as do the fields of every other non-nullish value. */
  function Member(v: Value, key: string): (r: Option<Value>)
    ensures r.None? <==> Nullish(v)
    ensures r.Some? && !v.Obj? ==> r.value == Undefined
  {
    match v
    case Undefined => None
    case Null => None
    case Obj(f) => Some(if key in f then f[key] else Undefined)
    case _ => Some(Undefined)
  }

  /** `v?.[0]`: `undefined` for a nullish `v`, otherwise the element at index
      0 (for a string, its first character as a one-character string). */
  function OptionalFirst(v: Value): (r: Value)
    ensures Nullish(v) ==> r == Undefined
    ensures v.Arr? && |v.items| > 0 ==> r == v.items[0]
    ensures v.Arr? && |v.items| == 0 ==> r == Undefined
  {
    match v
    case Arr(items) => if |items| > 0 then items[0] else Undefined
    case Str(s) => if |s| > 0 then Str([s[0]]) else Undefined
    case Obj(f) => if "0" in f then f["0"] else Undefined
    case _ => Undefined
  }

  /** The fields `{...v}` copies out of `v`: a record's own fields, nothing
      for nullish values and primitives. */
  function OwnFields(v: Value): (r: map<string, Value>)
    ensures !v.Obj? ==> r == map[]
    ensures v.Obj? ==> forall k :: k in v.fields ==> k in r && r[k] == v.fields[k]
  {
    if v.Obj? then v.fields else map[]
  }

  /** `{...a, ...b}`: keys of `b` win over keys of `a`. */
  function Spread(a: Value, b: Value): (r: map<string, Value>)
    ensures r.Keys == OwnFields(a).Keys + OwnFields(b).Keys
    ensures forall k :: k in OwnFields(b) ==> r[k] == OwnFields(b)[k]
    ensures forall k :: k in OwnFields(a) && k !in OwnFields(b) ==> r[k] == OwnFields(a)[k]
  {
    OwnFields(a) + OwnFields(b)
  }
}
