/** `castBoolean` (src/utilities/cast_boolean.ts): JavaScript truthiness,
    except that an array counts only when it has elements. */
module BooleanCast {
  import opened JsValue

  /** `castBoolean`: an array is true exactly when it has an element; any
      other value is true exactly when it is truthy. */
  function CastBoolean(v: Value): (r: bool)
    ensures v.Arr? ==> (r <==> v.items != [])
    ensures !v.Arr? ==> (r <==> Truthy(v))
    ensures r ==> Truthy(v)
  {
    if v.Arr? then |v.items| > 0 else Truthy(v)
  }

  /** The cast agrees with JavaScript truthiness on every value but one: the
      empty array, which is truthy in JavaScript and `false` here. */
  lemma CastDiffersFromTruthinessOnlyOnEmptyArray(v: Value)
    ensures CastBoolean(v) != Truthy(v) <==> v == Arr([])
  {
  }

  /** An array gives `true` exactly when it has an element, whatever its
      elements are. */
  lemma CastArray(items: seq<Value>)
    ensures CastBoolean(Arr(items)) <==> |items| > 0
    ensures CastBoolean(Arr([Bool(false)])) && CastBoolean(Arr([Null]))
  {
  }

  /** The falsy values, and truthy values that are easy to mistake for falsy. */
  lemma CastCases()
    ensures !CastBoolean(Null) && !CastBoolean(Undefined) && !CastBoolean(Bool(false))
    ensures !CastBoolean(Num(0)) && !CastBoolean(Str("")) && !CastBoolean(Arr([]))
    ensures CastBoolean(Str("false")) && CastBoolean(Str("0")) && CastBoolean(Num(-1))
    ensures CastBoolean(Obj([])) && CastBoolean(Date(0))
  {
  }
}
