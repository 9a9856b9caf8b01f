/** The small collection helpers of src/utilities/common.ts. */
module Common {
  import opened Outcomes
  import opened JsValue

  /** `getValidArray`: the array itself, or `[]` for anything that is not an
      array (`undefined` included). */
  function GetValidArray(maybeArray: Value): (r: seq<Value>)
    ensures maybeArray.Arr? ==> r == maybeArray.items
    ensures !maybeArray.Arr? ==> r == []
  {
    if maybeArray == Undefined then []
    else if maybeArray.Arr? then maybeArray.items
    else []
  }

  /** `isEmptyArray`: true for an empty array and for every non-array. */
  function IsEmptyArray(maybeArray: Value): (r: bool)
    ensures r <==> !maybeArray.Arr? || maybeArray.items == []
  {
    |GetValidArray(maybeArray)| == 0
  }

  /** The value of a string of decimal digits. */
  function DigitsValue(key: string): nat
    requires AllDigits(key)
  {
    if key == [] then 0
    else DigitsValue(key[..|key| - 1]) * 10 + (key[|key| - 1] as int - '0' as int)
  }

  /** `key` is made of decimal digits only. */
  predicate AllDigits(key: string) {
    forall i :: 0 <= i < |key| ==> '0' <= key[i] <= '9'
  }

  /** The index a property key names on an array or a string: the key is the
      canonical decimal form of a natural number (no sign, no leading zero),
      and it names the number its digits spell. */
  function IndexKey(key: string): (r: Option<nat>)
    ensures r.Some? <==> key != [] && AllDigits(key) && (key[0] != '0' || key == "0")
    ensures r.Some? ==> r.value == DigitsValue(key)
    ensures key == "0" ==> r == Some(0)
    ensures key == "length" ==> r.None?
  {
    assert key == "0" ==> key[..|key| - 1] == [] && DigitsValue(key) == 0;
    if key != [] && AllDigits(key) && (key[0] != '0' || key == "0")
    then Some(DigitsValue(key))
    else None
  }

  /** The property read `obj[key]` on a non-nullish value: an object's own
      entry, an array's element or a string's character at an index key, and
      the `length` of an array or a string; every other read gives
      `undefined`. */
  function Property(obj: Value, key: string): (r: Value)
    ensures obj.Obj? && key in Keys(obj.fields) ==> Some(r) == Get(obj.fields, key)
    ensures obj.Obj? && key !in Keys(obj.fields) ==> r == Undefined
    ensures obj.Arr? && IndexKey(key).Some? && IndexKey(key).value < |obj.items| ==> r == obj.items[IndexKey(key).value]
    ensures obj.Str? && IndexKey(key).Some? && IndexKey(key).value < |obj.s| ==> r == Str([obj.s[IndexKey(key).value]])
    ensures obj.Arr? && key == "length" ==> r == Num(|obj.items|)
    ensures obj.Str? && key == "length" ==> r == Num(|obj.s|)
    ensures ((obj.Arr? || obj.Str?) && key != "length"
      && !(IndexKey(key).Some? && IndexKey(key).value < (if obj.Arr? then |obj.items| else |obj.s|)))
      ==> r == Undefined
    ensures r != Undefined ==> obj.Obj? || obj.Arr? || obj.Str?
  {
    match obj
    case Obj(fields) => Get(fields, key).GetOr(Undefined)
    case Arr(items) =>
      if key == "length" then Num(|items|)
      else if IndexKey(key).Some? && IndexKey(key).value < |items| then items[IndexKey(key).value]
      else Undefined
    case Str(s) =>
      if key == "length" then Num(|s|)
      else if IndexKey(key).Some? && IndexKey(key).value < |s| then Str([s[IndexKey(key).value]])
      else Undefined
    case _ => Undefined
  }

  /** Index keys on arrays and strings: `"1"` reads the second element,
      while `"01"` and `"-1"` are not indexes and read `undefined`. */
  lemma IndexReads(a: Value, b: Value)
    ensures Property(Arr([a, b]), "1") == b && Property(Arr([a, b]), "0") == a
    ensures Property(Arr([a, b]), "01") == Undefined && Property(Arr([a, b]), "-1") == Undefined
    ensures Property(Arr([a, b]), "2") == Undefined
    ensures Property(Str("ab"), "1") == Str("b") && Property(Str("ab"), "length") == Num(2)
  {
    assert IndexKey("1") == Some(1);
    assert IndexKey("2") == Some(2);
    assert IndexKey("01").None?;
    assert IndexKey("-1").None?;
  }

  /** One iteration of `pickBy`'s loop keeps its invariant, whatever value
      `pick` reads for a key. */
  lemma PickStep(pick: string -> Value, keys: seq<string>, i: nat, picked: Dict<Value>)
    requires i < |keys|
    requires Keys(picked) == Dedup(keys[..i]) && UniqueKeys(picked)
    requires forall k :: k in keys[..i] ==> Get(picked, k) == Some(pick(k))
    ensures var next := Put(picked, keys[i], pick(keys[i]));
      && Keys(next) == Dedup(keys[..i + 1]) && UniqueKeys(next)
      && forall k :: k in keys[..i + 1] ==> Get(next, k) == Some(pick(k))
  {
    var key := keys[i];
    DedupSnoc(keys[..i], key);
    assert keys[..i + 1] == keys[..i] + [key];
    var next := Put(picked, key, pick(key));
    PutKeys(picked, key, pick(key));
    forall k | k in keys[..i + 1] ensures Get(next, k) == Some(pick(k)) {
      if k != key { assert k in keys[..i]; }
    }
  }

  /** `pickBy`: `{}` for `null`/`undefined`; otherwise a fresh object holding
      exactly the listed keys, in first-listed order, each mapped to
      `obj[key]` (`undefined` when `obj` lacks it). */
  method PickBy(obj: Value, keys: seq<string>) returns (result: Value)
    ensures IsNullish(obj) ==> result == Obj([])
    ensures !IsNullish(obj) ==> result.Obj?
    ensures !IsNullish(obj) ==> Keys(result.fields) == Dedup(keys) && UniqueKeys(result.fields)
    ensures !IsNullish(obj) ==> forall k :: k in keys ==> Get(result.fields, k) == Some(Property(obj, k))
  {
    if IsNullish(obj) {
      return Obj([]);
    }
    var picked: Dict<Value> := [];
    var i := 0;
    while i < |keys|
      invariant 0 <= i <= |keys|
      invariant Keys(picked) == Dedup(keys[..i]) && UniqueKeys(picked)
      invariant forall k :: k in keys[..i] ==> Get(picked, k) == Some(Property(obj, k))
    {
      PickStep(k => Property(obj, k), keys, i, picked);
      picked := Put(picked, keys[i], Property(obj, keys[i]));
      i := i + 1;
    }
    assert keys[..i] == keys;
    result := Obj(picked);
  }

  /** `trimKeys`: a copy of `source` without the listed keys; every other entry
      is kept with its value. The input is a value, so it is not changed. */
  method TrimKeys(source: Dict<Value>, keys: seq<string>) returns (result: Dict<Value>)
    ensures forall k :: Get(result, k) == if k in keys then None else Get(source, k)
    ensures forall e :: e in result ==> e in source
    ensures UniqueKeys(source) ==> UniqueKeys(result)
  {
    result := source;
    var i := 0;
    while i < |keys|
      invariant 0 <= i <= |keys|
      invariant forall k :: Get(result, k) == if k in keys[..i] then None else Get(source, k)
      invariant forall e :: e in result ==> e in source
      invariant UniqueKeys(source) ==> UniqueKeys(result)
    {
      assert keys[..i + 1] == keys[..i] + [keys[i]];
      DeleteGet(result, keys[i]);
      DeleteMembers(result, keys[i]);
      result := Delete(result, keys[i]);
      i := i + 1;
    }
    assert keys[..i] == keys;
  }

  /** Instant `t` lies in the half-open range [start, end). */
  predicate During(t: int, range: (int, int)) {
    range.0 <= t < range.1
  }

  /** `checkOverlapTime`, with each `Date` as its instant in milliseconds.
      For non-empty ranges it holds exactly when some instant lies in both. */
  function CheckOverlapTime(range1: (int, int), range2: (int, int)): (r: bool)
    ensures range1.0 < range1.1 && range2.0 < range2.1 ==>
      (r <==> exists t :: During(t, range1) && During(t, range2))
  {
    var t := if range1.0 < range2.0 then range2.0 else range1.0;
    assert range1.0 < range1.1 && range2.0 < range2.1 && range1.0 < range2.1 && range2.0 < range1.1 ==>
      During(t, range1) && During(t, range2);
    range1.0 < range2.1 && range2.0 < range1.1
  }

  /** Overlap does not depend on the order of the two ranges. */
  lemma OverlapSymmetric(range1: (int, int), range2: (int, int))
    ensures CheckOverlapTime(range1, range2) == CheckOverlapTime(range2, range1)
  {
  }

  /** Ranges that only touch (one ends when the other starts) do not overlap. */
  lemma TouchingRangesDoNotOverlap(start1: int, end1: int, end2: int)
    ensures !CheckOverlapTime((start1, end1), (end1, end2))
  {
  }

  /** The overlap test does not validate its ranges: an empty or backwards
      range can still be reported as overlapping a range it shares no
      instant with. */
  lemma UncheckedRangesCanOverlap()
    ensures CheckOverlapTime((5, 3), (0, 10)) && forall t :: !During(t, (5, 3))
    ensures CheckOverlapTime((3, 3), (0, 10)) && forall t :: !During(t, (3, 3))
  {
  }
}
