/** Option and Result, the two wrappers the rest of the model uses for
    "absent" (JavaScript `undefined`) and for thrown errors. */
module Outcomes {

  datatype Option<+T> = None | Some(value: T) {
    /** The value, or `default` when absent (JavaScript `x ?? default`). */
    function GetOr(default: T): T {
      match this
      case Some(v) => v
      case None => default
    }
  }

  datatype Result<+T, +E> = Ok(value: T) | Err(error: E)
}

/** JavaScript values as the core handles them: plain data that is handed to
    the ORM, returned to GraphQL or passed through the trimming helpers. */
module JsValue {
  import opened Outcomes

  /** A plain JavaScript object: its own enumerable entries in insertion order.
      Insertion order matters: it decides sort priority in an order map. */
  type Dict<V> = seq<(string, V)>

  /** `Date` carries its instant in milliseconds; `ILike` is the ORM's opaque
      case-insensitive pattern operator. Numbers are integers here. */
  datatype Value =
    | Undefined
    | Null
    | Bool(b: bool)
    | Num(n: int)
    | Str(s: string)
    | Arr(items: seq<Value>)
    | Obj(fields: Dict<Value>)
    | Date(ms: int)
    | ILike(pattern: string)

  /** JavaScript truthiness (`!!v`). Objects, arrays and dates are truthy. */
  function Truthy(v: Value): (r: bool)
    ensures !r <==> v in [Undefined, Null, Bool(false), Num(0), Str("")]
  {
    match v
    case Undefined => false
    case Null => false
    case Bool(b) => b
    case Num(n) => n != 0
    case Str(s) => s != ""
    case _ => true
  }

  /** `v == null` in JavaScript: true for `null` and `undefined` only. */
  predicate IsNullish(v: Value) {
    v == Undefined || v == Null
  }

  // ---------------------------------------------------------------------------
  // Objects as association lists
  // ---------------------------------------------------------------------------

  /** The object's keys in order (`Object.keys`). */
  function Keys<V>(d: Dict<V>): (ks: seq<string>)
    ensures |ks| == |d|
    ensures forall i :: 0 <= i < |d| ==> ks[i] == d[i].0
  {
    if d == [] then [] else [d[0].0] + Keys(d[1..])
  }

  /** A JavaScript object never holds the same key twice. */
  predicate UniqueKeys<V>(d: Dict<V>) {
    forall i, j :: 0 <= i < j < |d| ==> d[i].0 != d[j].0
  }

  /** No entry of `d` has key `k`. */
  predicate Lacks<V>(d: Dict<V>, k: string) {
    forall i :: 0 <= i < |d| ==> d[i].0 != k
  }

  /** Property read `d[k]`; None when the key is not an own property. */
  function Get<V>(d: Dict<V>, k: string): (r: Option<V>)
    ensures r.None? <==> Lacks(d, k)
    ensures r.Some? ==> (k, r.value) in d
    ensures UniqueKeys(d) ==> forall i :: 0 <= i < |d| && d[i].0 == k ==> r == Some(d[i].1)
  {
    if d == [] then None
    else if d[0].0 == k then Some(d[0].1)
    else Get(d[1..], k)
  }

  /** Property write `d[k] = v`: an existing key keeps its position, a new key
      is appended at the end. */
  function Put<V>(d: Dict<V>, k: string, v: V): (r: Dict<V>)
    ensures forall k' :: Get(r, k') == if k' == k then Some(v) else Get(d, k')
    ensures forall x :: x != k && Lacks(d, x) ==> Lacks(r, x)
    ensures UniqueKeys(d) ==> UniqueKeys(r)
  {
    if d == [] then [(k, v)]
    else if d[0].0 == k then
      assert forall x :: Lacks(d, x) ==> Lacks(d[1..], x);
      [(k, v)] + d[1..]
    else
      UniqueTail(d);
      assert forall x :: Lacks(d, x) ==> Lacks(d[1..], x);
      assert UniqueKeys(d) ==> Lacks(d[1..], d[0].0);
      [d[0]] + Put(d[1..], k, v)
  }

  /** The key order after `d[k] = v`: unchanged for a key `d` holds, the new
      key last otherwise. */
  lemma {:induction false} PutKeys<V>(d: Dict<V>, k: string, v: V)
    ensures Keys(Put(d, k, v)) == if k in Keys(d) then Keys(d) else Keys(d) + [k]
  {
    if d == [] {
    } else if d[0].0 == k {
      KeysCons((k, v), d[1..]);
      KeysCons(d[0], d[1..]);
      assert d == [d[0]] + d[1..];
    } else {
      var t := Put(d[1..], k, v);
      PutKeys(d[1..], k, v);
      KeysCons(d[0], t);
      KeysCons(d[0], d[1..]);
      assert d == [d[0]] + d[1..];
      if k in Keys(d[1..]) {
      } else {
        assert k !in Keys(d);
        assert [d[0].0] + (Keys(d[1..]) + [k]) == ([d[0].0] + Keys(d[1..])) + [k];
      }
    }
  }

  /** The keys of an object with one more entry in front. */
  lemma KeysCons<V>(e: (string, V), t: Dict<V>)
    ensures Keys([e] + t) == [e.0] + Keys(t)
  {
    assert ([e] + t)[1..] == t;
  }

  /** `delete d[k]`: no entry holds `k` afterwards. That the other entries
      survive is `DeleteGet` and `DeleteMembers`; that a key held once loses
      just its own entry, in place, is `DeleteAt`. */
  function Delete<V>(d: Dict<V>, k: string): (r: Dict<V>)
    ensures Lacks(r, k)
    ensures |r| <= |d|
  {
    if d == [] then []
    else if d[0].0 == k then Delete(d[1..], k)
    else [d[0]] + Delete(d[1..], k)
  }

  /** Every entry left by `delete d[k]` is an entry of `d` with another key. */
  lemma {:induction false} DeleteMembers<V>(d: Dict<V>, k: string)
    ensures forall e :: e in Delete(d, k) ==> e in d && e.0 != k
  {
    if d != [] {
      DeleteMembers(d[1..], k);
      DeleteCons(d[0], d[1..], k);
      assert d == [d[0]] + d[1..];
    }
  }

  /** After `delete d[k]` the key is gone and every other key reads as
      before; keys stay unique. */
  lemma {:induction false} DeleteGet<V>(d: Dict<V>, k: string)
    ensures forall k' :: Get(Delete(d, k), k') == if k' == k then None else Get(d, k')
    ensures UniqueKeys(d) ==> UniqueKeys(Delete(d, k))
  {
    if d != [] {
      UniqueTail(d);
      DeleteGet(d[1..], k);
      DeleteMembers(d[1..], k);
    }
  }

  /** The tail of an object with unique keys has unique keys, none of them
      the first key. */
  lemma UniqueTail<V>(d: Dict<V>)
    requires d != []
    ensures UniqueKeys(d) ==> UniqueKeys(d[1..])
    ensures UniqueKeys(d) ==> forall e :: e in d[1..] ==> e.0 != d[0].0
  {
    if UniqueKeys(d) {
      forall i, j | 0 <= i < j < |d| - 1 ensures d[1..][i].0 != d[1..][j].0 {
        assert d[i + 1].0 != d[j + 1].0;
      }
    }
  }

  /** The first key of an object with unique keys is not a key of its tail. */
  lemma HeadNotInTail<V>(d: Dict<V>)
    requires d != [] && UniqueKeys(d)
    ensures d[0].0 !in Keys(d[1..])
  {
  }

  /** `Object.assign(target, source)` and `{...target, ...source}`: the
      source's entries are written onto the target one by one, in order. */
  function Assign<V>(target: Dict<V>, source: Dict<V>): (r: Dict<V>)
    requires UniqueKeys(source)
    ensures forall k :: Get(r, k) == if k in Keys(source) then Get(source, k) else Get(target, k)
    ensures UniqueKeys(target) ==> UniqueKeys(r)
    ensures forall k :: k in Keys(r) <==> k in Keys(target) || k in Keys(source)
    decreases source
  {
    if source == [] then target
    else
      var k, v, rest := source[0].0, source[0].1, source[1..];
      UniqueTail(source);
      HeadNotInTail(source);
      assert Keys(source) == [k] + Keys(rest);
      var r := Assign(Put(target, k, v), rest);
      assert forall x :: Get(r, x) == if x in Keys(source) then Get(source, x) else Get(target, x) by {
        forall x ensures Get(r, x) == if x in Keys(source) then Get(source, x) else Get(target, x) {
          if x != k {
            assert Get(source, x) == Get(rest, x);
          }
        }
      }
      assert forall x :: x in Keys(r) <==> x in Keys(target) || x in Keys(source) by {
        forall x ensures x in Keys(r) <==> x in Keys(target) || x in Keys(source) {
          LacksKey(r, x);
          LacksKey(target, x);
          LacksKey(source, x);
        }
      }
      r
  }

  /** A key reads from the source when the source holds it, from the target
      otherwise. */
  lemma AssignGet<V>(target: Dict<V>, source: Dict<V>, k: string)
    requires UniqueKeys(source)
    ensures Get(Assign(target, source), k) == if Get(source, k).Some? then Get(source, k) else Get(target, k)
  {
    LacksKey(source, k);
  }

  /** Writing onto an object entries it already holds changes nothing. */
  lemma {:induction false} AssignSame<V>(target: Dict<V>, source: Dict<V>)
    requires UniqueKeys(source) && UniqueKeys(target)
    requires forall k :: k in Keys(source) ==> Get(target, k) == Get(source, k)
    ensures Assign(target, source) == target
  {
    if source != [] {
      var k, v := source[0].0, source[0].1;
      assert Get(source, k) == Some(v);
      PutPresent(target, k, v);
      UniqueTail(source);
      forall k' | k' in Keys(source[1..]) ensures Get(target, k') == Get(source[1..], k') {
        var i :| 0 <= i < |source[1..]| && Keys(source[1..])[i] == k';
        assert source[i + 1].0 == k';
        assert k' in Keys(source);
      }
      AssignSame(target, source[1..]);
    }
  }

  /** Re-writing a key with the value it already has changes nothing. */
  lemma {:induction false} PutPresent<V>(d: Dict<V>, k: string, v: V)
    requires UniqueKeys(d) && Get(d, k) == Some(v)
    ensures Put(d, k, v) == d
  {
    if d != [] && d[0].0 != k {
      UniqueTail(d);
      PutPresent(d[1..], k, v);
    }
  }

  lemma LacksKey<V>(d: Dict<V>, k: string)
    ensures Lacks(d, k) <==> k !in Keys(d)
  {
  }

  /** Writing a key that sits after `p` replaces its entry in place. */
  lemma {:induction false} PutAt<V>(p: Dict<V>, k: string, v: V, w: V, q: Dict<V>)
    requires Lacks(p, k)
    ensures Put(p + [(k, v)] + q, k, w) == p + [(k, w)] + q
  {
    if p != [] {
      var d := p + [(k, v)] + q;
      assert d[0] == p[0] && p[0].0 != k;
      assert d[1..] == p[1..] + [(k, v)] + q;
      PutAt(p[1..], k, v, w, q);
      assert [p[0]] + (p[1..] + [(k, w)] + q) == p + [(k, w)] + q;
    }
  }

  /** Deleting a key an object does not hold changes nothing. */
  lemma {:induction false} DeleteAbsent<V>(d: Dict<V>, k: string)
    requires Lacks(d, k)
    ensures Delete(d, k) == d
  {
    if d != [] {
      DeleteAbsent(d[1..], k);
    }
  }

  /** Deleting the key of the entry after `p`, held nowhere else, removes
      just that entry. */
  lemma {:induction false} DeleteAt<V>(p: Dict<V>, k: string, v: V, q: Dict<V>)
    requires Lacks(p, k) && Lacks(q, k)
    ensures Delete(p + [(k, v)] + q, k) == p + q
  {
    if p == [] {
      assert p + [(k, v)] + q == [(k, v)] + q;
      DeleteCons((k, v), q, k);
      DeleteAbsent(q, k);
    } else {
      var t := p[1..];
      assert p[0].0 != k;
      assert Lacks(t, k) by {
        forall i | 0 <= i < |t| ensures t[i].0 != k {
          assert t[i] == p[i + 1];
        }
      }
      assert p + [(k, v)] + q == [p[0]] + (t + [(k, v)] + q);
      DeleteCons(p[0], t + [(k, v)] + q, k);
      DeleteAt(t, k, v, q);
      assert [p[0]] + (t + q) == p + q;
    }
  }

  /** Deleting from an object with one more entry in front. */
  lemma DeleteCons<V>(e: (string, V), t: Dict<V>, k: string)
    ensures Delete([e] + t, k) == if e.0 == k then Delete(t, k) else [e] + Delete(t, k)
  {
    assert ([e] + t)[0] == e && ([e] + t)[1..] == t;
  }

  /** No element of `s` occurs twice. */
  predicate Distinct(s: seq<string>) {
    forall i, j :: 0 <= i < j < |s| ==> s[i] != s[j]
  }

  /** The elements of `s` in order of first occurrence: the key order of an
      object written with the keys of `s` one after another. */
  function Dedup(s: seq<string>): (r: seq<string>)
    ensures forall x :: x in r <==> x in s
    ensures Distinct(r)
  {
    if s == [] then []
    else
      var d := Dedup(s[..|s| - 1]);
      assert forall x :: x in s <==> x in s[..|s| - 1] || x == s[|s| - 1] by {
        assert s == s[..|s| - 1] + [s[|s| - 1]];
      }
      if s[|s| - 1] in d then d else d + [s[|s| - 1]]
  }

  lemma DedupSnoc(s: seq<string>, x: string)
    ensures Dedup(s + [x]) == if x in Dedup(s) then Dedup(s) else Dedup(s) + [x]
  {
    assert (s + [x])[..|s + [x]| - 1] == s;
  }
}
