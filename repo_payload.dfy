/** The write side of `BaseRepo` (src/base/base_repo.ts): `getActorId`,
    `formatPayload`, the audit stamp `_save` writes onto each payload, and the
    payloads and boolean results of `setStatus`, `remove` and `destroy`. The
    ORM calls are parameters; `formatDate` is a function of the instant. */
module RepoPayload {
  import opened Outcomes
  import opened JsValue
  import opened TrimData

  type DateFormatter = int -> string

  /** `getActorId`: the system actor is recorded as no one. */
  function GetActorId(actor: Value): (r: Value)
    ensures r == Undefined <==> actor == Str("system") || actor == Undefined
    ensures r != Undefined ==> r == actor
  {
    if actor == Str("system") then Undefined else actor
  }

  // ---------------------------------------------------------------------------
  // formatPayload
  // ---------------------------------------------------------------------------

  /** What the loop of `formatPayload` leaves for one value: nothing for
      `undefined`, the formatted string for a `Date`, the value otherwise. */
  function PreparedEntry(v: Value, formatDate: DateFormatter): Option<Value> {
    if v == Undefined then None
    else if v.Date? then Some(Str(formatDate(v.ms)))
    else Some(v)
  }

  /** The object after the loop of `formatPayload`, entry by entry. */
  function Prepared(d: Dict<Value>, formatDate: DateFormatter): (r: Dict<Value>)
    ensures forall x :: Lacks(d, x) ==> Lacks(r, x)
    ensures UniqueKeys(d) ==> UniqueKeys(r)
    ensures forall i :: 0 <= i < |r| ==> r[i].1 != Undefined && !r[i].1.Date?
    ensures |r| <= |d|
    decreases |d|
  {
    if d == [] then []
    else
      var n := |d| - 1;
      var front := Prepared(d[..n], formatDate);
      assert forall x :: Lacks(d, x) ==> Lacks(d[..n], x);
      assert UniqueKeys(d) ==> UniqueKeys(d[..n]) && Lacks(d[..n], d[n].0);
      match PreparedEntry(d[n].1, formatDate)
      case None => front
      case Some(w) => front + [(d[n].0, w)]
  }

  /** Reading an object made of two parts. */
  lemma {:induction false} GetAppend(a: Dict<Value>, b: Dict<Value>, k: string)
    ensures Get(a + b, k) == if Get(a, k).Some? then Get(a, k) else Get(b, k)
  {
    if a != [] {
      assert (a + b)[0] == a[0];
      assert (a + b)[1..] == a[1..] + b;
      if a[0].0 != k {
        GetAppend(a[1..], b, k);
      }
    } else {
      assert a + b == b;
    }
  }

  lemma GetLacking(d: Dict<Value>, k: string)
    requires Lacks(d, k)
    ensures Get(d, k) == None
  {

  }

  /** After the loop a key reads nothing when it was absent or `undefined`,
      its formatted string when it held a `Date`, and its value otherwise. */
  lemma {:induction false} PreparedGet(d: Dict<Value>, k: string, formatDate: DateFormatter)
    requires UniqueKeys(d)
    ensures Get(Prepared(d, formatDate), k) ==
      match Get(d, k) case None => None case Some(v) => PreparedEntry(v, formatDate)
    decreases |d|
  {
    if d != [] {
      var n := |d| - 1;
      assert d == d[..n] + [d[n]];
      assert UniqueKeys(d[..n]) && Lacks(d[..n], d[n].0);
      PreparedGet(d[..n], k, formatDate);
      GetAppend(d[..n], [d[n]], k);
      var front := Prepared(d[..n], formatDate);
      match PreparedEntry(d[n].1, formatDate)
      case None =>
        if k == d[n].0 {
          GetLacking(d[..n], k);
        }
      case Some(w) =>
        GetAppend(front, [(d[n].0, w)], k);
        if k == d[n].0 {
          GetLacking(d[..n], k);
          GetLacking(front, k);
        }
    }
  }

  /** What `formatPayload` returns: the prepared copy, trimmed. */
  function FormattedPayload(payload: Dict<Value>, formatDate: DateFormatter): (r: Dict<Value>)
    ensures |r| <= |payload|
    ensures forall x :: Lacks(payload, x) ==> Lacks(r, x)
    ensures UniqueKeys(payload) ==> UniqueKeys(r)
  {
    var p := Prepared(payload, formatDate);
    TrimObjectKeys(p);
    SameKeysSameUniqueness(p, TrimValue(Obj(p)).fields);
    SameKeysSameLacks(p, TrimValue(Obj(p)).fields);
    TrimValue(Obj(p)).fields
  }

  /** `formatPayload` keeps exactly the keys whose value is not `undefined`,
      formats dates, trims every value, and keeps keys unique; no value of
      the result is `undefined` or a `Date`. */
  lemma FormattedPayloadGet(payload: Dict<Value>, k: string, formatDate: DateFormatter)
    requires UniqueKeys(payload)
    ensures Get(FormattedPayload(payload, formatDate), k) ==
      match Get(payload, k)
      case None => None
      case Some(v) => if v == Undefined then None else Some(TrimValue(PreparedEntry(v, formatDate).value))
    ensures UniqueKeys(FormattedPayload(payload, formatDate))
    ensures forall e :: e in FormattedPayload(payload, formatDate) ==> e.1 != Undefined && !e.1.Date?
  {
    var p := Prepared(payload, formatDate);
    PreparedGet(payload, k, formatDate);
    TrimObjectValues(p, k);
    TrimObjectKeys(p);
    SameKeysSameUniqueness(p, FormattedPayload(payload, formatDate));
    var r := FormattedPayload(payload, formatDate);
    forall e | e in r ensures e.1 != Undefined && !e.1.Date? {
      var i :| 0 <= i < |r| && r[i] == e;
      TrimObjectEntry(p, i);
    }
  }

  lemma SameKeysSameLacks(a: Dict<Value>, b: Dict<Value>)
    requires Keys(a) == Keys(b)
    ensures forall x :: Lacks(a, x) ==> Lacks(b, x)
  {
    forall x, i | Lacks(a, x) && 0 <= i < |b| ensures b[i].0 != x {
      assert Keys(a)[i] == Keys(b)[i];
    }
  }

  lemma SameKeysSameUniqueness(a: Dict<Value>, b: Dict<Value>)
    requires Keys(a) == Keys(b)
    ensures UniqueKeys(a) ==> UniqueKeys(b)
  {
    if UniqueKeys(a) {
      forall i, j | 0 <= i < j < |b| ensures b[i].0 != b[j].0 {
        assert Keys(a)[i] == Keys(b)[i] && Keys(a)[j] == Keys(b)[j];
      }
    }
  }

  /** Entry `i` of a trimmed object is entry `i` of the object, trimmed. */
  lemma TrimObjectEntry(fields: Dict<Value>, i: int)
    requires 0 <= i < |fields|
    ensures TrimValue(Obj(fields)).fields[i] == (fields[i].0, TrimValue(fields[i].1))
  {
  }

  /** One turn of the loop of `formatPayload`, on the copy whose first `i`
      entries are already done: it does entry `i` and nothing else. */
  lemma FormatStep(payload: Dict<Value>, i: nat, formatDate: DateFormatter)
    requires UniqueKeys(payload) && i < |payload|
    ensures
      var key := payload[i].0;
      var copy := Prepared(payload[..i], formatDate) + payload[i..];
      var kept := if Get(copy, key).GetOr(Undefined) == Undefined then Delete(copy, key) else copy;
      var current := Get(kept, key).GetOr(Undefined);
      var next := if current.Date? then Put(kept, key, Str(formatDate(current.ms))) else kept;
      next == Prepared(payload[..i + 1], formatDate) + payload[i + 1..]
  {
    var key, v := payload[i].0, payload[i].1;
    var front := Prepared(payload[..i], formatDate);
    var back := payload[i + 1..];
    StepShape(payload, i, formatDate);
    var copy := front + [(key, v)] + back;
    assert copy == front + payload[i..] == front + ([(key, v)] + back);
    GetAppend(front, [(key, v)] + back, key);
    assert Get(copy, key) == Some(v);
    EntryStep(front, key, v, back, formatDate);
  }

  /** The copy at turn `i` is the prepared front, the entry `i`, and the
      untouched rest; the key of entry `i` occurs in neither. */
  lemma StepShape(payload: Dict<Value>, i: nat, formatDate: DateFormatter)
    requires UniqueKeys(payload) && i < |payload|
    ensures var key, v := payload[i].0, payload[i].1;
      var front := Prepared(payload[..i], formatDate);
      && Lacks(front, key) && Lacks(payload[i + 1..], key)
      && payload[i..] == [(key, v)] + payload[i + 1..]
      && Prepared(payload[..i + 1], formatDate) ==
        match PreparedEntry(v, formatDate) case None => front case Some(w) => front + [(key, w)]
  {
    var key := payload[i].0;
    var back := payload[i + 1..];
    assert payload[..i + 1][..i] == payload[..i];
    assert Lacks(payload[..i], key) by {
      assert forall j :: 0 <= j < i ==> payload[..i][j] == payload[j];
    }
    assert Lacks(back, key) by {
      assert forall j :: 0 <= j < |back| ==> back[j] == payload[i + 1 + j];
    }
  }

  /** The loop body on the entry `(key, v)` that sits between a front and
      a back not holding `key`. */
  lemma EntryStep(front: Dict<Value>, key: string, v: Value, back: Dict<Value>, formatDate: DateFormatter)
    requires Lacks(front, key) && Lacks(back, key)
    requires Get(front + [(key, v)] + back, key) == Some(v)
    ensures
      var copy := front + [(key, v)] + back;
      var kept := if v == Undefined then Delete(copy, key) else copy;
      var current := Get(kept, key).GetOr(Undefined);
      var next := if current.Date? then Put(kept, key, Str(formatDate(current.ms))) else kept;
      next == (match PreparedEntry(v, formatDate) case None => front case Some(w) => front + [(key, w)]) + back
  {
    if v == Undefined {
      DeleteAt(front, key, v, back);
      GetAppend(front, back, key);
    } else if v.Date? {
      PutAt(front, key, v, Str(formatDate(v.ms)), back);
    }
  }

  /** `formatPayload`: a copy of the payload is walked key by key; an
      `undefined` value is deleted and a `Date` replaced by its formatted
      string; the copy is then passed through `trimData`. */
  method FormatPayload(payload: Dict<Value>, formatDate: DateFormatter) returns (formatted: Value)
    requires UniqueKeys(payload)
    ensures formatted == Obj(FormattedPayload(payload, formatDate))
  {
    var copy := payload;
    for i := 0 to |payload|
      invariant copy == Prepared(payload[..i], formatDate) + payload[i..]
    {
      FormatStep(payload, i, formatDate);
      var key := payload[i].0;
      if Get(copy, key).GetOr(Undefined) == Undefined {
        copy := Delete(copy, key);
      }
      var current := Get(copy, key).GetOr(Undefined);
      if current.Date? {
        copy := Put(copy, key, Str(formatDate(current.ms)));
      }
    }
    assert payload[..|payload|] == payload;
    formatted := TrimData.TrimData(Obj(copy));
  }

  // ---------------------------------------------------------------------------
  // _save, create, edit, createWithTransaction
  // ---------------------------------------------------------------------------

  datatype SaveMode = Create | Edit

  /** The audit column `_save` writes: `creator` on create, `updater` on
      edit. `createWithTransaction` always writes `creator`. */
  function ActorField(mode: SaveMode): (f: string)
    ensures f == "creator" <==> mode == Create
    ensures f == "updater" <==> mode == Edit
  {
    match mode
    case Create => "creator"
    case Edit => "updater"
  }

  /** `{ ...formatPayload(payload), [actorField]: actorId }`. */
  function Stamp(fields: Dict<Value>, actorField: string, actorId: Value, formatDate: DateFormatter): (r: Dict<Value>)
    requires UniqueKeys(fields)
    ensures UniqueKeys(r)
  {
    FormattedPayloadGet(fields, actorField, formatDate);
    Put(FormattedPayload(fields, formatDate), actorField, actorId)
  }

  /** The payload after `Object.assign(payload, stamp)`. */
  function Stamped(fields: Dict<Value>, actorField: string, actorId: Value, formatDate: DateFormatter): (r: Dict<Value>)
    requires UniqueKeys(fields)
    ensures UniqueKeys(r)
  {
    Assign(fields, Stamp(fields, actorField, actorId, formatDate))
  }

  /** What a stamped payload holds: the actor column is the actor id; every
      other key that held a value other than `undefined` holds its formatted,
      trimmed value; a key that held `undefined` still does; no key is added
      besides the actor column. */
  lemma StampedGet(fields: Dict<Value>, actorField: string, actorId: Value, formatDate: DateFormatter, k: string)
    requires UniqueKeys(fields)
    ensures Get(Stamped(fields, actorField, actorId, formatDate), k) ==
      if k == actorField then Some(actorId)
      else match Get(fields, k)
        case None => None
        case Some(v) => if v == Undefined then Some(Undefined) else Some(TrimValue(PreparedEntry(v, formatDate).value))
  {
    FormattedPayloadGet(fields, k, formatDate);
  }

  /** Stamping twice is stamping once. A payload that occurs twice in the
      array handed to `_save` is therefore left as if it occurred once. */
  lemma StampedIdempotent(fields: Dict<Value>, actorField: string, actorId: Value, formatDate: DateFormatter)
    requires UniqueKeys(fields)
    ensures
      var once := Stamped(fields, actorField, actorId, formatDate);
      Stamped(once, actorField, actorId, formatDate) == once
  {
    var once := Stamped(fields, actorField, actorId, formatDate);
    var again := Stamp(once, actorField, actorId, formatDate);
    forall k | k in Keys(again) ensures Get(once, k) == Get(again, k) {
      StampedGet(fields, actorField, actorId, formatDate, k);
      FormattedPayloadGet(once, k, formatDate);
      if k != actorField {
        match Get(fields, k)
        case None =>
        case Some(v) =>
          if v != Undefined {
            TrimIdempotent(PreparedEntry(v, formatDate).value);
          }
      }
    }
    AssignSame(once, again);
  }

  /** Stamping an object that is already stamped leaves it as stamped once. */
  lemma StampedAgain(first: Dict<Value>, before: Dict<Value>, after: Dict<Value>, actorField: string, actorId: Value, formatDate: DateFormatter)
    requires UniqueKeys(first)
    requires before == first || before == Stamped(first, actorField, actorId, formatDate)
    requires UniqueKeys(before) && after == Stamped(before, actorField, actorId, formatDate)
    ensures after == Stamped(first, actorField, actorId, formatDate)
  {
    if before != first {
      StampedIdempotent(first, actorField, actorId, formatDate);
    }
  }

  /** A JavaScript object the caller owns; `_save` writes into it. */
  class JsObject {
    var fields: Dict<Value>

    constructor(fields: Dict<Value>)
      ensures this.fields == fields
    {
      this.fields := fields;
    }
  }

  /** `formatWithRelationship`: formats the payload and writes the result,
      with the actor column, back onto the same object. */
  method FormatWithRelationship(payload: JsObject, actorField: string, actorId: Value, formatDate: DateFormatter)
    requires UniqueKeys(payload.fields)
    modifies payload
    ensures payload.fields == Stamped(old(payload.fields), actorField, actorId, formatDate)
  {
    var formatted := FormatPayload(payload.fields, formatDate);
    FormattedPayloadGet(payload.fields, actorField, formatDate);
    var stamp := Put(formatted.fields, actorField, actorId);
    payload.fields := Assign(payload.fields, stamp);
  }

  /** `_save` on a single payload: the object itself is stamped and handed
      to the ORM. */
  method SaveOne(payload: JsObject, actor: Value, mode: SaveMode, formatDate: DateFormatter) returns (saved: JsObject)
    requires UniqueKeys(payload.fields)
    modifies payload
    ensures saved == payload
    ensures payload.fields == Stamped(old(payload.fields), ActorField(mode), GetActorId(actor), formatDate)
  {
    FormatWithRelationship(payload, ActorField(mode), GetActorId(actor), formatDate);
    saved := payload;
  }

  /** `_save` on an array: each element is stamped in order, and the array of
      the same objects is handed to the ORM. */
  method SaveMany(payloads: seq<JsObject>, actor: Value, mode: SaveMode, formatDate: DateFormatter) returns (saved: seq<JsObject>)
    requires forall o :: o in payloads ==> UniqueKeys(o.fields)
    modifies set o | o in payloads
    ensures saved == payloads
    ensures forall o :: o in payloads ==>
      o.fields == Stamped(old(o.fields), ActorField(mode), GetActorId(actor), formatDate)
  {
    var field, actorId := ActorField(mode), GetActorId(actor);
    for i := 0 to |payloads|
      invariant forall o :: o in payloads[i..] && o !in payloads[..i] ==> o.fields == old(o.fields)
      invariant forall o :: o in payloads[..i] ==> o.fields == Stamped(old(o.fields), field, actorId, formatDate)
    {
      var o := payloads[i];
      ghost var first := old(o.fields);
      ghost var before := o.fields;
      assert UniqueKeys(first);
      FormatWithRelationship(o, field, actorId, formatDate);
      StampedAgain(first, before, o.fields, field, actorId, formatDate);
      assert payloads[..i + 1] == payloads[..i] + [o];
    }
    assert payloads[..|payloads|] == payloads;
    saved := payloads;
  }

  // ---------------------------------------------------------------------------
  // setStatus, remove, destroy
  // ---------------------------------------------------------------------------

  /** The part of an ORM write result the repository reads; `None` stands
      for a missing or `null` count. */
  datatype WriteResult = WriteResult(affected: Option<int>)

  /** A rejected ORM call. */
  datatype OrmError = OrmError(message: string)

  type Update = (Value, Dict<Value>) -> Result<WriteResult, OrmError>

  /** The payload `setStatus` sends: the status and the updater, through
      `formatPayload`, so the system actor leaves `updater` out. */
  function StatusPayload(status: Value, actor: Value, formatDate: DateFormatter): (r: Dict<Value>)
    ensures Get(r, "updater") == if GetActorId(actor) == Undefined then None else Some(TrimValue(PreparedEntry(actor, formatDate).value))
    ensures Get(r, "status") == if status == Undefined then None else Some(TrimValue(PreparedEntry(status, formatDate).value))
    ensures forall k :: Get(r, k).Some? ==> k == "status" || k == "updater"
  {
    var payload := [("status", status), ("updater", GetActorId(actor))];
    assert UniqueKeys(payload);
    assert Get(payload, "status") == Some(status);
    assert Get(payload, "updater") == Some(GetActorId(actor));
    FormattedPayloadGet(payload, "status", formatDate);
    FormattedPayloadGet(payload, "updater", formatDate);
    FormattedOnlyHasPayloadKeys(payload, formatDate);
    FormattedPayload(payload, formatDate)
  }

  /** `formatPayload` adds no key. */
  lemma FormattedOnlyHasPayloadKeys(payload: Dict<Value>, formatDate: DateFormatter)
    requires UniqueKeys(payload)
    ensures forall k :: Get(FormattedPayload(payload, formatDate), k).Some? ==> Get(payload, k).Some?
  {
    forall k | Get(FormattedPayload(payload, formatDate), k).Some? ensures Get(payload, k).Some? {
      FormattedPayloadGet(payload, k, formatDate);
    }
  }

  /** `affected > 0` after defaulting a missing count to 0. */
  predicate AnyAffected(result: WriteResult) {
    result.affected.GetOr(0) > 0
  }

  /** `setStatus`: the update is sent with the status payload; the answer is
      whether at least one row was affected. A rejected update propagates. */
  function SetStatus(criteria: Value, status: Value, actor: Value, formatDate: DateFormatter, update: Update): (r: Result<bool, OrmError>)
    ensures update(criteria, StatusPayload(status, actor, formatDate)).Err? ==>
      r == Err(update(criteria, StatusPayload(status, actor, formatDate)).error)
    ensures update(criteria, StatusPayload(status, actor, formatDate)).Ok? ==>
      r.Ok? && (r.value <==> update(criteria, StatusPayload(status, actor, formatDate)).value.affected.GetOr(0) > 0)
  {
    match update(criteria, StatusPayload(status, actor, formatDate))
    case Err(e) => Err(e)
    case Ok(result) => Ok(AnyAffected(result))
  }

  /** The payload `remove` sends: the soft-delete flag, the removal time
      formatted from the clock reading `now`, and the remover, through
      `formatPayload`. */
  function RemovalPayload(now: int, actor: Value, formatDate: DateFormatter): (r: Dict<Value>)
    ensures Get(r, "removed") == Some(Bool(true))
    ensures Get(r, "removed_at") == Some(TrimValue(Str(formatDate(now))))
    ensures Get(r, "remover") == if GetActorId(actor) == Undefined then None else Some(TrimValue(PreparedEntry(actor, formatDate).value))
    ensures forall k :: Get(r, k).Some? ==> k == "removed" || k == "removed_at" || k == "remover"
  {
    assert "removed" != "removed_at" && "removed" != "remover" && "removed_at" != "remover";
    FormattedThree("removed", Bool(true), "removed_at", Str(formatDate(now)), "remover", GetActorId(actor), formatDate);
    FormattedPayload([("removed", Bool(true)), ("removed_at", Str(formatDate(now))), ("remover", GetActorId(actor))], formatDate)
  }

  /** `formatPayload` on an object of three distinct keys. */
  lemma FormattedThree(k1: string, v1: Value, k2: string, v2: Value, k3: string, v3: Value, formatDate: DateFormatter)
    requires k1 != k2 && k1 != k3 && k2 != k3
    ensures var r := FormattedPayload([(k1, v1), (k2, v2), (k3, v3)], formatDate);
      && Get(r, k1) == (if v1 == Undefined then None else Some(TrimValue(PreparedEntry(v1, formatDate).value)))
      && Get(r, k2) == (if v2 == Undefined then None else Some(TrimValue(PreparedEntry(v2, formatDate).value)))
      && Get(r, k3) == (if v3 == Undefined then None else Some(TrimValue(PreparedEntry(v3, formatDate).value)))
      && forall k :: Get(r, k).Some? ==> k == k1 || k == k2 || k == k3
  {
    FormattedOfThree([(k1, v1), (k2, v2), (k3, v3)], formatDate);
  }

  lemma FormattedOfThree(payload: Dict<Value>, formatDate: DateFormatter)
    requires |payload| == 3
    requires payload[0].0 != payload[1].0 && payload[0].0 != payload[2].0 && payload[1].0 != payload[2].0
    ensures var r := FormattedPayload(payload, formatDate);
      && (forall i :: 0 <= i < 3 ==>
        Get(r, payload[i].0) == if payload[i].1 == Undefined then None else Some(TrimValue(PreparedEntry(payload[i].1, formatDate).value)))
      && forall k :: Get(r, k).Some? ==> k == payload[0].0 || k == payload[1].0 || k == payload[2].0
  {
    assert UniqueKeys(payload);
    forall i | 0 <= i < 3
      ensures Get(FormattedPayload(payload, formatDate), payload[i].0) ==
        if payload[i].1 == Undefined then None else Some(TrimValue(PreparedEntry(payload[i].1, formatDate).value))
    {
      FormattedPayloadGet(payload, payload[i].0, formatDate);
    }
    forall k | Get(FormattedPayload(payload, formatDate), k).Some?
      ensures k == payload[0].0 || k == payload[1].0 || k == payload[2].0
    {
      FormattedPayloadGet(payload, k, formatDate);
      var i :| 0 <= i < 3 && payload[i].0 == k;
    }
  }

  /** `remove`: a soft delete through an update; true when a row was
      affected. A rejected update propagates. */
  function Remove(criteria: Value, actor: Value, now: int, formatDate: DateFormatter, update: Update): (r: Result<bool, OrmError>)
    ensures update(criteria, RemovalPayload(now, actor, formatDate)).Err? ==>
      r == Err(update(criteria, RemovalPayload(now, actor, formatDate)).error)
    ensures update(criteria, RemovalPayload(now, actor, formatDate)).Ok? ==>
      r.Ok? && (r.value <==> update(criteria, RemovalPayload(now, actor, formatDate)).value.affected.GetOr(0) > 0)
  {
    match update(criteria, RemovalPayload(now, actor, formatDate))
    case Err(e) => Err(e)
    case Ok(result) => Ok(AnyAffected(result))
  }

  /** `destroy`: a hard delete; the answer is the truthiness of the count
      (`!!affected`). There is no `catch`: a rejected delete propagates. */
  function Destroy(id: Value, delete: Value -> Result<WriteResult, OrmError>): (r: Result<bool, OrmError>)
    ensures delete(id).Err? ==> r == Err(delete(id).error)
    ensures delete(id).Ok? ==> r.Ok? && (r.value <==> delete(id).value.affected.Some? && delete(id).value.affected.value != 0)
  {
    match delete(id)
    case Err(e) => Err(e)
    case Ok(result) => Ok(result.affected.Some? && result.affected.value != 0)
  }

  /** `remove` asks `affected > 0` while `destroy` asks `!!affected`: they
      disagree only on a negative count. */
  lemma CountTestsDisagreeOnlyOnNegative(result: WriteResult)
    ensures AnyAffected(result) != (result.affected.Some? && result.affected.value != 0) <==>
      result.affected.Some? && result.affected.value < 0
  {
  }

  /** The system actor is never written as updater or remover. */
  lemma SystemActorLeftOut(status: Value, now: int, formatDate: DateFormatter)
    ensures "updater" !in Keys(StatusPayload(status, Str("system"), formatDate))
    ensures "remover" !in Keys(RemovalPayload(now, Str("system"), formatDate))
  {
  }
}
