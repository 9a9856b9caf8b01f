/** The read side of `BaseRepo` (src/base/base_repo.ts): the repository's
    defaults, the soft-delete where-alternatives, the order map, the search
    product, paging, and the query objects `detail`, `list` and
    `listWithPaging` hand to the ORM. The ORM itself is a parameter: the
    column names of the entity, and the functions that run a query. */
module RepoQuery {
  import opened Outcomes
  import opened JsValue

  datatype Direction = ASC | DESC

  /** `[field, 'ASC' | 'DESC']`. */
  type OrderTuple = (string, Direction)

  /** The defaults of src/constants/filter.constant.ts. */
  const DefaultOrder: seq<OrderTuple> := [("created_at", DESC)]
  const DefaultPageSize: int := 10
  const MaxPageSize: int := 100

  /** `Partial<IRepoOptions>`: each option may be missing. */
  datatype RepoOptions = RepoOptions(
    defaultOrder: Option<seq<OrderTuple>>,
    defaultPageSize: Option<int>,
    defaultMaxPageSize: Option<int>)

  /** A constructed repository: its options after defaulting, the fields
      search may look at, and the property names of the entity's columns. */
  datatype BaseRepo = BaseRepo(
    defaultOrder: seq<OrderTuple>,
    defaultPageSize: int,
    maxPageSize: int,
    allowFieldSearch: seq<string>,
    columns: seq<string>)

  /** The constructor: `allow_field_search` defaults to none, and every
      option the caller leaves out takes its default. */
  function NewBaseRepo(options: Option<RepoOptions>, allowFieldSearch: Option<seq<string>>, columns: seq<string>): (r: BaseRepo)
    ensures r.allowFieldSearch == allowFieldSearch.GetOr([]) && r.columns == columns
    ensures options.None? ==> r.defaultOrder == DefaultOrder && r.defaultPageSize == DefaultPageSize && r.maxPageSize == MaxPageSize
    ensures options.Some? ==>
      && r.defaultOrder == options.value.defaultOrder.GetOr(DefaultOrder)
      && r.defaultPageSize == options.value.defaultPageSize.GetOr(DefaultPageSize)
      && r.maxPageSize == options.value.defaultMaxPageSize.GetOr(MaxPageSize)
  {
    var o := options.GetOr(RepoOptions(None, None, None));
    BaseRepo(
      o.defaultOrder.GetOr(DefaultOrder),
      o.defaultPageSize.GetOr(DefaultPageSize),
      o.defaultMaxPageSize.GetOr(MaxPageSize),
      allowFieldSearch.GetOr([]),
      columns)
  }

  // ---------------------------------------------------------------------------
  // generateTrueWhereConditions
  // ---------------------------------------------------------------------------

  /** The entries `{...v}` copies: an object's own entries, nothing for
      `undefined`, `null` and primitives. */
  function Spread(v: Value): Dict<Value> {
    if v.Obj? then v.fields else []
  }

  /** `[{ removed: false }]`. */
  const DefaultWhere: seq<Dict<Value>> := [[("removed", Bool(false))]]

  /** `{ ...el, removed: false }`. */
  function NotRemoved(el: Value): Dict<Value> {
    Put(Spread(el), "removed", Bool(false))
  }

  /** `generateTrueWhereConditions`: an absent, falsy or empty where becomes
      the default; a single alternative is wrapped in a list; every
      alternative is copied with `removed` forced to `false`. */
  function TrueWhere(where: Value): (r: seq<Dict<Value>>)
    ensures !Truthy(where) || where == Arr([]) ==> r == DefaultWhere
    ensures Truthy(where) && where.Arr? && where.items != [] ==> |r| == |where.items|
    ensures Truthy(where) && !where.Arr? ==> r == [NotRemoved(where)]
  {
    if !Truthy(where) || where == Arr([]) then DefaultWhere
    else
      var current := if where.Arr? then where.items else [where];
      seq(|current|, i requires 0 <= i < |current| => NotRemoved(current[i]))
  }

  /** The caller's alternative that alternative `i` of the result is made
      from; `undefined` for the default. */
  function SourceAlternative(where: Value, i: int): Value {
    if where.Arr? && where.items != [] && 0 <= i < |where.items| then where.items[i]
    else if Truthy(where) && !where.Arr? then where
    else Undefined
  }

  /** Alternative `i` of the result is the caller's alternative `i`, copied,
      with `removed` forced. */
  lemma TrueWhereAt(where: Value, i: int)
    requires 0 <= i < |TrueWhere(where)|
    ensures TrueWhere(where)[i] == NotRemoved(SourceAlternative(where, i))
  {
  }

  /** Every alternative asks for `removed = false`, whatever the caller set,
      and keeps every other key of the caller's alternative. */
  lemma TrueWhereAlternatives(where: Value, i: int, k: string)
    requires 0 <= i < |TrueWhere(where)|
    ensures Get(TrueWhere(where)[i], k) ==
      if k == "removed" then Some(Bool(false)) else Get(Spread(SourceAlternative(where, i)), k)
  {
    TrueWhereAt(where, i);
  }

  /** The alternatives as the value handed to the ORM. */
  function WhereValue(alts: seq<Dict<Value>>): (v: Value)
    ensures v.Arr? && |v.items| == |alts|
    ensures forall i :: 0 <= i < |alts| ==> v.items[i] == Obj(alts[i])
  {
    Arr(seq(|alts|, i requires 0 <= i < |alts| => Obj(alts[i])))
  }

  // The ORM's reading of a where list, as a reference for what the
  // alternatives mean: a record matches an alternative when every key of
  // the alternative matches, and a list when one alternative matches. A
  // case-insensitive pattern is decided by the given `like`.

  predicate FieldMatches(actual: Option<Value>, condition: Value, like: (string, string) -> bool) {
    if condition.ILike? then actual.Some? && actual.value.Str? && like(actual.value.s, condition.pattern)
    else actual == Some(condition)
  }

  predicate MatchesAlternative(record: Dict<Value>, alt: Dict<Value>, like: (string, string) -> bool) {
    forall i :: 0 <= i < |alt| ==> FieldMatches(Get(record, alt[i].0), alt[i].1, like)
  }

  predicate MatchesWhere(record: Dict<Value>, alts: seq<Dict<Value>>, like: (string, string) -> bool) {
    exists i :: 0 <= i < |alts| && MatchesAlternative(record, alts[i], like)
  }

  /** A soft-deleted record never matches: whatever the caller's where,
      only records whose `removed` is `false` are found. */
  lemma OnlyLiveRecordsMatch(where: Value, record: Dict<Value>, like: (string, string) -> bool)
    requires MatchesWhere(record, TrueWhere(where), like)
    ensures Get(record, "removed") == Some(Bool(false))
  {
    var alts := TrueWhere(where);
    var i :| 0 <= i < |alts| && MatchesAlternative(record, alts[i], like);
    TrueWhereAlternatives(where, i, "removed");
    var m :| 0 <= m < |alts[i]| && alts[i][m] == ("removed", Bool(false));
    assert FieldMatches(Get(record, alts[i][m].0), alts[i][m].1, like);
  }

  /** Writing a key an object lacks appends it. */
  lemma {:induction false} PutAbsent(d: Dict<Value>, k: string, v: Value)
    requires Lacks(d, k)
    ensures Put(d, k, v) == d + [(k, v)]
  {
    if d != [] {
      assert Lacks(d[1..], k);
      PutAbsent(d[1..], k, v);
      assert [d[0]] + (d[1..] + [(k, v)]) == d + [(k, v)];
    }
  }

  /** For one alternative that does not mention `removed`, the soft-delete
      filter adds exactly one condition: a record matches the result iff it
      matches the caller's alternative and is not removed. */
  lemma SingleAlternativeMatches(alt: Dict<Value>, record: Dict<Value>, like: (string, string) -> bool)
    requires Lacks(alt, "removed")
    ensures MatchesWhere(record, TrueWhere(Obj(alt)), like) <==>
      MatchesAlternative(record, alt, like) && Get(record, "removed") == Some(Bool(false))
  {
    var full := alt + [("removed", Bool(false))];
    assert TrueWhere(Obj(alt)) == [full] by {
      assert Truthy(Obj(alt));
      assert Spread(Obj(alt)) == alt;
      PutAbsent(alt, "removed", Bool(false));
    }
    AppendedCondition(record, alt, ("removed", Bool(false)), like);
    OneAlternative(record, full, like);
  }

  lemma OneAlternative(record: Dict<Value>, alt: Dict<Value>, like: (string, string) -> bool)
    ensures MatchesWhere(record, [alt], like) <==> MatchesAlternative(record, alt, like)
  {
    if MatchesAlternative(record, alt, like) {
      assert [alt][0] == alt;
    }
  }

  /** An alternative with one more entry asks for one more condition. */
  lemma AppendedCondition(record: Dict<Value>, alt: Dict<Value>, e: (string, Value), like: (string, string) -> bool)
    ensures MatchesAlternative(record, alt + [e], like) <==>
      MatchesAlternative(record, alt, like) && FieldMatches(Get(record, e.0), e.1, like)
  {
    var full := alt + [e];
    assert forall i :: 0 <= i < |alt| ==> full[i] == alt[i];
    assert full[|alt|] == e;
    if MatchesAlternative(record, alt, like) && FieldMatches(Get(record, e.0), e.1, like) {
      forall i | 0 <= i < |full| ensures FieldMatches(Get(record, full[i].0), full[i].1, like) {
        if i < |alt| { assert full[i] == alt[i]; }
      }
    }
  }

  // ---------------------------------------------------------------------------
  // _generateOrderConditions
  // ---------------------------------------------------------------------------

  /** The direction as the string the ORM receives. */
  function DirectionValue(d: Direction): (v: Value)
    ensures v.Str? && (v.s == "ASC" <==> d == ASC) && (v.s == "DESC" <==> d == DESC)
  {
    match d
    case ASC => Str("ASC")
    case DESC => Str("DESC")
  }

  /** The order map after the tuples of `orders`, one write per tuple whose
      field is a column; unknown fields are skipped. */
  function OrderMap(orders: seq<OrderTuple>, columns: seq<string>): (r: Dict<Value>)
    ensures UniqueKeys(r)
    decreases |orders|
  {
    if orders == [] then []
    else
      var front := OrderMap(orders[..|orders| - 1], columns);
      var (field, direction) := orders[|orders| - 1];
      if field in columns then Put(front, field, DirectionValue(direction)) else front
  }

  /** The fields of `orders` that are columns, in order, repeats included. */
  function KnownFields(orders: seq<OrderTuple>, columns: seq<string>): (r: seq<string>)
    ensures forall f :: f in r ==> f in columns
    decreases |orders|
  {
    if orders == [] then []
    else
      var front := KnownFields(orders[..|orders| - 1], columns);
      var field := orders[|orders| - 1].0;
      if field in columns then front + [field] else front
  }

  /** The direction of the last tuple for `field`, if any. */
  function LastDirection(orders: seq<OrderTuple>, field: string): Option<Direction>
    decreases |orders|
  {
    if orders == [] then None
    else if orders[|orders| - 1].0 == field then Some(orders[|orders| - 1].1)
    else LastDirection(orders[..|orders| - 1], field)
  }

  /** A column field reads the direction of its last tuple; a field that is
      not a column, or has no tuple, is absent. */
  lemma {:induction false} OrderMapGet(orders: seq<OrderTuple>, columns: seq<string>, field: string)
    ensures Get(OrderMap(orders, columns), field) ==
      if field in columns && LastDirection(orders, field).Some? then Some(DirectionValue(LastDirection(orders, field).value)) else None
    decreases |orders|
  {
    if orders != [] {
      OrderMapGet(orders[..|orders| - 1], columns, field);
    }
  }

  /** Sort priority: the keys of the order map are the known fields in order
      of first occurrence. */
  lemma {:induction false} OrderMapKeys(orders: seq<OrderTuple>, columns: seq<string>)
    ensures Keys(OrderMap(orders, columns)) == Dedup(KnownFields(orders, columns))
    decreases |orders|
  {
    if orders != [] {
      var front := orders[..|orders| - 1];
      var (field, direction) := orders[|orders| - 1];
      OrderMapKeys(front, columns);
      if field in columns {
        PutKeys(OrderMap(front, columns), field, DirectionValue(direction));
        DedupSnoc(KnownFields(front, columns), field);
      }
    }
  }

  /** When no tuple names a column the order map is empty: there is no
      fallback to the default order. */
  lemma {:induction false} UnknownFieldsGiveEmptyOrder(orders: seq<OrderTuple>, columns: seq<string>)
    requires forall i :: 0 <= i < |orders| ==> orders[i].0 !in columns
    ensures OrderMap(orders, columns) == []
    decreases |orders|
  {
    if orders != [] {
      UnknownFieldsGiveEmptyOrder(orders[..|orders| - 1], columns);
    }
  }

  /** `_generateOrderConditions`: the tuples are walked in order and each
      one whose field is a column is written onto the map. */
  method OrderConditions(orders: seq<OrderTuple>, columns: seq<string>) returns (orderConditions: Dict<Value>)
    ensures orderConditions == OrderMap(orders, columns)
  {
    orderConditions := [];
    for i := 0 to |orders|
      invariant orderConditions == OrderMap(orders[..i], columns)
    {
      assert orders[..i + 1][..i] == orders[..i];
      var (field, direction) := orders[i];
      if field in columns {
        orderConditions := Put(orderConditions, field, DirectionValue(direction));
      }
    }
    assert orders[..|orders|] == orders;
  }

  // ---------------------------------------------------------------------------
  // generateConditionGetList
  // ---------------------------------------------------------------------------

  /** `currentWhere`: the caller's alternatives as a list; an absent where
      is one `undefined` alternative. */
  function CurrentWhere(where: Value): seq<Value> {
    if where.Arr? then where.items else [where]
  }

  /** `if (searchValue)`: a search happens only for a non-empty string. */
  predicate Searching(searchValue: Option<string>) {
    searchValue.Some? && searchValue.value != ""
  }

  /** `{ [field]: ILike('%' + value + '%') }`. */
  function SearchTerm(field: string, value: string): Dict<Value> {
    [(field, ILike("%" + value + "%"))]
  }

  /** `{ ...el, ...s }` for the search term of `field`. */
  function Combined(el: Value, field: string, value: string): Value {
    Obj(Assign(Spread(el), SearchTerm(field, value)))
  }

  /** A combined alternative holds the search pattern on its field and
      every other key of the caller's alternative. */
  lemma CombinedGet(el: Value, field: string, value: string, k: string)
    ensures Get(Combined(el, field, value).fields, k) ==
      if k == field then Some(ILike("%" + value + "%")) else Get(Spread(el), k)
  {
  }

  /** The search alternatives of one caller alternative, one per field. */
  function RowFor(el: Value, fields: seq<string>, value: string): (r: seq<Value>)
    ensures |r| == |fields|
    ensures forall j :: 0 <= j < |fields| ==> r[j] == Combined(el, fields[j], value)
  {
    seq(|fields|, j requires 0 <= j < |fields| => Combined(el, fields[j], value))
  }

  /** `currentWhereWithSearch`: caller alternatives in the outer loop,
      fields in the inner one. */
  function SearchAlternatives(current: seq<Value>, fields: seq<string>, value: string): (r: seq<Value>)
    ensures |r| == |current| * |fields|
    decreases |current|
  {
    if current == [] then []
    else
      var n := |current| - 1;
      var front := SearchAlternatives(current[..n], fields, value);
      assert |front| + |fields| == |current| * |fields| by {
        assert |current| * |fields| == n * |fields| + |fields|;
      }
      front + RowFor(current[n], fields, value)
  }

  /** The alternative for caller alternative `i` and field `j` sits at
      `i * |fields| + j`. */
  lemma {:induction false} SearchAlternativeAt(current: seq<Value>, fields: seq<string>, value: string, i: int, j: int)
    requires 0 <= i < |current| && 0 <= j < |fields|
    ensures 0 <= i * |fields| + j < |current| * |fields|
    ensures SearchAlternatives(current, fields, value)[i * |fields| + j] == Combined(current[i], fields[j], value)
    decreases |current|
  {
    var n := |current| - 1;
    var f := |fields|;
    var front := SearchAlternatives(current[..n], fields, value);
    var row := RowFor(current[n], fields, value);
    assert SearchAlternatives(current, fields, value) == front + row;
    RowBounds(i, j, n, f);
    if i < n {
      assert current[..n][i] == current[i];
      SearchAlternativeAt(current[..n], fields, value, i, j);
      assert (front + row)[i * f + j] == front[i * f + j];
    } else {
      assert (front + row)[n * f + j] == row[j];
    }
  }

  lemma RowBounds(i: int, j: int, n: int, f: int)
    requires 0 <= i <= n && 0 <= j < f
    ensures 0 <= i * f + j < (n + 1) * f
    ensures i < n ==> i * f + j < n * f
    ensures i == n ==> i * f + j == n * f + j
  {
    assert (n + 1) * f == n * f + f;
    if i < n {
      assert i * f + f == (i + 1) * f;
    }
  }

  /** The alternatives a query asks for: the search product when searching,
      the caller's alternatives otherwise; either way soft-delete filtered. */
  function WhereFor(repo: BaseRepo, searchValue: Option<string>, where: Value): (r: seq<Dict<Value>>)
    ensures |r| >= 1
    ensures Searching(searchValue) && |CurrentWhere(where)| * |repo.allowFieldSearch| > 0 ==>
      |r| == |CurrentWhere(where)| * |repo.allowFieldSearch|
    ensures !Searching(searchValue) && where.Arr? && where.items != [] ==> |r| == |where.items|
  {
    if Searching(searchValue) then
      TrueWhere(Arr(SearchAlternatives(CurrentWhere(where), repo.allowFieldSearch, searchValue.value)))
    else
      TrueWhere(Arr(CurrentWhere(where)))
  }

  /** With a search, caller alternative `i` and field `j` give the
      alternative at `i * |fields| + j`: it asks for the pattern on the
      field, keeps the caller's other keys, and forces `removed` to `false`.
      There are |where| * |fields| alternatives. */
  lemma SearchWhereShape(current: seq<Value>, fields: seq<string>, value: string, i: int, j: int, k: string)
    requires 0 <= i < |current| && 0 <= j < |fields|
    ensures |TrueWhere(Arr(SearchAlternatives(current, fields, value)))| == |current| * |fields|
    ensures 0 <= i * |fields| + j < |current| * |fields|
    ensures Get(TrueWhere(Arr(SearchAlternatives(current, fields, value)))[i * |fields| + j], k) ==
      if k == "removed" then Some(Bool(false))
      else if k == fields[j] then Some(ILike("%" + value + "%"))
      else Get(Spread(current[i]), k)
  {
    var alts := SearchAlternatives(current, fields, value);
    SearchAlternativeAt(current, fields, value, i, j);
    CombinedWhereAt(alts, i * |fields| + j, current[i], fields[j], value, k);
  }

  /** A combined alternative at `idx`, once soft-delete filtered. */
  lemma CombinedWhereAt(alts: seq<Value>, idx: int, el: Value, field: string, value: string, k: string)
    requires 0 <= idx < |alts| && alts[idx] == Combined(el, field, value)
    ensures |TrueWhere(Arr(alts))| == |alts|
    ensures Get(TrueWhere(Arr(alts))[idx], k) ==
      if k == "removed" then Some(Bool(false))
      else if k == field then Some(ILike("%" + value + "%"))
      else Get(Spread(el), k)
  {
    TrueWhereListAt(alts, idx);
    NotRemovedCombinedGet(el, field, value, k);
  }

  /** With a search, the where list is the soft-delete filtered product. */
  lemma SearchingWhere(repo: BaseRepo, searchValue: Option<string>, where: Value)
    requires Searching(searchValue)
    ensures WhereFor(repo, searchValue, where) ==
      TrueWhere(Arr(SearchAlternatives(CurrentWhere(where), repo.allowFieldSearch, searchValue.value)))
  {
  }

  lemma NotRemovedCombinedGet(el: Value, field: string, value: string, k: string)
    ensures Get(NotRemoved(Combined(el, field, value)), k) ==
      if k == "removed" then Some(Bool(false))
      else if k == field then Some(ILike("%" + value + "%"))
      else Get(Spread(el), k)
  {
    CombinedGet(el, field, value, k);
  }

  lemma TrueWhereListAt(alts: seq<Value>, idx: int)
    requires 0 <= idx < |alts|
    ensures |TrueWhere(Arr(alts))| == |alts|
    ensures TrueWhere(Arr(alts))[idx] == NotRemoved(alts[idx])
  {
    TrueWhereAt(Arr(alts), idx);
  }

  /** A search on a repository with no search fields drops the caller's
      where entirely: every live record matches. */
  lemma SearchWithoutFieldsMatchesAll(repo: BaseRepo, searchValue: Option<string>, where: Value)
    requires Searching(searchValue) && repo.allowFieldSearch == []
    ensures WhereFor(repo, searchValue, where) == DefaultWhere
  {
    assert SearchAlternatives(CurrentWhere(where), repo.allowFieldSearch, searchValue.value) == [];
  }

  /** An empty list of caller alternatives gives the default, with or
      without a search. */
  lemma EmptyWhereListIgnoresSearch(repo: BaseRepo, searchValue: Option<string>)
    ensures WhereFor(repo, searchValue, Arr([])) == DefaultWhere
  {
    assert CurrentWhere(Arr([])) == [];
  }

  /** An empty search value is no search; with no caller where either, the
      default alternative is all that is asked. */
  lemma EmptySearchIsNoSearch(repo: BaseRepo, where: Value)
    ensures WhereFor(repo, Some(""), where) == WhereFor(repo, None, where)
    ensures WhereFor(repo, Some(""), Undefined) == DefaultWhere
  {
    assert TrueWhere(Arr([Undefined])) == [NotRemoved(Undefined)];
  }

  /** `generateConditionGetList`: the order map (from the given orders or the
      repository's default), the caller's options spread over it, and the
      where replaced by the soft-delete filtered alternatives. */
  function ConditionGetList(repo: BaseRepo, searchValue: Option<string>, options: Dict<Value>, orders: Option<seq<OrderTuple>>): (r: Dict<Value>)
    requires UniqueKeys(options)
    ensures UniqueKeys(r)
  {
    var base := Assign([("order", Obj(OrderMap(orders.GetOr(repo.defaultOrder), repo.columns)))], options);
    Put(base, "where", WhereValue(WhereFor(repo, searchValue, Get(options, "where").GetOr(Undefined))))
  }

  /** What the query object holds: the computed where; the caller's
      `order` when it gave one, the order map otherwise; every other option
      as given; nothing else. */
  lemma ConditionGetListGet(repo: BaseRepo, searchValue: Option<string>, options: Dict<Value>, orders: Option<seq<OrderTuple>>, k: string)
    requires UniqueKeys(options)
    ensures Get(ConditionGetList(repo, searchValue, options, orders), k) ==
      if k == "where" then Some(WhereValue(WhereFor(repo, searchValue, Get(options, "where").GetOr(Undefined))))
      else if k == "order" && Get(options, "order").None? then Some(Obj(OrderMap(orders.GetOr(repo.defaultOrder), repo.columns)))
      else Get(options, k)
  {
    LacksKey(options, k);
  }

  /** `generateConditionGetList` as written: the order map is built, the
      options spread over it, the search alternatives collected by the two
      nested loops, and `conditions.where` assigned. */
  method GenerateConditionGetList(repo: BaseRepo, searchValue: Option<string>, options: Dict<Value>, orders: Option<seq<OrderTuple>>) returns (conditions: Dict<Value>)
    requires UniqueKeys(options)
    ensures conditions == ConditionGetList(repo, searchValue, options, orders)
  {
    var conditionsSearch: seq<Dict<Value>> := [];
    var order := OrderConditions(orders.GetOr(repo.defaultOrder), repo.columns);
    conditions := Assign([("order", Obj(order))], options);
    var currentWhere := CurrentWhere(Get(options, "where").GetOr(Undefined));
    var currentWhereWithSearch: seq<Value> := [];
    if searchValue.Some? && searchValue.value != "" {
      var value := searchValue.value;
      var fields := repo.allowFieldSearch;
      for j := 0 to |fields|
        invariant conditionsSearch == seq(j, m requires 0 <= m < j => SearchTerm(fields[m], value))
      {
        conditionsSearch := conditionsSearch + [SearchTerm(fields[j], value)];
      }
      for i := 0 to |currentWhere|
        invariant currentWhereWithSearch == SearchAlternatives(currentWhere[..i], fields, value)
      {
        currentWhereWithSearch := SearchRow(currentWhereWithSearch, currentWhere, i, conditionsSearch, fields, value);
      }
      assert currentWhere[..|currentWhere|] == currentWhere;
      conditions := Put(conditions, "where", WhereValue(TrueWhere(Arr(currentWhereWithSearch))));
    } else {
      conditions := Put(conditions, "where", WhereValue(TrueWhere(Arr(currentWhere))));
    }
  }

  /** The inner loop: one combined alternative per search term is pushed for
      caller alternative `i`. */
  method SearchRow(acc: seq<Value>, currentWhere: seq<Value>, i: nat, conditionsSearch: seq<Dict<Value>>, fields: seq<string>, value: string)
    returns (out: seq<Value>)
    requires i < |currentWhere|
    requires acc == SearchAlternatives(currentWhere[..i], fields, value)
    requires conditionsSearch == seq(|fields|, m requires 0 <= m < |fields| => SearchTerm(fields[m], value))
    ensures out == SearchAlternatives(currentWhere[..i + 1], fields, value)
  {
    out := acc;
    var el := currentWhere[i];
    for j := 0 to |conditionsSearch|
      invariant out == acc + RowFor(el, fields[..j], value)
    {
      RowForSnoc(el, fields, j, value);
      out := out + [Obj(Assign(Spread(el), conditionsSearch[j]))];
    }
    SearchAlternativesSnoc(currentWhere, i, fields, value);
  }

  lemma RowForSnoc(el: Value, fields: seq<string>, j: nat, value: string)
    requires j < |fields|
    ensures RowFor(el, fields[..j + 1], value) == RowFor(el, fields[..j], value) + [Combined(el, fields[j], value)]
  {
    assert fields[..j + 1] == fields[..j] + [fields[j]];
  }

  lemma SearchAlternativesSnoc(current: seq<Value>, i: nat, fields: seq<string>, value: string)
    requires i < |current|
    ensures SearchAlternatives(current[..i + 1], fields, value) ==
      SearchAlternatives(current[..i], fields, value) + RowFor(current[i], fields[..|fields|], value)
  {
    assert fields[..|fields|] == fields;
    assert current[..i + 1][..i] == current[..i];
  }

  // ---------------------------------------------------------------------------
  // detail, list, listWithPaging
  // ---------------------------------------------------------------------------

  /** The options `detail` hands to `findOne`: the caller's, with the where
      replaced by its soft-delete filtered alternatives. */
  function DetailQuery(options: Dict<Value>): (r: Dict<Value>)
    ensures forall k :: k != "where" ==> Get(r, k) == Get(options, k)
    ensures Get(r, "where") == Some(WhereValue(TrueWhere(Get(options, "where").GetOr(Undefined))))
  {
    Put(options, "where", WhereValue(TrueWhere(Get(options, "where").GetOr(Undefined))))
  }

  /** `detail`: the record `findOne` returns for the filtered options. */
  function Detail(options: Dict<Value>, findOne: Dict<Value> -> Option<Value>): (r: Option<Value>)
    ensures r == findOne(DetailQuery(options))
    ensures forall k :: k != "where" ==> Get(DetailQuery(options), k) == Get(options, k)
  {
    findOne(DetailQuery(options))
  }

  /** The page size `listWithPaging` uses: the requested size (the
      repository default when absent) capped at the maximum. Nothing makes
      it positive. */
  function EffectivePageSize(repo: BaseRepo, pageSize: Option<int>): (n: int)
    ensures n <= pageSize.GetOr(repo.defaultPageSize) && n <= repo.maxPageSize
    ensures n == pageSize.GetOr(repo.defaultPageSize) || n == repo.maxPageSize
  {
    var requested := pageSize.GetOr(repo.defaultPageSize);
    if requested < repo.maxPageSize then requested else repo.maxPageSize
  }

  /** `{ skip: page * size, take: size }`, with the page 0 by default. */
  function Window(repo: BaseRepo, page: Option<int>, pageSize: Option<int>): (w: Dict<Value>)
    ensures UniqueKeys(w)
  {
    var size := EffectivePageSize(repo, pageSize);
    [("skip", Num(page.GetOr(0) * size)), ("take", Num(size))]
  }

  /** The window holds exactly `skip` and `take`. */
  lemma WindowGet(repo: BaseRepo, page: Option<int>, pageSize: Option<int>, k: string)
    ensures var size := EffectivePageSize(repo, pageSize);
      Get(Window(repo, page, pageSize), k) ==
        if k == "skip" then Some(Num(page.GetOr(0) * size))
        else if k == "take" then Some(Num(size))
        else None
  {
    var w := Window(repo, page, pageSize);
    assert |w| == 2 && w[0].0 == "skip" && w[1].0 == "take";
    assert w[1..][1..] == [];
  }

  /** Consecutive pages are adjacent windows: page `p + 1` starts where page
      `p` ends. */
  lemma ConsecutivePagesAdjacent(repo: BaseRepo, p: int, pageSize: Option<int>)
    ensures Window(repo, Some(p + 1), pageSize)[0].1.n ==
      Window(repo, Some(p), pageSize)[0].1.n + Window(repo, Some(p), pageSize)[1].1.n
  {
    var size := EffectivePageSize(repo, pageSize);
    assert (p + 1) * size == p * size + size;
  }

  /** With the default options the first page is `skip 0, take 10`, and a
      request for 500 rows is capped at 100. */
  lemma DefaultWindows(columns: seq<string>, fields: Option<seq<string>>)
    ensures Window(NewBaseRepo(None, fields, columns), None, None) == [("skip", Num(0)), ("take", Num(10))]
    ensures Window(NewBaseRepo(None, fields, columns), Some(3), Some(500)) == [("skip", Num(300)), ("take", Num(100))]
  {
  }

  /** Zero and negative page sizes pass through unchecked. */
  lemma NonPositiveSizesPassThrough(repo: BaseRepo, page: int, size: int)
    requires size <= 0 && repo.maxPageSize > 0
    ensures Window(repo, Some(page), Some(size)) == [("skip", Num(page * size)), ("take", Num(size))]
  {
  }

  /** The request of `list` and `listWithPaging`; every part may be
      missing. */
  datatype ListRequest = ListRequest(
    options: Option<Dict<Value>>,
    searchValue: Option<string>,
    page: Option<int>,
    pageSize: Option<int>,
    orders: Option<seq<OrderTuple>>)

  /** The query `listWithPaging` sends: the window, with the query object
      of `generateConditionGetList` spread over it. */
  function PagedConditions(repo: BaseRepo, request: ListRequest): (r: Dict<Value>)
    requires UniqueKeys(request.options.GetOr([]))
    ensures UniqueKeys(r)
  {
    var conditions := ConditionGetList(repo, request.searchValue, request.options.GetOr([]), request.orders);
    Assign(Window(repo, request.page, request.pageSize), conditions)
  }

  /** The paged query takes `skip` and `take` from the window unless the
      caller's options carry their own, which win; everything else is the
      query object of `generateConditionGetList`. */
  lemma PagedConditionsGet(repo: BaseRepo, request: ListRequest, k: string)
    requires UniqueKeys(request.options.GetOr([]))
    ensures var options := request.options.GetOr([]);
      var size := EffectivePageSize(repo, request.pageSize);
      Get(PagedConditions(repo, request), k) ==
        if k == "skip" && Get(options, "skip").None? then Some(Num(request.page.GetOr(0) * size))
        else if k == "take" && Get(options, "take").None? then Some(Num(size))
        else Get(ConditionGetList(repo, request.searchValue, options, request.orders), k)
  {
    var options := request.options.GetOr([]);
    var conditions := ConditionGetList(repo, request.searchValue, options, request.orders);
    AssignGet(Window(repo, request.page, request.pageSize), conditions, k);
    WindowGet(repo, request.page, request.pageSize, k);
    if k == "skip" || k == "take" {
      ConditionGetListGet(repo, request.searchValue, options, request.orders, k);
    }
  }

  /** `page_info.filter`: what the caller asked for, with the effective page
      size. */
  datatype FilterEcho = FilterEcho(page: int, pageSize: int, searchValue: Option<string>)
  datatype PageInfo = PageInfo(filter: FilterEcho, totalCount: int)
  datatype PagingResult = PagingResult(data: seq<Value>, pageInfo: PageInfo)

  /** `listWithPaging`: one `findAndCount` on the paged query; the rows it
      returns and the echo of the request. */
  method ListWithPaging(repo: BaseRepo, request: ListRequest, findAndCount: Dict<Value> -> (seq<Value>, int)) returns (result: PagingResult)
    requires UniqueKeys(request.options.GetOr([]))
    ensures result.data == findAndCount(PagedConditions(repo, request)).0
    ensures result.pageInfo.totalCount == findAndCount(PagedConditions(repo, request)).1
    ensures result.pageInfo.filter == FilterEcho(request.page.GetOr(0), EffectivePageSize(repo, request.pageSize), request.searchValue)
  {
    var page := request.page.GetOr(0);
    var currentPageSize := EffectivePageSize(repo, request.pageSize);
    var generated := GenerateConditionGetList(repo, request.searchValue, request.options.GetOr([]), request.orders);
    var conditions := Assign([("skip", Num(page * currentPageSize)), ("take", Num(currentPageSize))], generated);
    var (data, totalCount) := findAndCount(conditions);
    result := PagingResult(data, PageInfo(FilterEcho(page, currentPageSize, request.searchValue), totalCount));
  }

  /** `list`: the rows `find` returns for the query object. */
  method List(repo: BaseRepo, request: ListRequest, find: Dict<Value> -> seq<Value>) returns (data: seq<Value>)
    requires UniqueKeys(request.options.GetOr([]))
    ensures data == find(ConditionGetList(repo, request.searchValue, request.options.GetOr([]), request.orders))
  {
    var conditions := GenerateConditionGetList(repo, request.searchValue, request.options.GetOr([]), request.orders);
    data := find(conditions);
  }
}
