/**
 The filters, limit and offset of a query string, gathered from a map that has no order
 (rust-core/src/postgrest.rs, parse_query_params).
 */
module QueryParams {
  import opened Postgrest
  import opened Sql
  import opened Strings
  import opened Wrappers

  function ParseOp(op: string): Result<FilterOp, ParseError> {
    if op == "eq" then Success(Compared(Eq))
    else if op == "neq" then Success(Compared(Neq))
    else if op == "gt" then Success(Compared(Gt))
    else if op == "gte" then Success(Compared(Gte))
    else if op == "lt" then Success(Compared(Lt))
    else if op == "lte" then Success(Compared(Lte))
    else if op == "in" then Success(OneOf)
    else if op == "is" then Success(Is)
    else if op == "like" then Success(LikeText)
    else if op == "ilike" then Success(IlikeText)
    else Failure(ParseError)
  }

  const PREFIX_OPS: seq<string> := ["neq", "gt", "gte", "lt", "lte", "in", "is", "like", "ilike"]

  /** The first operator from `ops` that the value starts with, followed by a dot. */
  function ParsePrefixed(key: string, value: string, ops: seq<string>): Result<FilterExpr, ParseError> {
    if |ops| == 0 then Failure(ParseError)
    else if ops[0] + "." <= value then
      match ParseOp(ops[0])
      case Failure(e) => Failure(e)
      case Success(op) => Success(Condition(key, op, value[|ops[0]| + 1..]))
    else ParsePrefixed(key, value, ops[1..])
  }

  function ParseCondition(key: string, value: string): Result<FilterExpr, ParseError> {
    if '.' in key then
      var parts := CutAt(key, '.');
      match ParseOp(parts.1)
      case Failure(e) => Failure(e)
      case Success(op) => Success(Condition(parts.0, op, value))
    else if "eq." <= value then Success(Condition(key, Compared(Eq), value[3..]))
    else ParsePrefixed(key, value, PREFIX_OPS)
  }

  function ParseFilterEntry(key: string, value: string): Result<FilterExpr, ParseError> {
    if "not." <= value then
      match ParseCondition(key, value[4..])
      case Failure(e) => Failure(e)
      case Success(c) => Success(Negated(c))
    else ParseCondition(key, value)
  }

  function ParseAndSegment(part: string): Result<FilterExpr, ParseError> {
    var text := Trim(part);
    if '=' in text then ParseCondition(CutAt(text, '=').0, CutAt(text, '=').1) else Failure(ParseError)
  }

  function ParseOrSegment(part: string): Result<FilterExpr, ParseError> {
    var text := Trim(part);
    if '=' in text then ParseCondition(CutAt(text, '=').0, CutAt(text, '=').1)
    else if '.' in text then
      var column, rest := CutAt(text, '.').0, CutAt(text, '.').1;
      if '.' in rest then ParseCondition(column + "." + CutAt(rest, '.').0, CutAt(rest, '.').1)
      else Success(Condition(column, Compared(Eq), rest))
    else Failure(ParseError)
  }

  function ParseSegments(parts: seq<string>, conjunction: bool): (r: Result<seq<FilterExpr>, ParseError>)
    ensures r.Success? ==> |r.value| == |parts|
  {
    if |parts| == 0 then Success([])
    else
      match ParseSegments(parts[..|parts| - 1], conjunction)
      case Failure(e) => Failure(e)
      case Success(front) =>
        var last := parts[|parts| - 1];
        match if conjunction then ParseAndSegment(last) else ParseOrSegment(last)
        case Failure(e) => Failure(e)
        case Success(f) => Success(front + [f])
  }

  // ---- Columns, order, count -----------------------------------------------------------

  function NonEmpty(pieces: seq<string>): seq<string> {
    if |pieces| == 0 then []
    else NonEmpty(pieces[..|pieces| - 1]) + (if |pieces[|pieces| - 1]| > 0 then [pieces[|pieces| - 1]] else [])
  }

  function ParseSelectParam(value: string): seq<string> {
    if value == "" || value == "*" then [] else NonEmpty(TrimAll(Split(value, ',')))
  }

  /** `column`, `column.asc`, `column.desc`, and then where nulls go; further parts are ignored. */
  function ParseOrderClause(clause: string): Result<OrderClause, ParseError> {
    var parts := Split(Trim(clause), '.');
    if parts[0] == "" then Failure(ParseError)
    else if |parts| > 1 && parts[1] != "asc" && parts[1] != "desc" then Failure(ParseError)
    else if |parts| > 2 && parts[2] != "nullsfirst" && parts[2] != "nullslast" then Failure(ParseError)
    else
      Success(OrderClause(
        parts[0],
        if |parts| > 1 && parts[1] == "desc" then Desc else Asc,
        if |parts| <= 2 then NullsDefault else if parts[2] == "nullsfirst" then NullsFirst else NullsLast))
  }

  function ParseOrderClauses(clauses: seq<string>): Result<seq<OrderClause>, ParseError> {
    if |clauses| == 0 then Success([])
    else
      match ParseOrderClauses(clauses[..|clauses| - 1])
      case Failure(e) => Failure(e)
      case Success(front) =>
        match ParseOrderClause(clauses[|clauses| - 1])
        case Failure(e) => Failure(e)
        case Success(o) => Success(front + [o])
  }

  function ParseOrder(value: string): Result<seq<OrderClause>, ParseError> {
    if value == "" then Success([]) else ParseOrderClauses(Split(value, ','))
  }

  function ParseCount(value: string): CountMode {
    if value == "exact" then Exact
    else if value == "planned" then Planned
    else if value == "estimated" then Estimated
    else NoCount
  }

  /** Keys that are not filters. */
  predicate Reserved(key: string) {
    key in {"select", "limit", "offset", "order", "bookmark", "session", "route_region", "count"}
  }

  /** The filter one parameter stands for. */
  function EntryFilter(key: string, value: string): Result<FilterExpr, ParseError> {
    if key == "or" then
      match ParseSegments(Split(value, ','), false)
      case Failure(e) => Failure(e)
      case Success(children) => Success(Any(children))
    else if key == "and" then
      match ParseSegments(Split(value, ','), true)
      case Failure(e) => Failure(e)
      case Success(children) => Success(All(children))
    else ParseFilterEntry(key, value)
  }

  function NumberParam(query: map<string, string>, key: string, other: nat): nat {
    if key in query && ParseU64(query[key]).Some? then ParseU64(query[key]).value else other
  }

  function OrderParam(query: map<string, string>): Result<seq<OrderClause>, ParseError> {
    if "order" in query then ParseOrder(query["order"]) else Success([])
  }

  function SelectParam(query: map<string, string>): seq<string> {
    if "select" in query then ParseSelectParam(query["select"]) else []
  }

  function CountParam(query: map<string, string>): CountMode {
    if "count" in query then ParseCount(query["count"]) else NoCount
  }

  predicate Parses(query: map<string, string>) {
    forall k :: k in query && !Reserved(k) ==> EntryFilter(k, query[k]).Success?
  }

  /** The meaning of the parameter `k` on a row. */
  function EntryMeans(query: map<string, string>, k: string, row: Row): Tri
    requires k in query && !Reserved(k) && Parses(query)
  {
    Means(EntryFilter(k, query[k]).value, row)
  }

  // ---- The loop -----------------------------------------------------------------------

  /** `conditions[i]` came from the key `keys[i]`; together they are the filter keys in `done`. */
  predicate Gathered(query: map<string, string>, done: set<string>, keys: seq<string>, conditions: seq<FilterExpr>) {
    && |keys| == |conditions|
    && (forall i :: 0 <= i < |keys| ==>
          keys[i] in done && keys[i] in query && !Reserved(keys[i])
          && EntryFilter(keys[i], query[keys[i]]) == Success(conditions[i]))
    && (forall i, j :: 0 <= i < j < |keys| ==> keys[i] != keys[j])
    && (forall k :: k in done && !Reserved(k) && k != "or" ==> k in keys)
  }

  lemma GatherNext(query: map<string, string>, done: set<string>, keys: seq<string>, conditions: seq<FilterExpr>,
                   key: string, f: FilterExpr)
    requires Gathered(query, done, keys, conditions) && key !in done
    requires key in query && !Reserved(key) && EntryFilter(key, query[key]) == Success(f)
    ensures Gathered(query, done + {key}, keys + [key], conditions + [f])
  {
    hide EntryFilter, Reserved;
  }

  lemma GatherSkip(query: map<string, string>, done: set<string>, keys: seq<string>, conditions: seq<FilterExpr>, key: string)
    requires Gathered(query, done, keys, conditions) && (Reserved(key) || key == "or")
    ensures Gathered(query, done + {key}, keys, conditions)
  {
    hide EntryFilter, Reserved;
  }

  function Gather(conditions: seq<FilterExpr>): FilterExpr {
    if |conditions| == 1 then conditions[0] else All(conditions)
  }

  lemma {:induction false} AllMeanValues(fs: seq<FilterExpr>, row: Row)
    ensures AllMean(fs, row) == True <==> forall i :: 0 <= i < |fs| ==> Means(fs[i], row) == True
    ensures AllMean(fs, row) == False <==> exists i :: 0 <= i < |fs| && Means(fs[i], row) == False
  {
    hide Means;
    if |fs| > 0 {
      var n := |fs| - 1;
      AllMeanValues(fs[..n], row);
      assert forall i :: 0 <= i < n ==> fs[..n][i] == fs[i];
    }
  }

  lemma GatherMeans(fs: seq<FilterExpr>, row: Row)
    ensures Means(Gather(fs), row) == True <==> forall i :: 0 <= i < |fs| ==> Means(fs[i], row) == True
    ensures Means(Gather(fs), row) == False <==> exists i :: 0 <= i < |fs| && Means(fs[i], row) == False
  {
    AllMeanValues(fs, row);
  }

  /** What the gathered filter says, in terms of the parameters alone. */
  predicate MeansAll(query: map<string, string>, f: FilterExpr, row: Row)
    requires Parses(query)
  {
    && (Means(f, row) == True <==> forall k :: k in query && !Reserved(k) ==> EntryMeans(query, k, row) == True)
    && (Means(f, row) == False <==> exists k :: k in query && !Reserved(k) && EntryMeans(query, k, row) == False)
  }

  lemma GatheredMeans(query: map<string, string>, keys: seq<string>, conditions: seq<FilterExpr>, row: Row)
    requires Parses(query) && Gathered(query, query.Keys, keys, conditions)
    requires "or" in query ==> "or" in keys
    ensures MeansAll(query, Gather(conditions), row)
  {
    hide EntryFilter, Reserved, Gather, Means;
    GatherMeans(conditions, row);
    forall k | k in query && !Reserved(k)
      ensures k in keys
    {
    }
    if k :| k in query && !Reserved(k) && EntryMeans(query, k, row) == False {
      var i :| 0 <= i < |keys| && keys[i] == k;
      assert Means(conditions[i], row) == False;
    }
    if i :| 0 <= i < |conditions| && Means(conditions[i], row) == False {
      assert EntryMeans(query, keys[i], row) == False;
    }
    if forall i :: 0 <= i < |conditions| ==> Means(conditions[i], row) == True {
      forall k | k in query && !Reserved(k)
        ensures EntryMeans(query, k, row) == True
      {
        var i :| 0 <= i < |keys| && keys[i] == k;
      }
    } else {
      var i :| 0 <= i < |conditions| && Means(conditions[i], row) != True;
      assert EntryMeans(query, keys[i], row) != True;
    }
  }

  /** The one query that ends in an open disjunction: `or` with several parts and no other filter. */
  predicate OnlyOr(query: map<string, string>) {
    && "or" in query && ',' in query["or"]
    && (forall k :: k in query && !Reserved(k) ==> k == "or")
  }

  lemma EntryOpenOr(key: string, value: string)
    requires EntryFilter(key, value).Success?
    ensures OpenOr(EntryFilter(key, value).value) <==> key == "or" && ',' in value
  {
    SplitsInTwo(value, ',');
    if key != "or" && key != "and" {
      EntryIsNoOr(key, value);
    }
  }

  lemma EntryIsNoOr(key: string, value: string)
    requires ParseFilterEntry(key, value).Success?
    ensures !ParseFilterEntry(key, value).value.Any?
  {
    if !("not." <= value) && '.' !in key && !("eq." <= value) {
      PrefixedIsNoOr(key, value, PREFIX_OPS);
    }
  }

  lemma {:induction false} PrefixedIsNoOr(key: string, value: string, ops: seq<string>)
    requires ParsePrefixed(key, value, ops).Success?
    ensures !ParsePrefixed(key, value, ops).value.Any?
  {
    if |ops| > 0 && !(ops[0] + "." <= value) {
      PrefixedIsNoOr(key, value, ops[1..]);
    }
  }

  /** Two different filter keys cannot both be `or`. */
  lemma OnlyOneOr(query: map<string, string>, keys: seq<string>)
    requires forall i :: 0 <= i < |keys| ==> keys[i] in query && !Reserved(keys[i])
    requires forall i, j :: 0 <= i < j < |keys| ==> keys[i] != keys[j]
    requires forall k :: k in query && !Reserved(k) ==> k in keys
    requires |keys| != 1
    ensures !OnlyOr(query)
  {
    hide Reserved;
    ReservedNames();
    if |keys| >= 2 {
      assert keys[0] != "or" || keys[1] != "or";
    }
  }

  lemma GatheredOpenOr(query: map<string, string>, keys: seq<string>, conditions: seq<FilterExpr>)
    requires Parses(query) && Gathered(query, query.Keys, keys, conditions)
    requires "or" in query ==> "or" in keys
    ensures OpenOr(Gather(conditions)) <==> OnlyOr(query)
  {
    hide EntryFilter, Reserved;
    forall k | k in query && !Reserved(k)
      ensures k in keys
    {
    }
    if |keys| == 1 {
      EntryOpenOr(keys[0], query[keys[0]]);
    } else {
      OnlyOneOr(query, keys);
    }
  }

  /** The fields of the query that are not filters. */
  datatype Fields = Fields(limit: nat, offset: nat, order: seq<OrderClause>, select: seq<string>, count: CountMode)

  const DEFAULTS := Fields(100, 0, [], [], NoCount)

  /** Every parameter outside `todo` has been taken in. */
  predicate Taken(query: map<string, string>, todo: set<string>, f: Fields) {
    && f.limit == (if "limit" in todo then 100 else NumberParam(query, "limit", 100))
    && f.offset == (if "offset" in todo then 0 else NumberParam(query, "offset", 0))
    && (if "order" in todo then f.order == [] else OrderParam(query) == Success(f.order))
    && f.select == (if "select" in todo then [] else SelectParam(query))
    && f.count == (if "count" in todo then NoCount else CountParam(query))
  }

  /** One parameter that is not a filter. */
  method TakeReserved(query: map<string, string>, ghost todo: set<string>, key: string, value: string, f: Fields)
      returns (r: Result<Fields, ParseError>)
    requires key in query && query[key] == value && key !in todo && Taken(query, todo + {key}, f)
    ensures r.Success? ==> Taken(query, todo, r.value)
    ensures r.Failure? ==> OrderParam(query).Failure?
  {
    hide ParseU64, ParseOrder, ParseSelectParam, ParseCount;
    if key == "limit" {
      r := Success(f.(limit := if ParseU64(value).Some? then ParseU64(value).value else 100));
    } else if key == "offset" {
      r := Success(f.(offset := if ParseU64(value).Some? then ParseU64(value).value else 0));
    } else if key == "select" {
      r := Success(f.(select := ParseSelectParam(value)));
    } else if key == "order" {
      var order := ParseOrder(value);
      if order.Failure? {
        return Failure(order.error);
      }
      r := Success(f.(order := order.value));
    } else if key == "count" {
      r := Success(f.(count := ParseCount(value)));
    } else {
      r := Success(f);
    }
  }

  lemma TakenSkip(query: map<string, string>, todo: set<string>, key: string, f: Fields)
    requires Taken(query, todo + {key}, f) && !Reserved(key)
    ensures Taken(query, todo, f)
  {
  }

  lemma NothingTaken(query: map<string, string>)
    ensures Taken(query, query.Keys, DEFAULTS)
  {
  }

  lemma AllTaken(query: map<string, string>, f: Fields)
    requires Taken(query, {}, f)
    ensures OrderParam(query) == Success(f.order)
    ensures f == Fields(NumberParam(query, "limit", 100), NumberParam(query, "offset", 0), f.order,
                        SelectParam(query), CountParam(query))
  {
  }

  /**
   `parse_query_params` goes through the map in any order. Whatever the order, the same queries
   fail, the limit and offset are the same, and the filters mean the conjunction of the
   parameters; they are an open disjunction only for a lone `or` of several parts.
   */
  method ParseQueryParams(query: map<string, string>) returns (r: Result<SelectQuery, ParseError>)
    ensures r.Success? <==> Parses(query) && OrderParam(query).Success?
    ensures r.Success? ==>
              && r.value.limit == NumberParam(query, "limit", 100)
              && r.value.offset == NumberParam(query, "offset", 0)
              && r.value.order == OrderParam(query).value
              && r.value.select == SelectParam(query) && r.value.count == CountParam(query)
              && (forall row :: MeansAll(query, r.value.filters, row))
              && (OpenOr(r.value.filters) <==> OnlyOr(query))
  {
    hide EntryFilter, Gathered, MeansAll, OnlyOr, OpenOr, ParseU64, Gather, Reserved, Taken, NumberParam,
      OrderParam, SelectParam, CountParam;
    ReservedNames();
    var taken := DEFAULTS;
    var conditions: seq<FilterExpr> := [];
    var orExpr: Option<FilterExpr> := None;
    var todo := query.Keys;
    ghost var keys: seq<string> := [];
    NothingGathered(query);
    NothingTaken(query);
    while todo != {}
      invariant todo <= query.Keys
      invariant Gathered(query, query.Keys - todo, keys, conditions)
      invariant forall k :: k in query && k !in todo && !Reserved(k) ==> EntryFilter(k, query[k]).Success?
      invariant "or" in query.Keys - todo <==> orExpr.Some?
      invariant "or" !in keys
      invariant orExpr.Some? ==> EntryFilter("or", query["or"]) == Success(orExpr.value)
      invariant Taken(query, todo, taken)
      decreases |todo|
    {
      var key :| key in todo;
      var value := query[key];
      ghost var done := query.Keys - todo;
      assert todo == todo - {key} + {key};
      todo := todo - {key};
      assert query.Keys - todo == done + {key};
      if Reserved(key) {
        GatherSkip(query, done, keys, conditions, key);
        var next := TakeReserved(query, todo, key, value, taken);
        if next.Failure? {
          return Failure(next.error);
        }
        taken := next.value;
      } else {
        var f := EntryFilter(key, value);
        if f.Failure? {
          return Failure(f.error);
        }
        if key == "or" {
          GatherSkip(query, done, keys, conditions, key);
          orExpr := Some(f.value);
        } else {
          GatherNext(query, done, keys, conditions, key, f.value);
          conditions := conditions + [f.value];
          keys := keys + [key];
        }
        TakenSkip(query, todo, key, taken);
      }
    }
    assert query.Keys - todo == query.Keys;
    AllTaken(query, taken);
    if orExpr.Some? {
      GatherOr(query, keys, conditions, orExpr.value);
      conditions := conditions + [orExpr.value];
      keys := keys + ["or"];
    }
    GatheredOpenOr(query, keys, conditions);
    forall row
      ensures MeansAll(query, Gather(conditions), row)
    {
      GatheredMeans(query, keys, conditions, row);
    }
    r := Success(SelectQuery(
      Gather(conditions), taken.limit, taken.offset, taken.order, taken.select, taken.count));
  }

  lemma ReservedNames()
    ensures Reserved("limit") && Reserved("offset") && Reserved("select") && Reserved("order") && Reserved("count")
    ensures !Reserved("or")
  {
    assert |"or"| == 2;
  }

  lemma NothingGathered(query: map<string, string>)
    ensures Gathered(query, query.Keys - query.Keys, [], [])
  {
  }

  lemma GatherOr(query: map<string, string>, keys: seq<string>, conditions: seq<FilterExpr>, f: FilterExpr)
    requires Gathered(query, query.Keys, keys, conditions) && "or" !in keys
    requires "or" in query && EntryFilter("or", query["or"]) == Success(f)
    ensures Gathered(query, query.Keys, keys + ["or"], conditions + [f])
  {
    hide EntryFilter;
  }

  /** Two answers to the same parameters agree in every row, whatever orders they came from. */
  lemma AnswersAgree(query: map<string, string>, a: FilterExpr, b: FilterExpr, row: Row)
    requires Parses(query) && MeansAll(query, a, row) && MeansAll(query, b, row)
    ensures Means(a, row) == Means(b, row)
  {
    hide EntryMeans, Means;
  }
}
