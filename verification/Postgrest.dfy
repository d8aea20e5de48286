/**
 Filter trees of the query interface, their compilation to SQL, and the WHERE clause that joins
 a filter with the row policy (rust-core/src/postgrest.rs).
 */
module Postgrest {
  import opened Strings
  import opened Wrappers
  import opened Sql
  import opened Policy
  import opened PolicyProofs

  datatype FilterOp = Compared(op: CompareOp) | OneOf | Is | LikeText | IlikeText

  datatype FilterExpr =
    | Condition(column: string, op: FilterOp, value: string)
    | All(children: seq<FilterExpr>)
    | Any(children: seq<FilterExpr>)
    | Negated(inner: FilterExpr)

  datatype ParseError = ParseError

  // ---- Text helpers ------------------------------------------------------------

  function TrimAll(pieces: seq<string>): (r: seq<string>)
    ensures |r| == |pieces|
  {
    seq(|pieces|, i requires 0 <= i < |pieces| => Trim(pieces[i]))
  }

  /** The values of an `in` filter: `(a,b,c)` with or without the parentheses. */
  function ListItems(value: string): (items: seq<string>)
    ensures |items| >= 1
  {
    TrimAll(Split(DropTrailing(DropLeading(value, '('), ')'), ','))
  }

  function Lower(s: string): string {
    if |s| == 0 then "" else Lower(s[..|s| - 1]) + [Fold(s[|s| - 1])]
  }

  // ---- The compiler ---------------------------------------------------------------

  function TextParams(items: seq<string>): (r: seq<SqlValue>)
    ensures |r| == |items|
  {
    seq(|items|, i requires 0 <= i < |items| => Text(items[i]))
  }

  function CompileIs(column: Token, value: string): Result<Compiled, ParseError> {
    var lower := Lower(value);
    if lower == "null" then Success(Compiled([column, KwIs, KwNull], []))
    else if lower == "not.null" || lower == "notnull" then Success(Compiled([column, KwIs, KwNot, KwNull], []))
    else if lower == "true" then Success(Compiled([column, KwIs, Number(1)], []))
    else if lower == "false" then Success(Compiled([column, KwIs, Number(0)], []))
    else Failure(ParseError)
  }

  function CompileCondition(name: string, op: FilterOp, value: string): Result<Compiled, ParseError> {
    match QuoteIdent(name)
    case Failure(_) => Failure(ParseError)
    case Success(column) =>
      match op
      case Compared(o) => Success(Compiled([column, Op(o), Param], [Text(value)]))
      case LikeText => Success(Compiled([column, KwLike, Param], [Text(value)]))
      case IlikeText => Success(Compiled([column, KwLike, Param, KwCollateNocase], [Text(value)]))
      case OneOf => Success(InClause(column, TextParams(ListItems(value))))
      case Is => CompileIs(column, value)
  }

  function CompileFilter(f: FilterExpr): Result<Compiled, ParseError>
    decreases f, 1
  {
    match f
    case Condition(column, op, value) => CompileCondition(column, op, value)
    case All(children) => JoinFilters(KwAnd, CompileChildren(children))
    case Any(children) => JoinFilters(KwOr, CompileChildren(children))
    case Negated(inner) =>
      match CompileFilter(inner)
      case Failure(e) => Failure(e)
      case Success(c) => Success(Compiled([KwNot] + Parens(c).sql, c.params))
  }

  function CompileChildren(children: seq<FilterExpr>): (r: Result<seq<Compiled>, ParseError>)
    ensures r.Success? ==> |r.value| == |children|
    decreases children, 0
  {
    if |children| == 0 then Success([])
    else
      match CompileChildren(children[..|children| - 1])
      case Failure(e) => Failure(e)
      case Success(front) =>
        match CompileFilter(children[|children| - 1])
        case Failure(e) => Failure(e)
        case Success(c) => Success(front + [c])
  }

  /** No children compile to `1=1`, under OR as well as under AND. */
  function JoinFilters(op: Token, compiled: Result<seq<Compiled>, ParseError>): Result<Compiled, ParseError> {
    match compiled
    case Failure(e) => Failure(e)
    case Success(cs) => Success(if |cs| == 0 then OneIsOne() else Join(op, cs))
  }

  /** `compile_filters`. */
  method CompileFilters(f: FilterExpr) returns (r: Result<Compiled, ParseError>)
    ensures r == CompileFilter(f)
    decreases f, 1
  {
    match f
    case Condition(column, op, value) =>
      r := CompileCondition(column, op, value);
    case All(children) =>
      r := CompileClauses(KwAnd, children);
    case Any(children) =>
      r := CompileClauses(KwOr, children);
    case Negated(inner) =>
      r := CompileFilters(inner);
      if r.Success? {
        r := Success(Compiled([KwNot] + ([LParen] + r.value.sql + [RParen]), r.value.params));
      }
  }

  /** Its loop over the children: a parenthesized clause each, parameters appended in order. */
  method CompileClauses(op: Token, children: seq<FilterExpr>) returns (r: Result<Compiled, ParseError>)
    ensures r == JoinFilters(op, CompileChildren(children))
    decreases children, 0
  {
    hide CompileFilter, Join, JoinText;
    if |children| == 0 {
      return Success(OneIsOne());
    }
    var clauses, params := [], [];
    ghost var cs: seq<Compiled> := [];
    for i := 0 to |children|
      invariant CompileChildren(children[..i]) == Success(cs) && |cs| == i == |clauses|
      invariant forall k :: 0 <= k < i ==> clauses[k] == Parens(cs[k]).sql
      invariant params == Params(cs)
    {
      assert children[..i + 1][..i] == children[..i];
      var c := CompileFilters(children[i]);
      if c.Failure? {
        ChildFailureStays(children, i + 1);
        assert c.error == ParseError;
        return Failure(c.error);
      }
      clauses := clauses + [[LParen] + c.value.sql + [RParen]];
      params := params + c.value.params;
      cs := cs + [c.value];
      assert cs[..i] == cs[..|cs| - 1];
    }
    assert children[..|children|] == children;
    JoinedClauses(op, cs, clauses);
    r := Success(Compiled(JoinText(clauses, op), params));
  }

  /** `clauses.join(" AND ")`. */
  function JoinText(clauses: seq<seq<Token>>, op: Token): seq<Token> {
    if |clauses| == 0 then []
    else if |clauses| == 1 then clauses[0]
    else JoinText(clauses[..|clauses| - 1], op) + [op] + clauses[|clauses| - 1]
  }

  function Params(cs: seq<Compiled>): seq<SqlValue> {
    if |cs| == 0 then [] else Params(cs[..|cs| - 1]) + cs[|cs| - 1].params
  }

  lemma {:induction false} JoinedClauses(op: Token, cs: seq<Compiled>, clauses: seq<seq<Token>>)
    requires |cs| == |clauses| && forall k :: 0 <= k < |cs| ==> clauses[k] == Parens(cs[k]).sql
    ensures Join(op, cs) == Compiled(JoinText(clauses, op), Params(cs))
  {
    if |cs| > 0 {
      var n := |cs| - 1;
      JoinedClauses(op, cs[..n], clauses[..n]);
      assert Params(cs) == Params(cs[..n]) + cs[n].params;
      if n == 0 {
        assert cs[..0] == [];
        assert Params(cs[..0]) == [] && [] + cs[0].params == cs[0].params;
      }
    }
  }

  lemma {:induction false} ChildFailureStays(children: seq<FilterExpr>, n: nat)
    requires n <= |children| && CompileChildren(children[..n]).Failure?
    ensures CompileChildren(children) == Failure(ParseError)
    decreases |children| - n
  {
    if n == |children| {
      assert children[..n] == children && CompileChildren(children).error == ParseError;
    } else {
      assert children[..n + 1][..n] == children[..n];
      ChildFailureStays(children, n + 1);
    }
  }

  // ---- What a filter means, without SQL ------------------------------------------------

  function ConditionMeans(name: string, op: FilterOp, value: string, row: Row): Tri {
    var v := Column(row, name);
    match op
    case Compared(o) => Compare(o, v, Text(value))
    case LikeText => Like(v, Text(value))
    case IlikeText => Like(v, Text(value))
    case OneOf =>
      if v.Null? then Unknown else Bool3(exists i :: 0 <= i < |ListItems(value)| && v == Text(ListItems(value)[i]))
    case Is =>
      var word := Lower(value);
      if word == "null" then Bool3(v == Null)
      else if word == "true" then Bool3(v == Integer(1))
      else if word == "false" then Bool3(v == Integer(0))
      else Bool3(v != Null)
  }

  function Means(f: FilterExpr, row: Row): Tri
    decreases f, 1
  {
    match f
    case Condition(column, op, value) => ConditionMeans(column, op, value, row)
    case All(children) => AllMean(children, row)
    case Any(children) => if |children| == 0 then True else AnyMean(children, row)
    case Negated(inner) => Not3(Means(inner, row))
  }

  function AllMean(children: seq<FilterExpr>, row: Row): Tri
    decreases children, 0
  {
    if |children| == 0 then True
    else And3(AllMean(children[..|children| - 1], row), Means(children[|children| - 1], row))
  }

  function AnyMean(children: seq<FilterExpr>, row: Row): Tri
    decreases children, 0
  {
    if |children| == 0 then False
    else Or3(AnyMean(children[..|children| - 1], row), Means(children[|children| - 1], row))
  }

  // ---- Filters round-trip through SQL ----------------------------------------------------

  function IsExpr(name: string, value: string): Expr {
    var lower := Lower(value);
    if lower == "null" then IsValue(name, Null)
    else if lower == "true" then IsValue(name, Integer(1))
    else if lower == "false" then IsValue(name, Integer(0))
    else IsNotNull(name)
  }

  function ConditionExpr(name: string, op: FilterOp, value: string): Expr {
    match op
    case Compared(o) => Cmp(name, o, Text(value))
    case LikeText => LikeTest(name, Text(value))
    case IlikeText => LikeTest(name, Text(value))
    case OneOf => In(name, TextParams(ListItems(value)))
    case Is => IsExpr(name, value)
  }

  /** The expression a filter's text is read as. */
  function FilterSql(f: FilterExpr): Expr
    decreases f, 1
  {
    match f
    case Condition(column, op, value) => ConditionExpr(column, op, value)
    case All(children) => if |children| == 0 then Const(true) else FoldExpr(KwAnd, ChildrenSql(children))
    case Any(children) => if |children| == 0 then Const(true) else FoldExpr(KwOr, ChildrenSql(children))
    case Negated(inner) => Not(FilterSql(inner))
  }

  function ChildrenSql(children: seq<FilterExpr>): (es: seq<Expr>)
    ensures |es| == |children|
    decreases children, 0
  {
    if |children| == 0 then []
    else ChildrenSql(children[..|children| - 1]) + [FilterSql(children[|children| - 1])]
  }

  lemma IlikeParses(name: string, v: SqlValue, rest: seq<Token>, ps: seq<SqlValue>)
    ensures ParseNot([Ident(name), KwLike, Param, KwCollateNocase] + rest, [v] + ps) == Some(Parsed(LikeTest(name, v), rest, ps))
  {
    var ts := [Ident(name), KwLike, Param, KwCollateNocase] + rest;
    assert ts[1..] == [KwLike, Param, KwCollateNocase] + rest;
    assert ts[1..][2..] == [KwCollateNocase] + rest && ([KwCollateNocase] + rest)[1..] == rest;
    assert ([v] + ps)[1..] == ps;
    assert ParseColumnTest(name, ts[1..], [v] + ps) == Some(Parsed(LikeTest(name, v), rest, ps));
  }

  lemma IlikeReads(name: string, v: SqlValue)
    ensures
      var c := Compiled([Ident(name), KwLike, Param, KwCollateNocase], [v]);
      BindsAs(c, LikeTest(name, v)) && Balanced(c)
  {
    hide ParseNot;
    var c := Compiled([Ident(name), KwLike, Param, KwCollateNocase], [v]);
    forall rest: seq<Token>, ps: seq<SqlValue>
      ensures ParseNot(c.sql + rest, c.params + ps) == Some(Parsed(LikeTest(name, v), rest, ps))
    {
      IlikeParses(name, v, rest, ps);
    }
    assert c.sql == [Ident(name), KwLike, Param] + [KwCollateNocase];
    CountConcat([Ident(name), KwLike, Param], [KwCollateNocase]);
    CountThree([Ident(name), KwLike, Param]);
    CountOne(Ident(name));
    CountOne(KwLike);
    CountOne(Param);
    CountOne(KwCollateNocase);
  }

  lemma IsReads(name: string, value: string)
    requires CompileIs(Ident(name), value).Success?
    ensures
      var c := CompileIs(Ident(name), value).value;
      BindsAs(c, IsExpr(name, value)) && Balanced(c)
  {
    hide Lower, BindsAs, Balanced;
    IsTestReads(name, [KwNull], IsValue(name, Null));
    IsTestReads(name, [KwNot, KwNull], IsNotNull(name));
    IsTestReads(name, [Number(1)], IsValue(name, Integer(1)));
    IsTestReads(name, [Number(0)], IsValue(name, Integer(0)));
    assert [Ident(name), KwIs] + [KwNull] == [Ident(name), KwIs, KwNull];
    assert [Ident(name), KwIs] + [KwNot, KwNull] == [Ident(name), KwIs, KwNot, KwNull];
    assert [Ident(name), KwIs] + [Number(1)] == [Ident(name), KwIs, Number(1)];
    assert [Ident(name), KwIs] + [Number(0)] == [Ident(name), KwIs, Number(0)];
  }

  /** `column IS` and what it is compared with. */
  lemma IsTestReads(name: string, test: seq<Token>, e: Expr)
    requires
      || (test == [KwNull] && e == IsValue(name, Null))
      || (test == [KwNot, KwNull] && e == IsNotNull(name))
      || (|test| == 1 && test[0].Number? && e == IsValue(name, Integer(test[0].n)))
    ensures
      var c := Compiled([Ident(name), KwIs] + test, []);
      BindsAs(c, e) && Balanced(c)
  {
    var c := Compiled([Ident(name), KwIs] + test, []);
    forall rest: seq<Token>, ps: seq<SqlValue>
      ensures ParseNot(c.sql + rest, c.params + ps) == Some(Parsed(e, rest, ps))
    {
      var ts := c.sql + rest;
      assert c.params + ps == ps;
      assert ts[1..] == [KwIs] + test + rest && ts[1..][1 + |test|..] == rest;
      assert ParseColumnTest(name, ts[1..], ps) == Some(Parsed(e, rest, ps));
    }
    NoParams(c.sql);
  }

  lemma {:induction false} NoParams(ts: seq<Token>)
    requires Param !in ts
    ensures CountParams(ts) == 0
  {
    if |ts| > 0 {
      NoParams(ts[..|ts| - 1]);
    }
  }

  lemma ConditionReads(name: string, op: FilterOp, value: string)
    requires CompileCondition(name, op, value).Success?
    ensures
      var c := CompileCondition(name, op, value).value;
      BindsAs(c, ConditionExpr(name, op, value)) && Balanced(c)
  {
    hide BindsAs, Balanced, CompileIs, IsExpr, ListItems, InClause;
    match op
    case Compared(o) => ColumnTestReads(name, Op(o), Text(value));
    case LikeText => ColumnTestReads(name, KwLike, Text(value));
    case IlikeText => IlikeReads(name, Text(value));
    case OneOf => InReads(name, TextParams(ListItems(value)));
    case Is => IsReads(name, value);
  }

  /** A disjunction that is not in parentheses. */
  predicate OpenOr(f: FilterExpr) {
    f.Any? && |f.children| >= 2
  }

  /**
   A filter's text reads as its expression and is balanced; unless it is an open disjunction
   it can also be the left part of a conjunction.
   */
  lemma {:induction false} FilterReads(f: FilterExpr)
    requires CompileFilter(f).Success?
    ensures ReadsAs(CompileFilter(f).value, FilterSql(f)) && Balanced(CompileFilter(f).value)
    ensures !OpenOr(f) ==> AndChain(CompileFilter(f).value, FilterSql(f))
    decreases f, 1
  {
    hide BindsAs, ReadsAs, Balanced, AndChain, OrChain, CompileCondition, ConditionExpr, OneIsOne;
    var c, e := CompileFilter(f).value, FilterSql(f);
    match f
    case Condition(column, op, value) =>
      ConditionReads(column, op, value);
      BindsReads(c, e);
      BindsAndChain(c, e);
    case Negated(inner) =>
      FilterReads(inner);
      NotBinds(CompileFilter(inner).value, FilterSql(inner));
      BindsReads(c, e);
      BindsAndChain(c, e);
      NotBalanced(CompileFilter(inner).value);
    case All(children) =>
      if |children| == 0 {
        ConstReads(true);
        BindsAndChain(c, e);
      } else {
        ChildrenRead(children);
        JoinAnd(CompileChildren(children).value, ChildrenSql(children));
        AndChainReads(c, e);
        JoinBalanced(KwAnd, CompileChildren(children).value);
      }
    case Any(children) =>
      if |children| == 0 {
        ConstReads(true);
        BindsAndChain(c, e);
      } else {
        ChildrenRead(children);
        var cs, es := CompileChildren(children).value, ChildrenSql(children);
        JoinOr(cs, es);
        OrChainReads(c, e);
        JoinBalanced(KwOr, cs);
        if |children| == 1 {
          ParensBind(cs[0], es[0]);
          BindsAndChain(c, e);
        }
      }
  }

  lemma {:induction false} ChildrenRead(children: seq<FilterExpr>)
    requires CompileChildren(children).Success?
    ensures AllRead(CompileChildren(children).value, ChildrenSql(children))
    ensures forall i :: 0 <= i < |children| ==> Balanced(CompileChildren(children).value[i])
    decreases children, 0
  {
    hide ReadsAs, Balanced, AndChain, CompileFilter, FilterSql;
    if |children| > 0 {
      ChildrenRead(children[..|children| - 1]);
      FilterReads(children[|children| - 1]);
    }
  }

  lemma NotBalanced(c: Compiled)
    requires Balanced(c)
    ensures Balanced(Compiled([KwNot] + Parens(c).sql, c.params))
  {
    ParensBalanced(c);
    CountOne(KwNot);
    CountConcat([KwNot], Parens(c).sql);
  }

  lemma {:induction false} OneOfMeans(v: SqlValue, items: seq<string>)
    requires |items| > 0
    ensures InList(v, TextParams(items))
            == if v.Null? then Unknown else Bool3(exists i :: 0 <= i < |items| && v == Text(items[i]))
  {
    var n := |items| - 1;
    assert TextParams(items)[..n] == TextParams(items[..n]);
    if n > 0 {
      OneOfMeans(v, items[..n]);
      assert forall i :: 0 <= i < n ==> items[..n][i] == items[i];
    }
  }

  lemma ConditionEval(name: string, op: FilterOp, value: string, row: Row)
    requires CompileCondition(name, op, value).Success?
    ensures Eval(ConditionExpr(name, op, value), row) == ConditionMeans(name, op, value, row)
  {
    hide ListItems, Lower, Compare, Like, InList;
    if op.OneOf? {
      OneOfMeans(Column(row, name), ListItems(value));
    }
  }

  /** The expression has the filter's own three-valued meaning on every row. */
  lemma {:induction false} FilterEval(f: FilterExpr, row: Row)
    requires CompileFilter(f).Success?
    ensures Eval(FilterSql(f), row) == Means(f, row)
    decreases f, 1
  {
    hide CompileCondition, ConditionExpr, ConditionMeans, Join;
    match f
    case Condition(column, op, value) => ConditionEval(column, op, value, row);
    case Negated(inner) => FilterEval(inner, row);
    case All(children) => if |children| > 0 { ChildrenEval(children, row); }
    case Any(children) => if |children| > 0 { ChildrenEval(children, row); }
  }

  lemma Units(t: Tri)
    ensures And3(True, t) == t && Or3(False, t) == t
  {
  }

  lemma {:induction false} ChildrenEval(children: seq<FilterExpr>, row: Row)
    requires CompileChildren(children).Success? && |children| > 0
    ensures Eval(FoldExpr(KwAnd, ChildrenSql(children)), row) == AllMean(children, row)
    ensures Eval(FoldExpr(KwOr, ChildrenSql(children)), row) == AnyMean(children, row)
    decreases children, 0
  {
    hide CompileFilter, FilterSql, Means, Or3, And3;
    var n := |children| - 1;
    FilterEval(children[n], row);
    var es := ChildrenSql(children);
    assert es[..n] == ChildrenSql(children[..n]) && es[n] == FilterSql(children[n]);
    if n > 0 {
      ChildrenEval(children[..n], row);
      FoldEval(es, row);
    } else {
      assert AllMean(children[..0], row) == True && AnyMean(children[..0], row) == False;
      Units(Means(children[0], row));
    }
  }

  lemma FoldEval(es: seq<Expr>, row: Row)
    requires |es| > 1
    ensures
      var n := |es| - 1;
      && Eval(FoldExpr(KwAnd, es), row) == And3(Eval(FoldExpr(KwAnd, es[..n]), row), Eval(es[n], row))
      && Eval(FoldExpr(KwOr, es), row) == Or3(Eval(FoldExpr(KwOr, es[..n]), row), Eval(es[n], row))
  {
    hide Or3, And3, Compare, Like, InList;
  }

  /**
   Compiling a filter and reading the text back with SQL's precedence gives the filter's meaning
   on every row; every `?` has its parameter.
   */
  lemma FilterRoundTrip(f: FilterExpr)
    requires CompileFilter(f).Success?
    ensures
      var c := CompileFilter(f).value;
      var parsed := ParseWhere(c.sql, c.params);
      Balanced(c) && parsed.Some? && forall row :: Eval(parsed.value, row) == Means(f, row)
  {
    hide *;
    FilterReads(f);
    ReadsWhole(CompileFilter(f).value, FilterSql(f));
    forall row
      ensures Eval(FilterSql(f), row) == Means(f, row)
    {
      FilterEval(f, row);
    }
  }

  // ---- The WHERE clause ---------------------------------------------------------------------

  /** `1=1` is dropped; any other filter text is followed by AND and the policy in parentheses. */
  function WhereClause(filter: Compiled, policy: Compiled): Compiled {
    if filter.sql == OneIsOne().sql then Compiled(Parens(policy).sql, filter.params + policy.params)
    else Infix(filter, KwAnd, Parens(policy))
  }

  /** The filter dropped from the WHERE clause is exactly the one with no children at the top. */
  lemma DroppedFilters(f: FilterExpr)
    requires CompileFilter(f).Success?
    ensures CompileFilter(f).value.sql == OneIsOne().sql <==> (f.All? || f.Any?) && |f.children| == 0
  {
    var c := CompileFilter(f).value;
    match f
    case Condition(column, op, value) => assert c.sql[0].Ident?;
    case Negated(inner) => assert c.sql[0] == KwNot;
    case All(children) =>
      if |children| > 0 { JoinStarts(KwAnd, CompileChildren(children).value); }
    case Any(children) =>
      if |children| > 0 { JoinStarts(KwOr, CompileChildren(children).value); }
  }

  lemma {:induction false} JoinStarts(op: Token, cs: seq<Compiled>)
    requires |cs| > 0
    ensures |Join(op, cs).sql| > 0 && Join(op, cs).sql[0] == LParen
  {
    if |cs| > 1 {
      JoinStarts(op, cs[..|cs| - 1]);
    }
  }

  lemma InfixReads(a: Compiled, x: Expr, b: Compiled, y: Expr)
    requires AndChain(a, x) && ReadsAs(b, y) && Balanced(a) && Balanced(b)
    ensures ReadsAs(Infix(a, KwAnd, Parens(b)), And(x, y)) && Balanced(Infix(a, KwAnd, Parens(b)))
  {
    hide *;
    ParensBind(b, y);
    AndChainSnoc(a, x, Parens(b), y);
    AndChainReads(Infix(a, KwAnd, Parens(b)), And(x, y));
    ParensBalanced(b);
    InfixBalanced(a, KwAnd, Parens(b));
  }

  /** What the WHERE clause is read as, for a filter that is not an open disjunction. */
  function WhereSql(f: FilterExpr, policy: Expr): Expr {
    if (f.All? || f.Any?) && |f.children| == 0 then policy else And(FilterSql(f), policy)
  }

  lemma WhereReads(f: FilterExpr, rules: seq<Json>, actor: Actor)
    requires CompileFilter(f).Success? && CompilePolicies(rules, actor).Success? && !OpenOr(f)
    ensures
      var w := WhereClause(CompileFilter(f).value, CompilePolicies(rules, actor).value);
      ReadsAs(w, WhereSql(f, PoliciesExpr(rules, actor))) && Balanced(w)
  {
    hide ReadsAs, BindsAs, AndChain, Balanced, CompileFilter, CompilePolicies, Infix, PoliciesExpr, FilterSql;
    var a, b := CompileFilter(f).value, CompilePolicies(rules, actor).value;
    var x, y := FilterSql(f), PoliciesExpr(rules, actor);
    FilterReads(f);
    PoliciesRead(rules, actor);
    DroppedFilters(f);
    if a.sql == OneIsOne().sql {
      EmptyFilterParams(f);
      assert WhereClause(a, b) == Parens(b);
      ParensBind(b, y);
      BindsReads(Parens(b), y);
      ParensBalanced(b);
    } else {
      InfixReads(a, x, b, y);
    }
  }

  lemma EmptyFilterParams(f: FilterExpr)
    requires (f.All? || f.Any?) && |f.children| == 0
    ensures CompileFilter(f) == Success(OneIsOne())
  {
  }

  /** A row the policy's own text accepts. */
  predicate PolicyAccepts(rules: seq<Json>, row: Row, actor: Actor) {
    Accepts(PoliciesExpr(rules, actor), row)
  }

  /**
   The WHERE clause accepts exactly the rows that the filter and the policy both accept, for every
   filter that is not an open disjunction; its parameters are the filter's and then the policy's.
   */
  lemma WhereMeansBoth(f: FilterExpr, rules: seq<Json>, actor: Actor)
    requires CompileFilter(f).Success? && CompilePolicies(rules, actor).Success? && !OpenOr(f)
    ensures
      var filter, policy := CompileFilter(f).value, CompilePolicies(rules, actor).value;
      var w := WhereClause(filter, policy);
      var parsed := ParseWhere(w.sql, w.params);
      && Balanced(w) && w.params == filter.params + policy.params
      && parsed.Some?
      && forall row :: Accepts(parsed.value, row) <==> Means(f, row) == True && PolicyAccepts(rules, row, actor)
  {
    hide ReadsAs, Balanced, ParseWhere, CompileFilter, CompilePolicies, PoliciesExpr, FilterSql;
    WhereReads(f, rules, actor);
    var w := WhereClause(CompileFilter(f).value, CompilePolicies(rules, actor).value);
    var e := WhereSql(f, PoliciesExpr(rules, actor));
    ReadsWhole(w, e);
    forall row
      ensures Accepts(e, row) <==> Means(f, row) == True && PolicyAccepts(rules, row, actor)
    {
      FilterEval(f, row);
    }
  }

  /** Every selected row passes the evaluator of the same rules, exactly unless a boolean lets it through. */
  lemma SelectedRowsPassTheEvaluator(f: FilterExpr, rules: seq<Json>, row: Row, actor: Actor)
    requires CompileFilter(f).Success? && CompilePolicies(rules, actor).Success? && !OpenOr(f)
    ensures
      var w := WhereClause(CompileFilter(f).value, CompilePolicies(rules, actor).value);
      var parsed := ParseWhere(w.sql, w.params);
      && parsed.Some?
      && (Accepts(parsed.value, row) <==> Means(f, row) == True && PoliciesHold(rules, row, actor))
      && ((Accepts(parsed.value, row) ==> EvaluatePolicies(rules, row, actor) == Success(true))
          <==> !(Means(f, row) == True && BooleanLetsThrough(rules, row, actor)))
  {
    hide ReadsAs, Balanced, ParseWhere, CompileFilter, CompilePolicies, PoliciesExpr, Accepts, PoliciesHold,
         WhereClause, BooleanLetsThrough, NullLetsThrough, EvaluatePolicies, Means;
    WhereMeansBoth(f, rules, actor);
    PoliciesAgree(rules, row, actor);
    PoliciesRead(rules, actor);
    ReadsWhole(CompilePolicies(rules, actor).value, PoliciesExpr(rules, actor));
    assert PolicyAccepts(rules, row, actor) <==> PoliciesHold(rules, row, actor);
  }

  // ---- An open disjunction ---------------------------------------------------------------------

  /** All children but the last. */
  function Front(f: FilterExpr): seq<FilterExpr>
    requires OpenOr(f)
  {
    f.children[..|f.children| - 1]
  }

  function Last(f: FilterExpr): FilterExpr
    requires OpenOr(f)
  {
    f.children[|f.children| - 1]
  }

  /** The last disjunct takes the policy with it: AND binds tighter than OR. */
  lemma OpenOrText(front: Compiled, last: Compiled, policy: Compiled)
    requires |front.sql| > 0 && front.sql[0] == LParen
    ensures WhereClause(Infix(front, KwOr, last), policy) == Infix(front, KwOr, Infix(last, KwAnd, Parens(policy)))
  {
    var w := WhereClause(Infix(front, KwOr, last), policy);
    var v := Infix(front, KwOr, Infix(last, KwAnd, Parens(policy)));
    assert Infix(front, KwOr, last).sql[0] == LParen && OneIsOne().sql[0] == Number(1);
    assert w.sql == v.sql && w.params == v.params;
  }

  lemma OpenOrReads(f: FilterExpr, rules: seq<Json>, actor: Actor)
    requires CompileFilter(f).Success? && CompilePolicies(rules, actor).Success? && OpenOr(f)
    ensures
      var w := WhereClause(CompileFilter(f).value, CompilePolicies(rules, actor).value);
      ReadsAs(w, Or(FoldExpr(KwOr, ChildrenSql(Front(f))), And(FilterSql(Last(f)), PoliciesExpr(rules, actor))))
  {
    hide ReadsAs, BindsAs, AndChain, OrChain, Balanced, CompilePolicies, PoliciesExpr, FoldExpr, Infix,
      WhereClause, Parens;
    var cs, policy := CompileChildren(f.children).value, CompilePolicies(rules, actor).value;
    var n := |cs| - 1;
    var last, guard := FilterSql(Last(f)), PoliciesExpr(rules, actor);
    ChildrenRead(f.children);
    ChildrenRead(Front(f));
    PoliciesRead(rules, actor);
    JoinOr(cs[..n], ChildrenSql(Front(f)));
    ParensBind(cs[n], last);
    BindsAndChain(Parens(cs[n]), last);
    ParensBind(policy, guard);
    AndChainSnoc(Parens(cs[n]), last, Parens(policy), guard);
    var front, back := Join(KwOr, cs[..n]), Infix(Parens(cs[n]), KwAnd, Parens(policy));
    OrChainSnoc(front, FoldExpr(KwOr, ChildrenSql(Front(f))), back, And(last, guard));
    JoinStarts(KwOr, cs[..n]);
    JoinSnoc(KwOr, cs);
    OpenOrText(front, Parens(cs[n]), policy);
    OrChainReads(Infix(front, KwOr, back), Or(FoldExpr(KwOr, ChildrenSql(Front(f))), And(last, guard)));
  }

  lemma JoinSnoc(op: Token, cs: seq<Compiled>)
    requires |cs| > 1
    ensures Join(op, cs) == Infix(Join(op, cs[..|cs| - 1]), op, Parens(cs[|cs| - 1]))
  {
  }

  /**
   An open disjunction is joined without parentheses, so the policy guards only its last child.
   The row set is right for a row exactly when the policy accepts it or no earlier child does.
   */
  lemma OpenOrEscapesPolicy(f: FilterExpr, rules: seq<Json>, row: Row, actor: Actor)
    requires CompileFilter(f).Success? && CompilePolicies(rules, actor).Success? && OpenOr(f)
    ensures
      var w := WhereClause(CompileFilter(f).value, CompilePolicies(rules, actor).value);
      var parsed := ParseWhere(w.sql, w.params);
      var policy := PolicyAccepts(rules, row, actor);
      && parsed.Some?
      && (Accepts(parsed.value, row)
          <==> AnyMean(Front(f), row) == True || (Means(Last(f), row) == True && policy))
      && ((Accepts(parsed.value, row) <==> Means(f, row) == True && policy)
          <==> policy || AnyMean(Front(f), row) != True)
  {
    hide ReadsAs, Balanced, ParseWhere, CompileFilter, CompilePolicies, PoliciesExpr, FilterSql, FoldExpr;
    var w := WhereClause(CompileFilter(f).value, CompilePolicies(rules, actor).value);
    var front, back := FoldExpr(KwOr, ChildrenSql(Front(f))), And(FilterSql(Last(f)), PoliciesExpr(rules, actor));
    OpenOrReads(f, rules, actor);
    ReadsWhole(w, Or(front, back));
    assert Eval(Or(front, back), row) == Or3(Eval(front, row), Eval(back, row));
    assert Eval(back, row) == And3(Eval(FilterSql(Last(f)), row), Eval(PoliciesExpr(rules, actor), row));
    OpenOrChildren(f);
    ChildrenEval(Front(f), row);
    FilterEval(Last(f), row);
  }

  lemma OpenOrChildren(f: FilterExpr)
    requires CompileFilter(f).Success? && OpenOr(f)
    ensures CompileChildren(Front(f)).Success? && CompileFilter(Last(f)).Success?
  {
  }

  /** `?or=a.eq.1,b.eq.2` under a policy that allows nothing still returns rows with a = '1'. */
  lemma OpenOrCounterexample()
    ensures
      var f := Any([Condition("a", Compared(Eq), "1"), Condition("b", Compared(Eq), "2")]);
      var rules := [JObject([("allow", JBool(false))])];
      var actor := Actor(None, "user", []);
      var row := map["a" := Text("1")];
      && CompileFilter(f).Success? && CompilePolicies(rules, actor).Success?
      && var w := WhereClause(CompileFilter(f).value, CompilePolicies(rules, actor).value);
      && ParseWhere(w.sql, w.params).Some?
      && Accepts(ParseWhere(w.sql, w.params).value, row)
      && !PolicyAccepts(rules, row, actor)
  {
    var a, b := Condition("a", Compared(Eq), "1"), Condition("b", Compared(Eq), "2");
    var f := Any([a, b]);
    var allow := JObject([("allow", JBool(false))]);
    var actor := Actor(None, "user", []);
    var row := map["a" := Text("1")];
    assert [a, b][..1] == [a] && [a][..0] == [];
    assert CompileFilter(a).Success? && CompileFilter(b).Success?;
    assert CompileChildren([a]).Success?;
    assert CompileChildren([a, b]).Success?;
    assert [allow][..0] == [];
    assert Get(allow.fields, "allow") == Some(JBool(false));
    assert RuleExpr(allow, actor) == Const(false) && CompileRule(allow, actor).Success?;
    var cs := CompileRules([allow], actor);
    assert CompileRules([allow][..0], actor) == Success([]) && [allow][|[allow]| - 1] == allow;
    assert cs.Success? && |cs.value| == 1 && JoinRules(KwOr, cs).Success?;
    assert |actor.role| == 4 && |"service_role"| == 12;
    assert CompilePolicies([allow], actor).Success?;
    assert PoliciesExpr([allow], actor) == Const(false);
    assert Front(f) == [a] && AnyMean([a], row) == Or3(AnyMean([a][..0], row), Means(a, row));
    assert Means(a, row) == True;
    OpenOrEscapesPolicy(f, [allow], row, actor);
  }

  // ---- The whole SELECT ---------------------------------------------------------------------------

  datatype Direction = Asc | Desc
  datatype Nulls = NullsFirst | NullsLast | NullsDefault
  datatype OrderClause = OrderClause(column: string, direction: Direction, nulls: Nulls)
  datatype CountMode = NoCount | Exact | Planned | Estimated

  datatype SelectQuery = SelectQuery(
    filters: FilterExpr, limit: nat, offset: nat, order: seq<OrderClause>, select: seq<string>, count: CountMode)

  function Clamp(x: nat, low: nat, high: nat): nat
    requires low <= high
  {
    if x < low then low else if x > high then high else x
  }

  /** `as i64` of an unsigned 64-bit number. */
  function AsSigned(x: nat): int {
    var low := x % 0x1_0000_0000_0000_0000;
    if low < 0x8000_0000_0000_0000 then low else low - 0x1_0000_0000_0000_0000
  }

  /** `parts.join(", ")`. */
  function CommaJoin(parts: seq<seq<Token>>): seq<Token> {
    if |parts| == 0 then [] else if |parts| == 1 then parts[0] else parts[0] + [Comma] + CommaJoin(parts[1..])
  }

  predicate ValidIdents(names: seq<string>) {
    forall i :: 0 <= i < |names| ==> ValidIdent(names[i])
  }

  function ColumnParts(names: seq<string>): seq<seq<Token>> {
    seq(|names|, i requires 0 <= i < |names| => [Ident(names[i])])
  }

  function ColumnText(names: seq<string>): seq<Token> {
    if |names| == 0 then [Star] else CommaJoin(ColumnParts(names))
  }

  function OrderPart(o: OrderClause): seq<Token> {
    [Ident(o.column), if o.direction.Asc? then KwAsc else KwDesc]
    + (match o.nulls case NullsFirst => [KwNullsFirst] case NullsLast => [KwNullsLast] case NullsDefault => [])
  }

  predicate ValidOrder(order: seq<OrderClause>) {
    forall i :: 0 <= i < |order| ==> ValidIdent(order[i].column)
  }

  function OrderParts(order: seq<OrderClause>): seq<seq<Token>> {
    seq(|order|, i requires 0 <= i < |order| => OrderPart(order[i]))
  }

  function OrderText(order: seq<OrderClause>): seq<Token> {
    if |order| == 0 then [] else [KwOrderBy] + CommaJoin(OrderParts(order))
  }

  /** `compile_select_columns`. */
  method CompileColumns(names: seq<string>) returns (r: Result<seq<Token>, ParseError>)
    ensures r.Success? <==> ValidIdents(names)
    ensures r.Success? ==> r.value == ColumnText(names)
  {
    if |names| == 0 {
      return Success([Star]);
    }
    var parts: seq<seq<Token>> := [];
    for i := 0 to |names|
      invariant ValidIdents(names[..i]) && parts == ColumnParts(names[..i])
    {
      var quoted := QuoteIdent(names[i]);
      if quoted.Failure? {
        return Failure(ParseError);
      }
      parts := parts + [[quoted.value]];
    }
    assert names[..|names|] == names;
    r := Success(CommaJoin(parts));
  }

  /** `compile_order`. */
  method CompileOrder(order: seq<OrderClause>) returns (r: Result<seq<Token>, ParseError>)
    ensures r.Success? <==> ValidOrder(order)
    ensures r.Success? ==> r.value == OrderText(order)
  {
    if |order| == 0 {
      return Success([]);
    }
    var parts: seq<seq<Token>> := [];
    for i := 0 to |order|
      invariant ValidOrder(order[..i]) && parts == OrderParts(order[..i])
    {
      var column := QuoteIdent(order[i].column);
      if column.Failure? {
        return Failure(ParseError);
      }
      var nulls := match order[i].nulls
        case NullsFirst => [KwNullsFirst]
        case NullsLast => [KwNullsLast]
        case NullsDefault => [];
      parts := parts + [[column.value, if order[i].direction.Asc? then KwAsc else KwDesc] + nulls];
    }
    assert order[..|order|] == order;
    r := Success([KwOrderBy] + CommaJoin(parts));
  }

  /** What `build_select_sql` can be asked for. */
  predicate Selectable(table: string, query: SelectQuery, rules: seq<Json>, actor: Actor) {
    && ValidIdent(table) && ValidIdents(query.select) && ValidOrder(query.order)
    && CompileFilter(query.filters).Success? && CompilePolicies(rules, actor).Success?
  }

  /** `build_select_sql`: it takes the filter, the policy, the order, and then the page. */
  method BuildSelect(table: string, query: SelectQuery, rules: seq<Json>, actor: Actor)
      returns (r: Result<Compiled, ParseError>)
    ensures r.Success? <==> Selectable(table, query, rules, actor)
    ensures r.Success? ==> r.value == SelectText(table, query, rules, actor)
  {
    hide ValidIdents, ValidOrder, CompileFilter, CompilePolicies, ValidIdent, ColumnText, OrderText;
    var quoted := if ValidIdent(table) then Success(Ident(table)) else Failure(ParseError);
    if quoted.Failure? {
      return Failure(ParseError);
    }
    var columns := CompileColumns(query.select);
    if columns.Failure? {
      return Failure(ParseError);
    }
    var filter := CompileFilters(query.filters);
    if filter.Failure? {
      return Failure(filter.error);
    }
    var policy := CompileAllPolicies(rules, actor);
    if policy.Failure? {
      return Failure(ParseError);
    }
    var order := CompileOrder(query.order);
    if order.Failure? {
      return Failure(ParseError);
    }
    var limit, offset := Clamp(query.limit, 1, 1000), AsSigned(query.offset);
    var where_ := if filter.value.sql == OneIsOne().sql
      then [LParen] + policy.value.sql + [RParen]
      else filter.value.sql + [KwAnd] + ([LParen] + policy.value.sql + [RParen]);
    var sql := [KwSelect] + columns.value + [KwFrom, quoted.value, KwWhere] + where_;
    var params := filter.value.params;
    params := params + policy.value.params;
    if |order.value| > 0 {
      sql := sql + order.value;
    }
    sql := sql + [KwLimit, Param, KwOffset, Param];
    params := params + [Integer(limit)];
    params := params + [Integer(offset)];
    assert params == filter.value.params + policy.value.params + [Integer(limit), Integer(offset)];
    assert order.value == [] || sql == [KwSelect] + columns.value + [KwFrom, quoted.value, KwWhere] + where_ + order.value
                                       + [KwLimit, Param, KwOffset, Param];
    r := Success(Compiled(sql, params));
    assert r.value == SelectText(table, query, rules, actor);
  }

  const PAGE: seq<Token> := [KwLimit, Param, KwOffset, Param]

  function SelectText(table: string, query: SelectQuery, rules: seq<Json>, actor: Actor): Compiled
    requires Selectable(table, query, rules, actor)
  {
    var w := WhereClause(CompileFilter(query.filters).value, CompilePolicies(rules, actor).value);
    Compiled([KwSelect] + ColumnText(query.select) + [KwFrom, Ident(table), KwWhere] + w.sql + OrderText(query.order) + PAGE,
             w.params + [Integer(Clamp(query.limit, 1, 1000)), Integer(AsSigned(query.offset))])
  }

  // ---- Reading a SELECT back ---------------------------------------------------------------------------

  datatype Select = Select(
    columns: seq<string>, table: string, where_: Expr, order: seq<OrderClause>, limit: SqlValue, offset: SqlValue)

  function ParseNames(ts: seq<Token>): (r: Option<(seq<string>, seq<Token>)>)
    ensures r.Some? ==> |r.value.1| < |ts|
  {
    if |ts| == 0 || !ts[0].Ident? then None
    else if |ts| > 1 && ts[1] == Comma then
      match ParseNames(ts[2..])
      case None => None
      case Some(more) => Some(([ts[0].name] + more.0, more.1))
    else Some(([ts[0].name], ts[1..]))
  }

  function ParseColumns(ts: seq<Token>): Option<(seq<string>, seq<Token>)> {
    if |ts| > 0 && ts[0] == Star then Some(([], ts[1..])) else ParseNames(ts)
  }

  function ParseOrderItem(ts: seq<Token>): (r: Option<(OrderClause, seq<Token>)>)
    ensures r.Some? ==> |r.value.1| < |ts|
  {
    if |ts| < 2 || !ts[0].Ident? || (ts[1] != KwAsc && ts[1] != KwDesc) then None
    else
      var direction := if ts[1] == KwAsc then Asc else Desc;
      if |ts| > 2 && ts[2] == KwNullsFirst then Some((OrderClause(ts[0].name, direction, NullsFirst), ts[3..]))
      else if |ts| > 2 && ts[2] == KwNullsLast then Some((OrderClause(ts[0].name, direction, NullsLast), ts[3..]))
      else Some((OrderClause(ts[0].name, direction, NullsDefault), ts[2..]))
  }

  function ParseOrderItems(ts: seq<Token>): Option<(seq<OrderClause>, seq<Token>)> {
    match ParseOrderItem(ts)
    case None => None
    case Some(item) =>
      if |item.1| > 0 && item.1[0] == Comma then
        match ParseOrderItems(item.1[1..])
        case None => None
        case Some(more) => Some(([item.0] + more.0, more.1))
      else Some(([item.0], item.1))
  }

  function ParseOrderBy(ts: seq<Token>): Option<(seq<OrderClause>, seq<Token>)> {
    if |ts| > 0 && ts[0] == KwOrderBy then ParseOrderItems(ts[1..]) else Some(([], ts))
  }

  /** A whole statement: nothing may be left, neither text nor parameters. */
  function ParseSelect(ts: seq<Token>, ps: seq<SqlValue>): Option<Select> {
    if |ts| == 0 || ts[0] != KwSelect then None
    else
      match ParseColumns(ts[1..])
      case None => None
      case Some(columns) =>
        var from := columns.1;
        if |from| < 3 || from[0] != KwFrom || !from[1].Ident? || from[2] != KwWhere then None
        else
          match ParseOr(from[3..], ps)
          case None => None
          case Some(p) =>
            match ParseOrderBy(p.rest)
            case None => None
            case Some(order) =>
              if order.1 == PAGE && |p.params| == 2 then
                Some(Select(columns.0, from[1].name, p.expr, order.0, p.params[0], p.params[1]))
              else None
  }

  lemma {:induction false} NamesParse(names: seq<string>, rest: seq<Token>)
    requires |names| > 0 && (|rest| > 0 ==> rest[0] != Comma)
    ensures ParseNames(CommaJoin(ColumnParts(names)) + rest) == Some((names, rest))
  {
    var ts := CommaJoin(ColumnParts(names)) + rest;
    if |names| == 1 {
      assert ts[1..] == rest && [names[0]] == names;
    } else {
      NamesParse(names[1..], rest);
      assert ColumnParts(names)[1..] == ColumnParts(names[1..]);
      assert ts[2..] == CommaJoin(ColumnParts(names[1..])) + rest;
      assert [names[0]] + names[1..] == names;
    }
  }

  lemma ColumnsParse(names: seq<string>, rest: seq<Token>)
    requires |rest| > 0 ==> rest[0] != Comma
    ensures ParseColumns(ColumnText(names) + rest) == Some((names, rest))
  {
    if |names| == 0 {
      assert ([Star] + rest)[1..] == rest;
    } else {
      NamesParse(names, rest);
      assert (CommaJoin(ColumnParts(names)) + rest)[0] == Ident(names[0]);
    }
  }

  lemma ItemParses(o: OrderClause, rest: seq<Token>)
    requires |rest| > 0 ==> rest[0] != KwNullsFirst && rest[0] != KwNullsLast
    ensures ParseOrderItem(OrderPart(o) + rest) == Some((o, rest))
  {
    var ts := OrderPart(o) + rest;
    assert ts[|OrderPart(o)|..] == rest;
  }

  lemma {:induction false} ItemsParse(order: seq<OrderClause>, rest: seq<Token>)
    requires |order| > 0 && |rest| > 0 && rest[0] == KwLimit
    ensures ParseOrderItems(CommaJoin(OrderParts(order)) + rest) == Some((order, rest))
  {
    hide OrderPart, ParseOrderItem;
    var ts := CommaJoin(OrderParts(order)) + rest;
    if |order| == 1 {
      ItemParses(order[0], rest);
      assert [order[0]] == order;
    } else {
      assert OrderParts(order)[1..] == OrderParts(order[1..]);
      var more := [Comma] + (CommaJoin(OrderParts(order[1..])) + rest);
      assert ts == OrderPart(order[0]) + more;
      ItemParses(order[0], more);
      assert more[1..] == CommaJoin(OrderParts(order[1..])) + rest;
      ItemsParse(order[1..], rest);
      assert [order[0]] + order[1..] == order;
    }
  }

  lemma OrderParses(order: seq<OrderClause>, rest: seq<Token>)
    requires |rest| > 0 && rest[0] == KwLimit
    ensures ParseOrderBy(OrderText(order) + rest) == Some((order, rest))
    ensures Closes(OrderText(order) + rest)
  {
    hide ParseOrderItems, OrderParts, CommaJoin;
    var ts := OrderText(order) + rest;
    if |order| == 0 {
      assert ts == rest;
    } else {
      ItemsParse(order, rest);
      assert ts[1..] == CommaJoin(OrderParts(order)) + rest;
    }
  }

  lemma {:induction false} NoParamsJoined(parts: seq<seq<Token>>)
    requires forall i :: 0 <= i < |parts| ==> Param !in parts[i]
    ensures Param !in CommaJoin(parts)
  {
    if |parts| > 1 {
      NoParamsJoined(parts[1..]);
    }
  }

  /** As many `?` as parameters: only the condition and the page have any. */
  lemma SelectBalanced(table: string, query: SelectQuery, w: Compiled)
    requires Balanced(w)
    ensures
      var head := [KwSelect] + ColumnText(query.select) + [KwFrom, Ident(table), KwWhere];
      CountParams(head + w.sql + OrderText(query.order) + PAGE) == |w.params| + 2
  {
    hide CommaJoin;
    var head := [KwSelect] + ColumnText(query.select) + [KwFrom, Ident(table), KwWhere];
    NoParamsJoined(ColumnParts(query.select));
    NoParamsJoined(OrderParts(query.order));
    NoParams(head);
    NoParams(OrderText(query.order));
    CountConcat(head, w.sql);
    CountConcat(head + w.sql, OrderText(query.order));
    CountConcat(head + w.sql + OrderText(query.order), PAGE);
    assert PAGE == [KwLimit, Param, KwOffset] + [Param];
    CountConcat([KwLimit, Param, KwOffset], [Param]);
    CountThree([KwLimit, Param, KwOffset]);
    CountOne(KwLimit);
    CountOne(KwOffset);
    CountOne(Param);
  }

  /**
   The whole statement read back: the columns, the table, the order and the page it was asked for,
   and a condition that accepts exactly what filter and policy both accept; the parameters are
   the filter's, the policy's, the limit clamped to 1..1000 and the offset.
   */
  lemma SelectBinds(table: string, query: SelectQuery, rules: seq<Json>, actor: Actor)
    requires Selectable(table, query, rules, actor) && !OpenOr(query.filters)
    ensures
      var text := SelectText(table, query, rules, actor);
      var parsed := ParseSelect(text.sql, text.params);
      && Balanced(text) && parsed.Some?
      && parsed.value.columns == query.select && parsed.value.table == table && parsed.value.order == query.order
      && parsed.value.limit == Integer(Clamp(query.limit, 1, 1000))
      && parsed.value.offset == Integer(AsSigned(query.offset))
      && forall row :: Accepts(parsed.value.where_, row)
                       <==> Means(query.filters, row) == True && PolicyAccepts(rules, row, actor)
  {
    hide CompileFilter, CompilePolicies, PoliciesExpr, FilterSql, WhereClause, Clamp, AsSigned, ColumnText, OrderText,
      ParseColumns, ParseOrderBy, ValidIdents, ValidOrder, ValidIdent;
    var w := WhereClause(CompileFilter(query.filters).value, CompilePolicies(rules, actor).value);
    var e := WhereSql(query.filters, PoliciesExpr(rules, actor));
    var page := [Integer(Clamp(query.limit, 1, 1000)), Integer(AsSigned(query.offset))];
    var text := SelectText(table, query, rules, actor);
    WhereReads(query.filters, rules, actor);
    SelectBalanced(table, query, w);
    var tail := OrderText(query.order) + PAGE;
    OrderParses(query.order, PAGE);
    assert ParseOr(w.sql + tail, w.params + page) == Some(Parsed(e, tail, page));
    var from := [KwFrom, Ident(table), KwWhere] + (w.sql + tail);
    ColumnsParse(query.select, from);
    assert text.sql[1..] == ColumnText(query.select) + from;
    assert from[3..] == w.sql + tail;
    forall row
      ensures Accepts(e, row) <==> Means(query.filters, row) == True && PolicyAccepts(rules, row, actor)
    {
      FilterEval(query.filters, row);
    }
  }

  // ---- The page, in numbers -----------------------------------------------------------------

  /** At least one row, at most a thousand, and anything between as it was asked for; offsets below 2^63 as they are. */
  lemma PageInPlain(limit: nat, offset: nat)
    ensures
      var n := Clamp(limit, 1, 1000);
      1 <= n <= 1000 && (1 <= limit <= 1000 ==> n == limit) && (limit == 0 ==> n == 1) && (limit > 1000 ==> n == 1000)
    ensures offset < 0x8000_0000_0000_0000 ==> AsSigned(offset) == offset
    ensures 0x8000_0000_0000_0000 <= offset < 0x1_0000_0000_0000_0000 ==> AsSigned(offset) == offset - 0x1_0000_0000_0000_0000
  {
  }
}
