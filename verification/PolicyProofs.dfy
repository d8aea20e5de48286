/** The compiled policy and the evaluator: exactly when one lets through what the other refuses. */
module PolicyProofs {
  import opened Wrappers
  import opened Sql
  import opened Policy

  // ---- Loops of the compiler ------------------------------------------------

  /** `join`: every clause in parentheses, every parameter in order. */
  method JoinClauses(op: Token, compiled: seq<Compiled>) returns (r: Result<Compiled, PolicyError>)
    requires op == KwAnd || op == KwOr
    ensures r == JoinRules(op, Success(compiled))
  {
    if |compiled| == 0 {
      return Failure(PolicyError);
    }
    var sql, params := [], [];
    for i := 0 to |compiled|
      invariant i == 0 ==> sql == [] && params == []
      invariant i > 0 ==> Compiled(sql, params) == Join(op, compiled[..i])
    {
      assert compiled[..i + 1][..i] == compiled[..i];
      var clause := Parens(compiled[i]);
      sql := if i == 0 then clause.sql else sql + [op] + clause.sql;
      params := params + clause.params;
    }
    assert compiled[..|compiled|] == compiled;
    return Success(Compiled(sql, params));
  }

  /** `compile_policies`: one clause per rule, joined by OR. */
  method CompileAllPolicies(rules: seq<Json>, actor: Actor) returns (r: Result<Compiled, PolicyError>)
    ensures r == CompilePolicies(rules, actor)
  {
    if actor.role == "service_role" || |rules| == 0 {
      return Success(OneIsOne());
    }
    var clauses: seq<Compiled> := [];
    for i := 0 to |rules|
      invariant |clauses| == i
      invariant CompileRules(rules[..i], actor) == Success(clauses)
    {
      assert rules[..i + 1][..i] == rules[..i];
      var c := CompileRule(rules[i], actor);
      if c.Failure? {
        FailureStays(rules, i + 1, actor);
        assert c.error == PolicyError == CompileRules(rules, actor).error;
        return Failure(c.error);
      }
      clauses := clauses + [c.value];
    }
    assert rules[..|rules|] == rules;
    r := JoinClauses(KwOr, clauses);
  }

  lemma {:induction false} FailureStays(rules: seq<Json>, n: nat, actor: Actor)
    requires n <= |rules| && CompileRules(rules[..n], actor).Failure?
    ensures CompileRules(rules, actor).Failure?
    decreases |rules| - n
  {
    if n == |rules| {
      assert rules[..n] == rules;
    } else {
      assert rules[..n + 1][..n] == rules[..n];
      FailureStays(rules, n + 1, actor);
    }
  }

  // ---- What a compiled rule says -----------------------------------------------

  function EqualsExpr(column: string, value: Json): Expr {
    match ToSqlValue(value) case None => Const(false) case Some(v) => Cmp(column, Eq, v)
  }

  function TestExpr(obj: seq<(string, Json)>, actor: Actor): Expr {
    var column := GetText(obj, "column");
    if column.None? then Const(false)
    else
      var equalsClaim, inClaim, equals := GetText(obj, "equals_claim"), GetText(obj, "in_claim"), Get(obj, "equals");
      if equalsClaim.Some? then EqualsExpr(column.value, ActorClaim(actor, equalsClaim.value))
      else if inClaim.Some? then
        var claim := ActorClaim(actor, inClaim.value);
        var values := if claim.JArray? then ToSqlValues(claim.items) else [];
        if |values| == 0 then Const(false) else In(column.value, values)
      else if equals.Some? then EqualsExpr(column.value, equals.value)
      else Const(false)
  }

  /** The expression a rule's text stands for. */
  function RuleExpr(rule: Json, actor: Actor): Expr
    decreases rule, 1
  {
    if !rule.JObject? then Const(false)
    else
      var obj := rule.fields;
      var allow, roles := GetBool(obj, "allow"), GetArray(obj, "role_in");
      var all, any := GetArray(obj, "and"), GetArray(obj, "or");
      if allow.Some? then Const(allow.value)
      else if roles.Some? then Const(RoleListed(roles.value, actor.role))
      else if all.Some? then (if |all.value| == 0 then Const(false) else FoldExpr(KwAnd, RuleExprs(all.value, actor)))
      else if any.Some? then (if |any.value| == 0 then Const(false) else FoldExpr(KwOr, RuleExprs(any.value, actor)))
      else TestExpr(obj, actor)
  }

  function RuleExprs(rules: seq<Json>, actor: Actor): (es: seq<Expr>)
    ensures |es| == |rules|
    decreases rules, 0
  {
    if |rules| == 0 then []
    else RuleExprs(rules[..|rules| - 1], actor) + [RuleExpr(rules[|rules| - 1], actor)]
  }

  lemma ConstReads(b: bool)
    ensures
      var c := if b then OneIsOne() else ZeroIsOne();
      BindsAs(c, Const(b)) && ReadsAs(c, Const(b)) && Balanced(c)
  {
    var c := if b then OneIsOne() else ZeroIsOne();
    forall rest: seq<Token>, ps: seq<SqlValue>
      ensures ParseNot(c.sql + rest, c.params + ps) == Some(Parsed(Const(b), rest, ps))
    {
      assert (c.sql + rest)[3..] == rest && c.params + ps == ps;
    }
    BindsReads(c, Const(b));
    CountThree(c.sql);
  }

  lemma CountThree(ts: seq<Token>)
    requires |ts| == 3
    ensures CountParams(ts) == CountParams([ts[0]]) + CountParams([ts[1]]) + CountParams([ts[2]])
  {
    CountConcat([ts[0]], [ts[1]]);
    CountConcat([ts[0]] + [ts[1]], [ts[2]]);
    assert [ts[0]] + [ts[1]] + [ts[2]] == ts;
    CountOne(ts[0]);
    CountOne(ts[1]);
    CountOne(ts[2]);
  }

  lemma EqualsReads(column: string, value: Json)
    ensures
      var c := EqualsClause(Ident(column), value);
      BindsAs(c, EqualsExpr(column, value)) && Balanced(c)
  {
    var c := EqualsClause(Ident(column), value);
    match ToSqlValue(value)
    case None => ConstReads(false);
    case Some(v) =>
      ColumnTestReads(column, Op(Eq), v);
  }

  /** A column, one comparison token, one parameter. */
  lemma ColumnTestReads(column: string, op: Token, v: SqlValue)
    requires op.Op? || op == KwLike
    ensures
      var c := Compiled([Ident(column), op, Param], [v]);
      BindsAs(c, if op.Op? then Cmp(column, op.op, v) else LikeTest(column, v)) && Balanced(c)
  {
    var c := Compiled([Ident(column), op, Param], [v]);
    var e := if op.Op? then Cmp(column, op.op, v) else LikeTest(column, v);
    forall rest: seq<Token>, ps: seq<SqlValue> | |rest| > 0 ==> rest[0] != KwCollateNocase
      ensures ParseNot(c.sql + rest, c.params + ps) == Some(Parsed(e, rest, ps))
    {
      var ts := c.sql + rest;
      assert ts[1..] == [op, Param] + rest && ts[1..][2..] == rest && (c.params + ps)[1..] == ps;
      assert ParseColumnTest(column, ts[1..], c.params + ps) == Some(Parsed(e, rest, ps));
    }
    CountThree(c.sql);
    CountOne(Ident(column));
    CountOne(op);
    CountOne(Param);
  }

  lemma {:induction false} PlaceholdersParse(values: seq<SqlValue>, rest: seq<Token>, ps: seq<SqlValue>)
    requires |values| > 0
    ensures ParseParams(Placeholders(|values|) + ([RParen] + rest), values + ps) == Some((values, rest, ps))
  {
    var ts := Placeholders(|values|) + ([RParen] + rest);
    if |values| == 1 {
      assert ts[2..] == rest && (values + ps)[1..] == ps && [values[0]] == values;
    } else {
      PlaceholdersParse(values[1..], rest, ps);
      assert ts[2..] == Placeholders(|values| - 1) + ([RParen] + rest);
      assert (values + ps)[1..] == values[1..] + ps;
      assert [values[0]] + values[1..] == values;
    }
  }

  lemma {:induction false} PlaceholdersCount(n: nat)
    ensures CountParams(Placeholders(n)) == n
  {
    if n == 1 {
      CountOne(Param);
    } else if n > 1 {
      PlaceholdersCount(n - 1);
      CountConcat([Param, Comma], Placeholders(n - 1));
      CountConcat([Param], [Comma]);
      CountOne(Param);
      CountOne(Comma);
      assert [Param] + [Comma] == [Param, Comma];
    }
  }

  lemma InReads(column: string, values: seq<SqlValue>)
    requires |values| > 0
    ensures
      var c := InClause(Ident(column), values);
      BindsAs(c, In(column, values)) && Balanced(c)
  {
    var c := InClause(Ident(column), values);
    var list := Placeholders(|values|);
    forall rest: seq<Token>, ps: seq<SqlValue>
      ensures ParseNot(c.sql + rest, c.params + ps) == Some(Parsed(In(column, values), rest, ps))
    {
      var ts := c.sql + rest;
      PlaceholdersParse(values, rest, ps);
      assert ts == [Ident(column), KwIn, LParen] + (list + ([RParen] + rest));
      assert ts[1..][2..] == list + ([RParen] + rest);
      assert ParseColumnTest(column, ts[1..], c.params + ps) == Some(Parsed(In(column, values), rest, ps));
    }
    PlaceholdersCount(|values|);
    CountThree([Ident(column), KwIn, LParen]);
    CountOne(Ident(column));
    CountOne(KwIn);
    CountOne(LParen);
    CountOne(RParen);
    CountConcat([Ident(column), KwIn, LParen], list);
    CountConcat([Ident(column), KwIn, LParen] + list, [RParen]);
  }

  lemma TestReads(obj: seq<(string, Json)>, actor: Actor)
    requires CompileTest(obj, actor).Success?
    ensures ReadsAs(CompileTest(obj, actor).value, TestExpr(obj, actor)) && Balanced(CompileTest(obj, actor).value)
  {
    hide BindsAs, ReadsAs, Balanced, InClause, EqualsClause, OneIsOne, ZeroIsOne, EqualsExpr;
    var column := GetText(obj, "column").value;
    var equalsClaim, inClaim, equals := GetText(obj, "equals_claim"), GetText(obj, "in_claim"), Get(obj, "equals");
    if equalsClaim.Some? {
      EqualsReads(column, ActorClaim(actor, equalsClaim.value));
    } else if inClaim.Some? {
      var claim := ActorClaim(actor, inClaim.value);
      var values := if claim.JArray? then ToSqlValues(claim.items) else [];
      if |values| == 0 {
        ConstReads(false);
      } else {
        InReads(column, values);
      }
    } else {
      EqualsReads(column, equals.value);
    }
    if !(equalsClaim.None? && inClaim.Some? && TestExpr(obj, actor) == Const(false)) {
      BindsReads(CompileTest(obj, actor).value, TestExpr(obj, actor));
    }
  }

  /** A compiled rule's text reads as its expression, with as many `?` as parameters. */
  lemma {:induction false} RuleReads(rule: Json, actor: Actor)
    requires CompileRule(rule, actor).Success?
    ensures ReadsAs(CompileRule(rule, actor).value, RuleExpr(rule, actor))
    ensures Balanced(CompileRule(rule, actor).value)
    decreases rule, 1
  {
    hide BindsAs, ReadsAs, Balanced, AndChain, OrChain, CompileTest, TestExpr;
    var obj := rule.fields;
    var allow, roles := GetBool(obj, "allow"), GetArray(obj, "role_in");
    var all, any := GetArray(obj, "and"), GetArray(obj, "or");
    if allow.Some? {
      ConstReads(allow.value);
    } else if roles.Some? {
      ConstReads(RoleListed(roles.value, actor.role));
    } else if all.Some? {
      var cs, es := CompileRules(all.value, actor).value, RuleExprs(all.value, actor);
      RulesRead(all.value, actor);
      JoinAnd(cs, es);
      AndChainReads(Join(KwAnd, cs), FoldExpr(KwAnd, es));
      JoinBalanced(KwAnd, cs);
    } else if any.Some? {
      var cs, es := CompileRules(any.value, actor).value, RuleExprs(any.value, actor);
      RulesRead(any.value, actor);
      JoinOr(cs, es);
      OrChainReads(Join(KwOr, cs), FoldExpr(KwOr, es));
      JoinBalanced(KwOr, cs);
    } else {
      TestReads(obj, actor);
    }
  }

  lemma {:induction false} RulesRead(rules: seq<Json>, actor: Actor)
    requires CompileRules(rules, actor).Success?
    ensures AllRead(CompileRules(rules, actor).value, RuleExprs(rules, actor))
    ensures forall i :: 0 <= i < |rules| ==> Balanced(CompileRules(rules, actor).value[i])
    decreases rules, 0
  {
    hide ReadsAs, Balanced, CompileRule, RuleExpr;
    if |rules| > 0 {
      RulesRead(rules[..|rules| - 1], actor);
      RuleReads(rules[|rules| - 1], actor);
    }
  }

  // ---- The two verdicts ---------------------------------------------------------------

  predicate Accepts(e: Expr, row: Row) {
    Eval(e, row) == True
  }

  lemma {:induction false} FoldAndAccepts(es: seq<Expr>, row: Row)
    requires |es| > 0
    ensures Accepts(FoldExpr(KwAnd, es), row) <==> forall i :: 0 <= i < |es| ==> Accepts(es[i], row)
  {
    var n := |es| - 1;
    if n > 0 {
      FoldAndAccepts(es[..n], row);
      assert forall i :: 0 <= i < n ==> es[..n][i] == es[i];
    }
  }

  lemma {:induction false} FoldOrAccepts(es: seq<Expr>, row: Row)
    requires |es| > 0
    ensures Accepts(FoldExpr(KwOr, es), row) <==> exists i :: 0 <= i < |es| && Accepts(es[i], row)
  {
    var n := |es| - 1;
    if n > 0 {
      FoldOrAccepts(es[..n], row);
      assert forall i :: 0 <= i < n ==> es[..n][i] == es[i];
    }
  }

  /** The JSON values a column test compares the column with. */
  function TestValues(obj: seq<(string, Json)>, actor: Actor): seq<Json> {
    var equalsClaim, inClaim, equals := GetText(obj, "equals_claim"), GetText(obj, "in_claim"), Get(obj, "equals");
    if equalsClaim.Some? then [ActorClaim(actor, equalsClaim.value)]
    else if inClaim.Some? then
      var claim := ActorClaim(actor, inClaim.value);
      if claim.JArray? then claim.items else []
    else if equals.Some? then [equals.value]
    else []
  }

  /** Some value the test compares with is, converted to SQL, the column's value, and that is not null. */
  predicate TestHolds(obj: seq<(string, Json)>, row: Row, actor: Actor) {
    var column := GetText(obj, "column");
    column.Some? && Matches(Column(row, column.value), TestValues(obj, actor))
  }

  predicate Matches(v: SqlValue, items: seq<Json>) {
    v != Null && exists i :: 0 <= i < |items| && ToSqlValue(items[i]) == Some(v)
  }

  /** The column is NULL and the rule compares it with a null: equal in JSON, unknown in SQL. */
  predicate NullMeetsNull(obj: seq<(string, Json)>, row: Row, actor: Actor) {
    var column := GetText(obj, "column");
    column.Some? && Column(row, column.value).Null? && JNull in TestValues(obj, actor)
  }

  /** The column is 1 or 0 and the rule compares it with that boolean but not that number: equal in SQL only. */
  predicate BooleanMeetsInteger(obj: seq<(string, Json)>, row: Row, actor: Actor) {
    var column, values := GetText(obj, "column"), TestValues(obj, actor);
    column.Some? &&
      var v := Column(row, column.value);
      || (v == Integer(1) && JBool(true) in values && JNumber(1) !in values)
      || (v == Integer(0) && JBool(false) in values && JNumber(0) !in values)
  }

  lemma {:induction false} InAccepts(v: SqlValue, items: seq<Json>)
    ensures InList(v, ToSqlValues(items)) == True <==> Matches(v, items)
  {
    hide ToSqlValue, Compare, Matches;
    if |items| == 0 {
      NothingMatches(v);
    } else {
      var n := |items| - 1;
      InAccepts(v, items[..n]);
      MatchesSnoc(v, items[..n], items[n]);
      assert items == items[..n] + [items[n]];
      var all, front := ToSqlValues(items), ToSqlValues(items[..n]);
      match ToSqlValue(items[n])
      case None =>
        assert all == front;
      case Some(last) =>
        assert all == front + [last] && all[..|all| - 1] == front && all[|all| - 1] == last;
        EqualInSql(v, last);
    }
  }

  lemma NothingMatches(v: SqlValue)
    ensures !Matches(v, [])
  {
  }

  lemma EqualInSql(v: SqlValue, w: SqlValue)
    ensures Compare(Eq, v, w) == True <==> v != Null && v == w
  {
  }

  lemma MatchesSnoc(v: SqlValue, items: seq<Json>, item: Json)
    ensures Matches(v, items + [item]) <==> Matches(v, items) || (v != Null && ToSqlValue(item) == Some(v))
  {
    hide ToSqlValue;
    var all := items + [item];
    assert all[|items|] == item && forall i :: 0 <= i < |items| ==> all[i] == items[i];
  }

  lemma EqualsAccepts(column: string, value: Json, row: Row)
    ensures Accepts(EqualsExpr(column, value), row) <==> Matches(Column(row, column), [value])
  {
    assert Matches(Column(row, column), [value]) <==>
      Column(row, column) != Null && ToSqlValue([value][0]) == Some(Column(row, column));
  }

  /** Where a match in SQL and membership in JSON part. */
  lemma MatchAndMembership(v: SqlValue, items: seq<Json>)
    ensures Matches(v, items) && ToJson(v) !in items <==>
              || (v == Integer(1) && JBool(true) in items && JNumber(1) !in items)
              || (v == Integer(0) && JBool(false) in items && JNumber(0) !in items)
    ensures ToJson(v) in items && !Matches(v, items) <==> v.Null? && JNull in items
  {
    if Matches(v, items) {
      var i :| 0 <= i < |items| && ToSqlValue(items[i]) == Some(v);
      assert items[i] in items && (items[i] == ToJson(v) || items[i].JBool?);
    }
    if ToJson(v) in items {
      var i :| 0 <= i < |items| && items[i] == ToJson(v);
      assert ToSqlValue(items[i]) == Some(v);
    }
    if v == Integer(1) && JBool(true) in items {
      var i :| 0 <= i < |items| && items[i] == JBool(true);
      assert ToSqlValue(items[i]) == Some(v);
    }
    if v == Integer(0) && JBool(false) in items {
      var i :| 0 <= i < |items| && items[i] == JBool(false);
      assert ToSqlValue(items[i]) == Some(v);
    }
  }

  /**
   One column test. SQL alone accepts exactly when a boolean meets an integer, the evaluator
   alone exactly when null meets null.
   */
  lemma TestVerdicts(obj: seq<(string, Json)>, row: Row, actor: Actor)
    requires CompileTest(obj, actor).Success?
    ensures EvaluateTest(obj, row, actor).Success?
    ensures Accepts(TestExpr(obj, actor), row) <==> TestHolds(obj, row, actor)
    ensures TestHolds(obj, row, actor) && !EvaluateTest(obj, row, actor).value <==> BooleanMeetsInteger(obj, row, actor)
    ensures EvaluateTest(obj, row, actor).value && !TestHolds(obj, row, actor) <==> NullMeetsNull(obj, row, actor)
  {
    hide LikeMatch, Less, ValidIdent, Matches, ToSqlValue, ToJson;
    var column := GetText(obj, "column").value;
    var v := Column(row, column);
    var equalsClaim, inClaim, equals := GetText(obj, "equals_claim"), GetText(obj, "in_claim"), Get(obj, "equals");
    var values := TestValues(obj, actor);
    assert Accepts(TestExpr(obj, actor), row) <==> Matches(v, values) by {
      if equalsClaim.Some? {
        EqualsAccepts(column, values[0], row);
      } else if inClaim.Some? {
        InAccepts(v, values);
      } else {
        EqualsAccepts(column, values[0], row);
      }
    }
    assert EvaluateTest(obj, row, actor).Success? && (EvaluateTest(obj, row, actor).value <==> ToJson(v) in values);
    MatchAndMembership(v, values);
  }

  // ---- Whole rules ----------------------------------------------------------------------

  /** The rule as SQL takes it: each test by the SQL value of what it compares with. */
  predicate Holds(rule: Json, row: Row, actor: Actor)
    decreases rule, 1
  {
    rule.JObject? &&
      var obj := rule.fields;
      var allow, roles := GetBool(obj, "allow"), GetArray(obj, "role_in");
      var all, any := GetArray(obj, "and"), GetArray(obj, "or");
      if allow.Some? then allow.value
      else if roles.Some? then RoleListed(roles.value, actor.role)
      else if all.Some? then HoldsAll(all.value, row, actor)
      else if any.Some? then HoldsAny(any.value, row, actor)
      else TestHolds(obj, row, actor)
  }

  predicate HoldsAll(rules: seq<Json>, row: Row, actor: Actor)
    decreases rules, 0
  {
    |rules| > 0 ==> HoldsAll(rules[..|rules| - 1], row, actor) && Holds(rules[|rules| - 1], row, actor)
  }

  predicate HoldsAny(rules: seq<Json>, row: Row, actor: Actor)
    decreases rules, 0
  {
    |rules| > 0 && (HoldsAny(rules[..|rules| - 1], row, actor) || Holds(rules[|rules| - 1], row, actor))
  }

  /**
   A boolean that meets an integer somewhere decides the rule: it is not undone by a sibling that
   fails under AND or that the evaluator accepts under OR.
   */
  predicate BooleanDecides(rule: Json, row: Row, actor: Actor)
    decreases rule, 1
  {
    rule.JObject? &&
      var obj := rule.fields;
      var all, any := GetArray(obj, "and"), GetArray(obj, "or");
      if GetBool(obj, "allow").Some? || GetArray(obj, "role_in").Some? then false
      else if all.Some? then BooleanDecidesOne(all.value, row, actor) && HoldsAll(all.value, row, actor)
      else if any.Some? then BooleanDecidesOne(any.value, row, actor) && EvaluateAny(any.value, row, actor) == Success(false)
      else BooleanMeetsInteger(obj, row, actor)
  }

  predicate BooleanDecidesOne(rules: seq<Json>, row: Row, actor: Actor)
    decreases rules, 0
  {
    |rules| > 0 &&
      (BooleanDecidesOne(rules[..|rules| - 1], row, actor) || BooleanDecides(rules[|rules| - 1], row, actor))
  }

  /** The same for a null that meets a null. */
  predicate NullDecides(rule: Json, row: Row, actor: Actor)
    decreases rule, 1
  {
    rule.JObject? &&
      var obj := rule.fields;
      var all, any := GetArray(obj, "and"), GetArray(obj, "or");
      if GetBool(obj, "allow").Some? || GetArray(obj, "role_in").Some? then false
      else if all.Some? then NullDecidesOne(all.value, row, actor) && EvaluateAll(all.value, row, actor) == Success(true)
      else if any.Some? then NullDecidesOne(any.value, row, actor) && !HoldsAny(any.value, row, actor)
      else NullMeetsNull(obj, row, actor)
  }

  predicate NullDecidesOne(rules: seq<Json>, row: Row, actor: Actor)
    decreases rules, 0
  {
    |rules| > 0 && (NullDecidesOne(rules[..|rules| - 1], row, actor) || NullDecides(rules[|rules| - 1], row, actor))
  }

  /**
   A compiled rule never fails in the evaluator. SQL alone accepts the row exactly when a boolean
   that meets an integer decides the rule, and the evaluator alone exactly when a null that
   meets a null does.
   */
  lemma {:induction false} RuleVerdicts(rule: Json, row: Row, actor: Actor)
    requires CompileRule(rule, actor).Success?
    ensures EvaluateRule(rule, row, actor).Success?
    ensures Accepts(RuleExpr(rule, actor), row) <==> Holds(rule, row, actor)
    ensures Holds(rule, row, actor) && !EvaluateRule(rule, row, actor).value <==> BooleanDecides(rule, row, actor)
    ensures EvaluateRule(rule, row, actor).value && !Holds(rule, row, actor) <==> NullDecides(rule, row, actor)
    decreases rule, 1
  {
    hide CompileTest, TestExpr, EvaluateTest, NullMeetsNull, BooleanMeetsInteger, TestHolds, Join;
    var obj := rule.fields;
    var all, any := GetArray(obj, "and"), GetArray(obj, "or");
    if GetBool(obj, "allow").Some? || GetArray(obj, "role_in").Some? {
    } else if all.Some? {
      AllVerdicts(all.value, row, actor);
      FoldAndAccepts(RuleExprs(all.value, actor), row);
    } else if any.Some? {
      AnyVerdicts(any.value, row, actor);
      FoldOrAccepts(RuleExprs(any.value, actor), row);
    } else {
      TestVerdicts(obj, row, actor);
    }
  }

  predicate AllAccept(es: seq<Expr>, row: Row) {
    forall i :: 0 <= i < |es| ==> Accepts(es[i], row)
  }

  predicate SomeAccept(es: seq<Expr>, row: Row) {
    exists i :: 0 <= i < |es| && Accepts(es[i], row)
  }

  lemma {:induction false} AllVerdicts(rules: seq<Json>, row: Row, actor: Actor)
    requires CompileRules(rules, actor).Success?
    ensures EvaluateAll(rules, row, actor).Success?
    ensures AllAccept(RuleExprs(rules, actor), row) <==> HoldsAll(rules, row, actor)
    ensures HoldsAll(rules, row, actor) ==>
              (EvaluateAll(rules, row, actor).value <==> !BooleanDecidesOne(rules, row, actor))
    ensures EvaluateAll(rules, row, actor).value ==>
              (HoldsAll(rules, row, actor) <==> !NullDecidesOne(rules, row, actor))
    decreases rules, 0
  {
    hide CompileRule, RuleExpr, EvaluateRule, Holds, BooleanDecides, NullDecides, Accepts;
    if |rules| > 0 {
      var front, last := rules[..|rules| - 1], rules[|rules| - 1];
      AllVerdicts(front, row, actor);
      RuleVerdicts(last, row, actor);
      AllSnoc(RuleExprs(front, actor), RuleExpr(last, actor), row);
    }
  }

  lemma {:induction false} AnyVerdicts(rules: seq<Json>, row: Row, actor: Actor)
    requires CompileRules(rules, actor).Success?
    ensures EvaluateAny(rules, row, actor).Success?
    ensures SomeAccept(RuleExprs(rules, actor), row) <==> HoldsAny(rules, row, actor)
    ensures !EvaluateAny(rules, row, actor).value ==>
              (HoldsAny(rules, row, actor) <==> BooleanDecidesOne(rules, row, actor))
    ensures !HoldsAny(rules, row, actor) ==>
              (EvaluateAny(rules, row, actor).value <==> NullDecidesOne(rules, row, actor))
    decreases rules, 0
  {
    hide CompileRule, RuleExpr, EvaluateRule, Holds, BooleanDecides, NullDecides, Accepts;
    if |rules| > 0 {
      var front, last := rules[..|rules| - 1], rules[|rules| - 1];
      AnyVerdicts(front, row, actor);
      RuleVerdicts(last, row, actor);
      AllSnoc(RuleExprs(front, actor), RuleExpr(last, actor), row);
    }
  }

  lemma AllSnoc(es: seq<Expr>, e: Expr, row: Row)
    ensures AllAccept(es + [e], row) <==> AllAccept(es, row) && Accepts(e, row)
    ensures SomeAccept(es + [e], row) <==> SomeAccept(es, row) || Accepts(e, row)
  {
    hide Accepts;
    var all := es + [e];
    assert all[|es|] == e;
    assert forall i :: 0 <= i < |es| ==> all[i] == es[i];
  }

  /** The expression of a whole policy. */
  function PoliciesExpr(rules: seq<Json>, actor: Actor): Expr {
    if actor.role == "service_role" || |rules| == 0 then Const(true)
    else FoldExpr(KwOr, RuleExprs(rules, actor))
  }

  lemma PoliciesRead(rules: seq<Json>, actor: Actor)
    requires CompilePolicies(rules, actor).Success?
    ensures ReadsAs(CompilePolicies(rules, actor).value, PoliciesExpr(rules, actor))
    ensures Balanced(CompilePolicies(rules, actor).value)
  {
    hide BindsAs, ReadsAs, Balanced, OrChain;
    if actor.role == "service_role" || |rules| == 0 {
      ConstReads(true);
    } else {
      var cs, es := CompileRules(rules, actor).value, RuleExprs(rules, actor);
      RulesRead(rules, actor);
      JoinOr(cs, es);
      OrChainReads(Join(KwOr, cs), FoldExpr(KwOr, es));
      JoinBalanced(KwOr, cs);
    }
  }

  predicate PoliciesHold(rules: seq<Json>, row: Row, actor: Actor) {
    actor.role == "service_role" || |rules| == 0 || HoldsAny(rules, row, actor)
  }

  predicate PoliciesOpen(rules: seq<Json>, actor: Actor) {
    actor.role == "service_role" || |rules| == 0
  }

  /** Some rule is decided by a boolean that meets an integer, and the evaluator accepts none. */
  predicate BooleanLetsThrough(rules: seq<Json>, row: Row, actor: Actor) {
    && !PoliciesOpen(rules, actor)
    && BooleanDecidesOne(rules, row, actor) && EvaluateAny(rules, row, actor) == Success(false)
  }

  /** Some rule is decided by a null that meets a null, and none holds in SQL. */
  predicate NullLetsThrough(rules: seq<Json>, row: Row, actor: Actor) {
    && !PoliciesOpen(rules, actor)
    && NullDecidesOne(rules, row, actor) && !HoldsAny(rules, row, actor)
  }

  /**
   The text itself, parsed back, for every policy that compiles: SQL accepts only what the
   evaluator accepts exactly unless a boolean lets the row through, and all of it exactly unless
   a null does.
   */
  lemma PoliciesAgree(rules: seq<Json>, row: Row, actor: Actor)
    requires CompilePolicies(rules, actor).Success?
    ensures
      var c := CompilePolicies(rules, actor).value;
      var parsed := ParseWhere(c.sql, c.params);
      var verdict := EvaluatePolicies(rules, row, actor);
      && parsed.Some? && verdict.Success? && Balanced(c)
      && (Accepts(parsed.value, row) <==> PoliciesHold(rules, row, actor))
      && (Accepts(parsed.value, row) && !verdict.value <==> BooleanLetsThrough(rules, row, actor))
      && (verdict.value && !Accepts(parsed.value, row) <==> NullLetsThrough(rules, row, actor))
  {
    hide ReadsAs, Balanced, RuleExprs, BooleanDecidesOne, NullDecidesOne, HoldsAny, EvaluateAny, CompileRules, Join;
    PoliciesRead(rules, actor);
    ReadsWhole(CompilePolicies(rules, actor).value, PoliciesExpr(rules, actor));
    if !PoliciesOpen(rules, actor) {
      AnyVerdicts(rules, row, actor);
      FoldOrAccepts(RuleExprs(rules, actor), row);
    }
  }

  // ---- What can be checked in advance ----------------------------------------------------

  /** Some test of the rule that can be reached compares its column with this value. */
  predicate Mentions(rule: Json, v: Json, actor: Actor)
    decreases rule, 1
  {
    rule.JObject? &&
      var obj := rule.fields;
      var all, any := GetArray(obj, "and"), GetArray(obj, "or");
      if GetBool(obj, "allow").Some? || GetArray(obj, "role_in").Some? then false
      else if all.Some? then OneMentions(all.value, v, actor)
      else if any.Some? then OneMentions(any.value, v, actor)
      else v in TestValues(obj, actor)
  }

  predicate OneMentions(rules: seq<Json>, v: Json, actor: Actor)
    decreases rules, 0
  {
    |rules| > 0 && (OneMentions(rules[..|rules| - 1], v, actor) || Mentions(rules[|rules| - 1], v, actor))
  }

  lemma {:induction false} RuleWithoutBooleans(rule: Json, row: Row, actor: Actor)
    requires !Mentions(rule, JBool(true), actor) && !Mentions(rule, JBool(false), actor)
    ensures !BooleanDecides(rule, row, actor)
    decreases rule, 1
  {
    hide HoldsAll, EvaluateAny;
    if rule.JObject? {
      var all, any := GetArray(rule.fields, "and"), GetArray(rule.fields, "or");
      if GetBool(rule.fields, "allow").Some? || GetArray(rule.fields, "role_in").Some? {
      } else if all.Some? {
        RulesWithoutBooleans(all.value, row, actor);
      } else if any.Some? {
        RulesWithoutBooleans(any.value, row, actor);
      }
    }
  }

  lemma {:induction false} RulesWithoutBooleans(rules: seq<Json>, row: Row, actor: Actor)
    requires !OneMentions(rules, JBool(true), actor) && !OneMentions(rules, JBool(false), actor)
    ensures !BooleanDecidesOne(rules, row, actor)
    decreases rules, 0
  {
    if |rules| > 0 {
      RulesWithoutBooleans(rules[..|rules| - 1], row, actor);
      RuleWithoutBooleans(rules[|rules| - 1], row, actor);
    }
  }

  lemma {:induction false} RuleWithoutNulls(rule: Json, row: Row, actor: Actor)
    requires !Mentions(rule, JNull, actor)
    ensures !NullDecides(rule, row, actor)
    decreases rule, 1
  {
    hide HoldsAny, EvaluateAll;
    if rule.JObject? {
      var all, any := GetArray(rule.fields, "and"), GetArray(rule.fields, "or");
      if GetBool(rule.fields, "allow").Some? || GetArray(rule.fields, "role_in").Some? {
      } else if all.Some? {
        RulesWithoutNulls(all.value, row, actor);
      } else if any.Some? {
        RulesWithoutNulls(any.value, row, actor);
      }
    }
  }

  lemma {:induction false} RulesWithoutNulls(rules: seq<Json>, row: Row, actor: Actor)
    requires !OneMentions(rules, JNull, actor)
    ensures !NullDecidesOne(rules, row, actor)
    decreases rules, 0
  {
    if |rules| > 0 {
      RulesWithoutNulls(rules[..|rules| - 1], row, actor);
      RuleWithoutNulls(rules[|rules| - 1], row, actor);
    }
  }

  /**
   A policy that compares with no boolean never lets SQL accept a row the evaluator refuses, and one
   that compares with no null, a missing claim among them, never the other way round.
   */
  lemma PlainPoliciesAgree(rules: seq<Json>, row: Row, actor: Actor)
    requires CompilePolicies(rules, actor).Success?
    ensures
      var c := CompilePolicies(rules, actor).value;
      var parsed := ParseWhere(c.sql, c.params);
      var verdict := EvaluatePolicies(rules, row, actor);
      && parsed.Some? && verdict.Success?
      && (!OneMentions(rules, JBool(true), actor) && !OneMentions(rules, JBool(false), actor) ==>
            (Accepts(parsed.value, row) ==> verdict.value))
      && (!OneMentions(rules, JNull, actor) ==> (verdict.value ==> Accepts(parsed.value, row)))
  {
    hide CompilePolicies, EvaluatePolicies, Accepts, ParseWhere, OneMentions, BooleanDecidesOne, NullDecidesOne;
    PoliciesAgree(rules, row, actor);
    if !OneMentions(rules, JBool(true), actor) && !OneMentions(rules, JBool(false), actor) {
      RulesWithoutBooleans(rules, row, actor);
    }
    if !OneMentions(rules, JNull, actor) {
      RulesWithoutNulls(rules, row, actor);
    }
  }

  /** It does happen: a column that stores true as 1, and a rule that asks for true. */
  lemma BooleanClaimsDiffer()
    ensures
      var rule := JObject([("column", JText("active")), ("equals", JBool(true))]);
      var row := map["active" := Integer(1)];
      var actor := Actor(None, "user", []);
      && CompileRule(rule, actor).Success?
      && Accepts(RuleExpr(rule, actor), row)
      && EvaluateRule(rule, row, actor) == Success(false)
  {
    hide Get;
    FieldsOfTwo("column", JText("active"), "equals", JBool(true));
  }

  lemma FieldsOfTwo(a: string, x: Json, b: string, y: Json)
    requires a != b
    ensures forall k: string :: Get([(a, x), (b, y)], k)
              == if k == b then Some(y) else if k == a then Some(x) else None
  {
    var obj := [(a, x), (b, y)];
    assert obj[..1] == [(a, x)] && obj[..1][..0] == [];
    forall k: string
      ensures Get(obj, k) == if k == b then Some(y) else if k == a then Some(x) else None
    {
      assert Get(obj[..1], k) == if k == a then Some(x) else None;
    }
  }
}
