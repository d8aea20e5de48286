/**
 Who a row policy lets in, in terms of the rule as it is written and of the actor: what each kind of
 rule says to the evaluator and, read back from its SQL text, to the database
 (rust-core/src/policy.rs).
 */
module PolicyMeaning {
  import opened Wrappers
  import opened Sql
  import opened Policy
  import opened PolicyProofs

  /** The object has the field, and no later one of that name. */
  ghost predicate Has(obj: seq<(string, Json)>, key: string, v: Json) {
    exists i :: 0 <= i < |obj| && obj[i] == (key, v) && forall j :: i < j < |obj| ==> obj[j].0 != key
  }

  ghost predicate Lacks(obj: seq<(string, Json)>, key: string) {
    forall i :: 0 <= i < |obj| ==> obj[i].0 != key
  }

  lemma {:induction false} FieldLookup(obj: seq<(string, Json)>, key: string)
    ensures forall v: Json :: Get(obj, key) == Some(v) <==> Has(obj, key, v)
    ensures Get(obj, key).None? <==> Lacks(obj, key)
  {
    if |obj| > 0 {
      var n := |obj| - 1;
      if obj[n].0 == key {
        assert Has(obj, key, obj[n].1);
      } else {
        FieldLookup(obj[..n], key);
        assert forall i :: 0 <= i < n ==> obj[..n][i] == obj[i];
        forall v: Json
          ensures Has(obj, key, v) <==> Has(obj[..n], key, v)
        {
          SkipsOther(obj, key, v);
        }
      }
    }
  }

  lemma SkipsOther(obj: seq<(string, Json)>, key: string, v: Json)
    requires |obj| > 0 && obj[|obj| - 1].0 != key
    ensures Has(obj, key, v) <==> Has(obj[..|obj| - 1], key, v)
  {
    var front := obj[..|obj| - 1];
    if Has(front, key, v) {
      var i :| 0 <= i < |front| && front[i] == (key, v) && forall j :: i < j < |front| ==> front[j].0 != key;
      assert obj[i] == (key, v);
      forall j | i < j < |obj|
        ensures obj[j].0 != key
      {
        if j < |front| {
          assert front[j] == obj[j];
        }
      }
    }
    if Has(obj, key, v) {
      var i :| 0 <= i < |obj| && obj[i] == (key, v) && forall j :: i < j < |obj| ==> obj[j].0 != key;
      assert front[i] == (key, v);
    }
  }

  /** The rule's own text, compiled and read back, accepts the row. */
  ghost predicate SqlAccepts(rule: Json, row: Row, actor: Actor) {
    && CompileRule(rule, actor).Success?
    && var c := CompileRule(rule, actor).value;
       ParseWhere(c.sql, c.params).Some? && Accepts(ParseWhere(c.sql, c.params).value, row)
  }

  lemma SqlAcceptsHolding(rule: Json, row: Row, actor: Actor)
    requires CompileRule(rule, actor).Success?
    ensures SqlAccepts(rule, row, actor) <==> Holds(rule, row, actor)
  {
    hide ParseWhere, CompileRule, Holds, RuleExpr, Accepts, ReadsAs;
    RuleReads(rule, actor);
    ReadsWhole(CompileRule(rule, actor).value, RuleExpr(rule, actor));
    RuleVerdicts(rule, row, actor);
  }

  // ---- Rules that look at no column ---------------------------------------------------

  /** No field decides the rule before this kind is looked for. */
  ghost predicate NoAllow(obj: seq<(string, Json)>) {
    forall b: bool :: !Has(obj, "allow", JBool(b))
  }

  ghost predicate NoRoles(obj: seq<(string, Json)>) {
    NoAllow(obj) && forall roles: seq<Json> :: !Has(obj, "role_in", JArray(roles))
  }

  ghost predicate NoAnd(obj: seq<(string, Json)>) {
    NoRoles(obj) && forall rules: seq<Json> :: !Has(obj, "and", JArray(rules))
  }

  ghost predicate NoOr(obj: seq<(string, Json)>) {
    NoAnd(obj) && forall rules: seq<Json> :: !Has(obj, "or", JArray(rules))
  }

  /** The same, as the compiler and the evaluator look the fields up. */
  lemma LookedUp(obj: seq<(string, Json)>)
    ensures NoAllow(obj) ==> GetBool(obj, "allow").None?
    ensures NoRoles(obj) ==> GetArray(obj, "role_in").None?
    ensures NoAnd(obj) ==> GetArray(obj, "and").None?
    ensures NoOr(obj) ==> GetArray(obj, "or").None?
    ensures NoOr(obj) ==> NoAnd(obj)
    ensures NoAnd(obj) ==> NoRoles(obj)
    ensures NoRoles(obj) ==> NoAllow(obj)
    ensures forall rules: seq<Json> :: Has(obj, "and", JArray(rules)) <==> GetArray(obj, "and") == Some(rules)
    ensures forall rules: seq<Json> :: Has(obj, "or", JArray(rules)) <==> GetArray(obj, "or") == Some(rules)
  {
    hide Get, Has, Lacks;
    FieldLookup(obj, "allow");
    FieldLookup(obj, "role_in");
    FieldLookup(obj, "and");
    FieldLookup(obj, "or");
  }

  /** `allow` is its own verdict. */
  lemma AllowRule(obj: seq<(string, Json)>, b: bool, row: Row, actor: Actor)
    requires Has(obj, "allow", JBool(b))
    ensures EvaluateRule(JObject(obj), row, actor) == Success(b)
    ensures SqlAccepts(JObject(obj), row, actor) <==> b
  {
    hide Get;
    FieldLookup(obj, "allow");
    SqlAcceptsHolding(JObject(obj), row, actor);
  }

  /** `role_in` lets in exactly the actors whose role is in the list, whatever the row. */
  lemma RoleRule(obj: seq<(string, Json)>, roles: seq<Json>, row: Row, actor: Actor)
    requires NoAllow(obj) && Has(obj, "role_in", JArray(roles))
    ensures EvaluateRule(JObject(obj), row, actor) == Success(JText(actor.role) in roles)
    ensures SqlAccepts(JObject(obj), row, actor) <==> JText(actor.role) in roles
  {
    hide Get;
    FieldLookup(obj, "allow");
    FieldLookup(obj, "role_in");
    SqlAcceptsHolding(JObject(obj), row, actor);
  }

  /** `and` takes every child, `or` some child. */
  lemma AndRule(obj: seq<(string, Json)>, rules: seq<Json>, row: Row, actor: Actor)
    requires NoRoles(obj) && Has(obj, "and", JArray(rules)) && CompileRule(JObject(obj), actor).Success?
    ensures EvaluateRule(JObject(obj), row, actor)
         == Success(forall i :: 0 <= i < |rules| ==> EvaluateRule(rules[i], row, actor) == Success(true))
    ensures SqlAccepts(JObject(obj), row, actor) <==> forall i :: 0 <= i < |rules| ==> SqlAccepts(rules[i], row, actor)
  {
    hide GetBool, GetArray, Has, NoAllow, NoRoles, NoAnd, CompileTest, SqlAccepts, EvaluateTest, TestHolds;
    LookedUp(obj);
    SqlAcceptsHolding(JObject(obj), row, actor);
    AllInPlain(rules, row, actor);
  }

  lemma OrRule(obj: seq<(string, Json)>, rules: seq<Json>, row: Row, actor: Actor)
    requires NoAnd(obj) && Has(obj, "or", JArray(rules)) && CompileRule(JObject(obj), actor).Success?
    ensures EvaluateRule(JObject(obj), row, actor)
         == Success(exists i :: 0 <= i < |rules| && EvaluateRule(rules[i], row, actor) == Success(true))
    ensures SqlAccepts(JObject(obj), row, actor) <==> exists i :: 0 <= i < |rules| && SqlAccepts(rules[i], row, actor)
  {
    hide GetBool, GetArray, Has, NoAllow, NoRoles, NoAnd, CompileTest, SqlAccepts, EvaluateTest, TestHolds;
    LookedUp(obj);
    SqlAcceptsHolding(JObject(obj), row, actor);
    AnyInPlain(rules, row, actor);
  }

  lemma {:induction false} AllInPlain(rules: seq<Json>, row: Row, actor: Actor)
    requires CompileRules(rules, actor).Success?
    ensures EvaluateAll(rules, row, actor)
         == Success(forall i :: 0 <= i < |rules| ==> EvaluateRule(rules[i], row, actor) == Success(true))
    ensures HoldsAll(rules, row, actor) <==> forall i :: 0 <= i < |rules| ==> SqlAccepts(rules[i], row, actor)
  {
    hide CompileRule, EvaluateRule, Holds, SqlAccepts;
    if |rules| > 0 {
      var n := |rules| - 1;
      AllInPlain(rules[..n], row, actor);
      RuleVerdicts(rules[n], row, actor);
      SqlAcceptsHolding(rules[n], row, actor);
      assert forall i :: 0 <= i < n ==> rules[..n][i] == rules[i];
    }
  }

  lemma {:induction false} AnyInPlain(rules: seq<Json>, row: Row, actor: Actor)
    requires CompileRules(rules, actor).Success?
    ensures EvaluateAny(rules, row, actor)
         == Success(exists i :: 0 <= i < |rules| && EvaluateRule(rules[i], row, actor) == Success(true))
    ensures HoldsAny(rules, row, actor) <==> exists i :: 0 <= i < |rules| && SqlAccepts(rules[i], row, actor)
  {
    hide CompileRule, EvaluateRule, Holds, SqlAccepts;
    if |rules| > 0 {
      var n := |rules| - 1;
      AnyInPlain(rules[..n], row, actor);
      RuleVerdicts(rules[n], row, actor);
      SqlAcceptsHolding(rules[n], row, actor);
      assert forall i :: 0 <= i < n ==> rules[..n][i] == rules[i];
    }
  }

  // ---- Rules that look at a column ------------------------------------------------------

  /** What the actor claims under this name; a claim it does not make is null. */
  ghost predicate ClaimIs(actor: Actor, name: string, v: Json) {
    if name == "sub" then v == (if actor.sub.Some? then JText(actor.sub.value) else JNull)
    else if name == "role" then v == JText(actor.role)
    else Has(actor.claims, name, v) || (Lacks(actor.claims, name) && v == JNull)
  }

  lemma ClaimLookup(actor: Actor, name: string)
    ensures ClaimIs(actor, name, ActorClaim(actor, name))
    ensures forall v: Json :: ClaimIs(actor, name, v) ==> v == ActorClaim(actor, name)
  {
    FieldLookup(actor.claims, name);
  }

  /** The stored value is this JSON value. */
  predicate SameValue(stored: SqlValue, v: Json) {
    match stored
    case Null => v == JNull
    case Integer(i) => v == JNumber(i)
    case Text(s) => v == JText(s)
  }

  /** What SQL calls equal: never null, and booleans are 1 and 0. */
  predicate SqlEqual(stored: SqlValue, v: Json) {
    match stored
    case Null => false
    case Integer(i) => v == JNumber(i) || (i == 1 && v == JBool(true)) || (i == 0 && v == JBool(false))
    case Text(s) => v == JText(s)
  }

  lemma TestInPlain(obj: seq<(string, Json)>, row: Row, actor: Actor)
    requires NoOr(obj) && CompileRule(JObject(obj), actor).Success?
    ensures EvaluateRule(JObject(obj), row, actor) == EvaluateTest(obj, row, actor)
    ensures SqlAccepts(JObject(obj), row, actor) <==> TestHolds(obj, row, actor)
    ensures CompileTest(obj, actor).Success?
  {
    hide GetBool, GetArray, Has, NoAllow, NoRoles, NoAnd, NoOr, CompileTest, SqlAccepts, EvaluateTest, TestHolds;
    LookedUp(obj);
    SqlAcceptsHolding(JObject(obj), row, actor);
  }

  lemma MatchesOne(stored: SqlValue, v: Json)
    ensures Matches(stored, [v]) <==> SqlEqual(stored, v)
    ensures ToJson(stored) == v <==> SameValue(stored, v)
  {
    assert [v][0] == v;
  }

  lemma MatchesSome(stored: SqlValue, items: seq<Json>)
    ensures Matches(stored, items) <==> exists i :: 0 <= i < |items| && SqlEqual(stored, items[i])
    ensures ToJson(stored) in items <==> exists i :: 0 <= i < |items| && SameValue(stored, items[i])
  {
    forall i | 0 <= i < |items|
      ensures stored != Null && ToSqlValue(items[i]) == Some(stored) <==> SqlEqual(stored, items[i])
      ensures ToJson(stored) == items[i] <==> SameValue(stored, items[i])
    {
    }
  }

  /** `equals_claim` compares the column with the actor's claim. */
  lemma EqualsClaimRule(obj: seq<(string, Json)>, column: string, name: string, claim: Json, row: Row, actor: Actor)
    requires NoOr(obj) && CompileRule(JObject(obj), actor).Success?
    requires Has(obj, "column", JText(column)) && Has(obj, "equals_claim", JText(name)) && ClaimIs(actor, name, claim)
    ensures EvaluateRule(JObject(obj), row, actor) == Success(SameValue(Column(row, column), claim))
    ensures SqlAccepts(JObject(obj), row, actor) <==> SqlEqual(Column(row, column), claim)
  {
    hide Get, Has, Lacks, ActorClaim, ClaimIs, EvaluateRule, CompileRule, SqlAccepts, NoOr, Matches, SqlEqual, SameValue, ToJson;
    TestInPlain(obj, row, actor);
    FieldLookup(obj, "column");
    FieldLookup(obj, "equals_claim");
    ClaimLookup(actor, name);
    MatchesOne(Column(row, column), claim);
  }

  /** `in_claim` looks for the column's value in the actor's claim, which is a list or holds nothing. */
  lemma InClaimRule(obj: seq<(string, Json)>, column: string, name: string, claim: Json, row: Row, actor: Actor)
    requires NoOr(obj) && CompileRule(JObject(obj), actor).Success?
    requires forall claimed: string :: !Has(obj, "equals_claim", JText(claimed))
    requires Has(obj, "column", JText(column)) && Has(obj, "in_claim", JText(name)) && ClaimIs(actor, name, claim)
    ensures
      var items := if claim.JArray? then claim.items else [];
      && EvaluateRule(JObject(obj), row, actor)
         == Success(exists i :: 0 <= i < |items| && SameValue(Column(row, column), items[i]))
      && (SqlAccepts(JObject(obj), row, actor) <==> exists i :: 0 <= i < |items| && SqlEqual(Column(row, column), items[i]))
  {
    hide Get, ActorClaim, ClaimIs, EvaluateRule, CompileRule, SqlAccepts, NoOr, Matches, SqlEqual, SameValue, CompileTest, Has,
      Lacks, ToJson;
    TestInPlain(obj, row, actor);
    FieldLookup(obj, "column");
    FieldLookup(obj, "equals_claim");
    FieldLookup(obj, "in_claim");
    ClaimLookup(actor, name);
    MatchesSome(Column(row, column), if claim.JArray? then claim.items else []);
  }

  /** `equals` compares the column with the value in the rule. */
  lemma EqualsRule(obj: seq<(string, Json)>, column: string, v: Json, row: Row, actor: Actor)
    requires NoOr(obj) && CompileRule(JObject(obj), actor).Success?
    requires forall claimed: string :: !Has(obj, "equals_claim", JText(claimed)) && !Has(obj, "in_claim", JText(claimed))
    requires Has(obj, "column", JText(column)) && Has(obj, "equals", v)
    ensures EvaluateRule(JObject(obj), row, actor) == Success(SameValue(Column(row, column), v))
    ensures SqlAccepts(JObject(obj), row, actor) <==> SqlEqual(Column(row, column), v)
  {
    hide Get, EvaluateRule, CompileRule, SqlAccepts, NoOr, Matches, SqlEqual, SameValue, CompileTest, Has, Lacks, ToJson;
    TestInPlain(obj, row, actor);
    FieldLookup(obj, "column");
    FieldLookup(obj, "equals_claim");
    FieldLookup(obj, "in_claim");
    FieldLookup(obj, "equals");
    MatchesOne(Column(row, column), v);
  }

  // ---- Whole policies ------------------------------------------------------------------

  /** The service role and a table without rules are let through; else some rule has to let the actor in. */
  lemma PolicyInPlain(rules: seq<Json>, row: Row, actor: Actor)
    requires CompilePolicies(rules, actor).Success?
    ensures EvaluatePolicies(rules, row, actor)
         == Success(actor.role == "service_role" || |rules| == 0
                    || exists i :: 0 <= i < |rules| && EvaluateRule(rules[i], row, actor) == Success(true))
    ensures
      var c := CompilePolicies(rules, actor).value;
      var parsed := ParseWhere(c.sql, c.params);
      && parsed.Some?
      && (Accepts(parsed.value, row) <==>
            actor.role == "service_role" || |rules| == 0
            || exists i :: 0 <= i < |rules| && SqlAccepts(rules[i], row, actor))
  {
    hide CompileRule, EvaluateRule, SqlAccepts, HoldsAny, EvaluateAny, Accepts, ParseWhere, CompileRules;
    PoliciesAgree(rules, row, actor);
    if actor.role != "service_role" && |rules| > 0 {
      AnyInPlain(rules, row, actor);
    }
  }

  /** A rule that names a column compiles exactly when the name is an identifier and it says what to compare with. */
  lemma TestCompiles(obj: seq<(string, Json)>, actor: Actor)
    requires NoOr(obj)
    ensures CompileRule(JObject(obj), actor).Success? <==>
              exists column: string ::
                && Has(obj, "column", JText(column)) && ValidIdent(column)
                && ((exists name: string :: Has(obj, "equals_claim", JText(name)))
                    || (exists name: string :: Has(obj, "in_claim", JText(name)))
                    || (exists v: Json :: Has(obj, "equals", v)))
  {
    FieldLookup(obj, "allow");
    FieldLookup(obj, "role_in");
    FieldLookup(obj, "and");
    FieldLookup(obj, "or");
    FieldLookup(obj, "column");
    FieldLookup(obj, "equals_claim");
    FieldLookup(obj, "in_claim");
    FieldLookup(obj, "equals");
    hide Get, Has, Lacks, EqualsClause, InClause, ActorClaim, ToSqlValues, ValidIdent;
    if CompileRule(JObject(obj), actor).Success? {
      var column := GetText(obj, "column").value;
      assert Has(obj, "column", JText(column));
      if GetText(obj, "equals_claim").Some? {
        assert Has(obj, "equals_claim", JText(GetText(obj, "equals_claim").value));
      } else if GetText(obj, "in_claim").Some? {
        assert Has(obj, "in_claim", JText(GetText(obj, "in_claim").value));
      } else {
        assert Has(obj, "equals", Get(obj, "equals").value);
      }
    }
  }
}
