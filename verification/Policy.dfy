/**
 Row policies: the compiler to SQL and the in-memory evaluator of the same JSON rules
 (rust-core/src/policy.rs).
 */
module Policy {
  import opened Wrappers
  import opened Sql

  /** JSON, with an object as its list of fields. Numbers that are not integers are left out. */
  datatype Json =
    | JNull
    | JBool(b: bool)
    | JNumber(n: int)
    | JText(s: string)
    | JArray(items: seq<Json>)
    | JObject(fields: seq<(string, Json)>)

  function Get(fields: seq<(string, Json)>, key: string): (r: Option<Json>)
    ensures r.Some? ==> exists i :: 0 <= i < |fields| && fields[i] == (key, r.value)
  {
    if |fields| == 0 then None
    else if fields[|fields| - 1].0 == key then Some(fields[|fields| - 1].1)
    else Get(fields[..|fields| - 1], key)
  }

  function GetBool(fields: seq<(string, Json)>, key: string): Option<bool> {
    var v := Get(fields, key);
    if v.Some? && v.value.JBool? then Some(v.value.b) else None
  }

  function GetText(fields: seq<(string, Json)>, key: string): Option<string> {
    var v := Get(fields, key);
    if v.Some? && v.value.JText? then Some(v.value.s) else None
  }

  function GetArray(fields: seq<(string, Json)>, key: string): (r: Option<seq<Json>>)
    ensures r.Some? ==> exists i :: 0 <= i < |fields| && fields[i] == (key, JArray(r.value))
  {
    var v := Get(fields, key);
    if v.Some? && v.value.JArray? then Some(v.value.items) else None
  }

  datatype Actor = Actor(sub: Option<string>, role: string, claims: seq<(string, Json)>)

  function ActorClaim(actor: Actor, name: string): Json {
    if name == "sub" then (if actor.sub.Some? then JText(actor.sub.value) else JNull)
    else if name == "role" then JText(actor.role)
    else
      var claim := Get(actor.claims, name);
      if claim.Some? then claim.value else JNull
  }

  function ToSqlValue(v: Json): Option<SqlValue> {
    match v
    case JNull => Some(Null)
    case JBool(b) => Some(Integer(if b then 1 else 0))
    case JNumber(n) => Some(Integer(n))
    case JText(s) => Some(Text(s))
    case JArray(_) => None
    case JObject(_) => None
  }

  /** The items that convert, in order (`filter_map`). */
  function ToSqlValues(items: seq<Json>): seq<SqlValue> {
    if |items| == 0 then []
    else
      var last := ToSqlValue(items[|items| - 1]);
      ToSqlValues(items[..|items| - 1]) + (if last.Some? then [last.value] else [])
  }

  predicate IdentStart(c: char) {
    c == '_' || 'a' <= c <= 'z' || 'A' <= c <= 'Z'
  }

  predicate ValidIdent(name: string) {
    && |name| > 0 && IdentStart(name[0])
    && (forall i :: 0 <= i < |name| ==> IdentStart(name[i]) || '0' <= name[i] <= '9')
  }

  datatype PolicyError = PolicyError

  function QuoteIdent(name: string): Result<Token, PolicyError> {
    if ValidIdent(name) then Success(Ident(name)) else Failure(PolicyError)
  }

  // ---- The compiler -----------------------------------------------------------

  function Placeholders(n: nat): seq<Token> {
    if n == 0 then [] else if n == 1 then [Param] else [Param, Comma] + Placeholders(n - 1)
  }

  function InClause(column: Token, values: seq<SqlValue>): Compiled {
    Compiled([column, KwIn, LParen] + Placeholders(|values|) + [RParen], values)
  }

  function EqualsClause(column: Token, value: Json): Compiled {
    match ToSqlValue(value)
    case None => ZeroIsOne()
    case Some(v) => Compiled([column, Op(Eq), Param], [v])
  }

  predicate RoleListed(roles: seq<Json>, role: string) {
    exists i :: 0 <= i < |roles| && roles[i] == JText(role)
  }

  function CompileRule(rule: Json, actor: Actor): Result<Compiled, PolicyError>
    decreases rule, 1
  {
    if !rule.JObject? then Failure(PolicyError)
    else
      var obj := rule.fields;
      var allow, roles := GetBool(obj, "allow"), GetArray(obj, "role_in");
      var all, any := GetArray(obj, "and"), GetArray(obj, "or");
      if allow.Some? then Success(if allow.value then OneIsOne() else ZeroIsOne())
      else if roles.Some? then Success(if RoleListed(roles.value, actor.role) then OneIsOne() else ZeroIsOne())
      else if all.Some? then JoinRules(KwAnd, CompileRules(all.value, actor))
      else if any.Some? then JoinRules(KwOr, CompileRules(any.value, actor))
      else CompileTest(obj, actor)
  }

  function CompileTest(obj: seq<(string, Json)>, actor: Actor): Result<Compiled, PolicyError> {
    var column := GetText(obj, "column");
    if column.None? then Failure(PolicyError)
    else
      match QuoteIdent(column.value)
      case Failure(e) => Failure(e)
      case Success(quoted) =>
        var equalsClaim, inClaim, equals := GetText(obj, "equals_claim"), GetText(obj, "in_claim"), Get(obj, "equals");
        if equalsClaim.Some? then Success(EqualsClause(quoted, ActorClaim(actor, equalsClaim.value)))
        else if inClaim.Some? then
          var claim := ActorClaim(actor, inClaim.value);
          var values := if claim.JArray? then ToSqlValues(claim.items) else [];
          Success(if |values| == 0 then ZeroIsOne() else InClause(quoted, values))
        else if equals.Some? then Success(EqualsClause(quoted, equals.value))
        else Failure(PolicyError)
  }

  /** The children in order; the first one that fails fails them all. */
  function CompileRules(rules: seq<Json>, actor: Actor): (r: Result<seq<Compiled>, PolicyError>)
    ensures r.Success? ==> |r.value| == |rules|
    decreases rules, 0
  {
    if |rules| == 0 then Success([])
    else
      match CompileRules(rules[..|rules| - 1], actor)
      case Failure(e) => Failure(e)
      case Success(front) =>
        match CompileRule(rules[|rules| - 1], actor)
        case Failure(e) => Failure(e)
        case Success(c) => Success(front + [c])
  }

  function JoinRules(op: Token, compiled: Result<seq<Compiled>, PolicyError>): Result<Compiled, PolicyError> {
    match compiled
    case Failure(e) => Failure(e)
    case Success(cs) => if |cs| == 0 then Failure(PolicyError) else Success(Join(op, cs))
  }

  function CompilePolicies(rules: seq<Json>, actor: Actor): Result<Compiled, PolicyError> {
    if actor.role == "service_role" || |rules| == 0 then Success(OneIsOne())
    else JoinRules(KwOr, CompileRules(rules, actor))
  }

  // ---- The evaluator -------------------------------------------------------------

  /** The JSON value a column has in the row the evaluator is given. */
  function ToJson(v: SqlValue): Json {
    match v case Null => JNull case Integer(i) => JNumber(i) case Text(s) => JText(s)
  }

  function EvaluateRule(rule: Json, row: Row, actor: Actor): Result<bool, PolicyError>
    decreases rule, 1
  {
    if !rule.JObject? then Failure(PolicyError)
    else
      var obj := rule.fields;
      var allow, roles := GetBool(obj, "allow"), GetArray(obj, "role_in");
      var all, any := GetArray(obj, "and"), GetArray(obj, "or");
      if allow.Some? then Success(allow.value)
      else if roles.Some? then Success(RoleListed(roles.value, actor.role))
      else if all.Some? then EvaluateAll(all.value, row, actor)
      else if any.Some? then EvaluateAny(any.value, row, actor)
      else EvaluateTest(obj, row, actor)
  }

  function EvaluateTest(obj: seq<(string, Json)>, row: Row, actor: Actor): Result<bool, PolicyError> {
    var column := GetText(obj, "column");
    if column.None? then Failure(PolicyError)
    else
      var rowValue := ToJson(Column(row, column.value));
      var equalsClaim, inClaim, equals := GetText(obj, "equals_claim"), GetText(obj, "in_claim"), Get(obj, "equals");
      if equalsClaim.Some? then Success(rowValue == ActorClaim(actor, equalsClaim.value))
      else if inClaim.Some? then
        var claim := ActorClaim(actor, inClaim.value);
        Success(claim.JArray? && rowValue in claim.items)
      else if equals.Some? then Success(rowValue == equals.value)
      else Failure(PolicyError)
  }

  /** Stops at the first child that is false or fails. */
  function EvaluateAll(rules: seq<Json>, row: Row, actor: Actor): Result<bool, PolicyError>
    decreases rules, 0
  {
    if |rules| == 0 then Success(true)
    else
      match EvaluateAll(rules[..|rules| - 1], row, actor)
      case Success(true) => EvaluateRule(rules[|rules| - 1], row, actor)
      case other => other
  }

  /** Stops at the first child that is true or fails. */
  function EvaluateAny(rules: seq<Json>, row: Row, actor: Actor): Result<bool, PolicyError>
    decreases rules, 0
  {
    if |rules| == 0 then Success(false)
    else
      match EvaluateAny(rules[..|rules| - 1], row, actor)
      case Success(false) => EvaluateRule(rules[|rules| - 1], row, actor)
      case other => other
  }

  function EvaluatePolicies(rules: seq<Json>, row: Row, actor: Actor): Result<bool, PolicyError> {
    if actor.role == "service_role" || |rules| == 0 then Success(true)
    else EvaluateAny(rules, row, actor)
  }

  // ---- Identifiers ----------------------------------------------------------------------------

  /** An identifier is letters, digits and underscores, not a digit first: it never needs quoting. */
  lemma IdentifiersInPlain(name: string)
    ensures ValidIdent(name) <==>
              && name != "" && !('0' <= name[0] <= '9')
              && forall c :: c in name ==> c == '_' || 'a' <= c <= 'z' || 'A' <= c <= 'Z' || '0' <= c <= '9'
  {
    if ValidIdent(name) {
      forall c | c in name
        ensures c == '_' || 'a' <= c <= 'z' || 'A' <= c <= 'Z' || '0' <= c <= '9'
      {
        var i :| 0 <= i < |name| && name[i] == c;
      }
    } else if name != "" && !('0' <= name[0] <= '9') {
      assert name[0] in name;
      if IdentStart(name[0]) {
        var i :| 0 <= i < |name| && !(IdentStart(name[i]) || '0' <= name[i] <= '9');
        assert name[i] in name;
      }
    }
  }
}
