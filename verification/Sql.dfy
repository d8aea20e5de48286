/**
 The SQL text that filters and policies compile to, as tokens: a parser with SQL's precedence
 (NOT over AND over OR) that binds each `?` in order, and three-valued evaluation.
 */
module Sql {
  import opened Strings
  import opened Wrappers

  // ---- Values and truth ------------------------------------------------------

  datatype SqlValue = Null | Integer(i: int) | Text(s: string)

  /** A row; a column that is not there reads as NULL. */
  type Row = map<string, SqlValue>

  function Column(row: Row, name: string): SqlValue {
    if name in row then row[name] else Null
  }

  datatype Tri = True | False | Unknown

  function And3(a: Tri, b: Tri): Tri {
    if a == False || b == False then False
    else if a == Unknown || b == Unknown then Unknown
    else True
  }

  function Or3(a: Tri, b: Tri): Tri {
    if a == True || b == True then True
    else if a == Unknown || b == Unknown then Unknown
    else False
  }

  function Not3(a: Tri): Tri {
    match a case True => False case False => True case Unknown => Unknown
  }

  function Bool3(b: bool): Tri {
    if b then True else False
  }

  datatype CompareOp = Eq | Neq | Gt | Gte | Lt | Lte

  /** Integers before text, text by code point. */
  predicate Less(a: SqlValue, b: SqlValue) {
    match (a, b)
    case (Integer(x), Integer(y)) => x < y
    case (Text(x), Text(y)) => TextLess(x, y)
    case (Integer(_), Text(_)) => true
    case _ => false
  }

  function Compare(op: CompareOp, a: SqlValue, b: SqlValue): Tri {
    if a.Null? || b.Null? then Unknown
    else match op
      case Eq => Bool3(a == b)
      case Neq => Bool3(a != b)
      case Gt => Bool3(Less(b, a))
      case Gte => Bool3(a == b || Less(b, a))
      case Lt => Bool3(Less(a, b))
      case Lte => Bool3(a == b || Less(a, b))
  }

  function Fold(c: char): char {
    if 'A' <= c <= 'Z' then ((c as int) + 32) as char else c
  }

  /** SQLite's LIKE: `%` any run, `_` any one character, ASCII letters without case. */
  predicate LikeMatch(pattern: string, text: string)
    decreases |pattern| + |text|
  {
    if |pattern| == 0 then |text| == 0
    else if pattern[0] == '%' then
      LikeMatch(pattern[1..], text) || (|text| > 0 && LikeMatch(pattern, text[1..]))
    else
      |text| > 0 && (pattern[0] == '_' || Fold(pattern[0]) == Fold(text[0])) && LikeMatch(pattern[1..], text[1..])
  }

  /** LIKE compares an integer by its text. */
  function AsText(v: SqlValue): string
    requires v != Null
  {
    match v
    case Integer(i) => if i < 0 then "-" + Show(-i) else Show(i)
    case Text(s) => s
  }

  function Like(a: SqlValue, pattern: SqlValue): Tri {
    if a.Null? || pattern.Null? then Unknown else Bool3(LikeMatch(AsText(pattern), AsText(a)))
  }

  function InList(a: SqlValue, values: seq<SqlValue>): Tri {
    if |values| == 0 then False
    else Or3(InList(a, values[..|values| - 1]), Compare(Eq, a, values[|values| - 1]))
  }

  // ---- Expressions --------------------------------------------------------------

  datatype Expr =
    | Const(b: bool)
    | Cmp(column: string, op: CompareOp, arg: SqlValue)
    | LikeTest(column: string, arg: SqlValue)
    | In(column: string, args: seq<SqlValue>)
    | IsValue(column: string, v: SqlValue)
    | IsNotNull(column: string)
    | And(l: Expr, r: Expr)
    | Or(l: Expr, r: Expr)
    | Not(e: Expr)

  function Eval(e: Expr, row: Row): Tri {
    match e
    case Const(b) => Bool3(b)
    case Cmp(c, op, arg) => Compare(op, Column(row, c), arg)
    case LikeTest(c, arg) => Like(Column(row, c), arg)
    case In(c, args) => InList(Column(row, c), args)
    case IsValue(c, v) => Bool3(Column(row, c) == v)
    case IsNotNull(c) => Bool3(Column(row, c) != Null)
    case And(l, r) => And3(Eval(l, row), Eval(r, row))
    case Or(l, r) => Or3(Eval(l, row), Eval(r, row))
    case Not(x) => Not3(Eval(x, row))
  }

  // ---- Tokens and the parser -------------------------------------------------------

  datatype Token =
    | LParen | RParen | Comma | Param
    | Ident(name: string)
    | Number(n: int)
    | Op(op: CompareOp)
    | KwAnd | KwOr | KwNot | KwLike | KwCollateNocase | KwIn | KwIs | KwNull
    | KwSelect | Star | KwFrom | KwWhere | KwLimit | KwOffset
    | KwOrderBy | KwAsc | KwDesc | KwNullsFirst | KwNullsLast

  /** An expression, what is left of the text, and what is left of the parameters. */
  datatype Parsed = Parsed(expr: Expr, rest: seq<Token>, params: seq<SqlValue>)

  /** `?` or a comma-separated list of them, up to the closing parenthesis. */
  function ParseParams(ts: seq<Token>, ps: seq<SqlValue>): (r: Option<(seq<SqlValue>, seq<Token>, seq<SqlValue>)>)
    ensures r.Some? ==> |r.value.1| < |ts|
  {
    if |ts| < 2 || ts[0] != Param || |ps| == 0 then None
    else if ts[1] == RParen then Some(([ps[0]], ts[2..], ps[1..]))
    else if ts[1] != Comma then None
    else
      match ParseParams(ts[2..], ps[1..])
      case None => None
      case Some(more) => Some(([ps[0]] + more.0, more.1, more.2))
  }

  function ParseColumnTest(column: string, ts: seq<Token>, ps: seq<SqlValue>): (r: Option<Parsed>)
    ensures r.Some? ==> |r.value.rest| <= |ts|
  {
    if |ts| >= 2 && ts[0].Op? && ts[1] == Param && |ps| > 0 then
      Some(Parsed(Cmp(column, ts[0].op, ps[0]), ts[2..], ps[1..]))
    else if |ts| >= 2 && ts[0] == KwLike && ts[1] == Param && |ps| > 0 then
      var rest := ts[2..];
      Some(Parsed(LikeTest(column, ps[0]),
                  if |rest| > 0 && rest[0] == KwCollateNocase then rest[1..] else rest, ps[1..]))
    else if |ts| >= 2 && ts[0] == KwIn && ts[1] == LParen then
      (match ParseParams(ts[2..], ps)
       case None => None
       case Some(list) => Some(Parsed(In(column, list.0), list.1, list.2)))
    else if |ts| >= 3 && ts[0] == KwIs && ts[1] == KwNot && ts[2] == KwNull then
      Some(Parsed(IsNotNull(column), ts[3..], ps))
    else if |ts| >= 2 && ts[0] == KwIs && ts[1] == KwNull then
      Some(Parsed(IsValue(column, Null), ts[2..], ps))
    else if |ts| >= 2 && ts[0] == KwIs && ts[1].Number? then
      Some(Parsed(IsValue(column, Integer(ts[1].n)), ts[2..], ps))
    else None
  }

  function ParsePrimary(ts: seq<Token>, ps: seq<SqlValue>): (r: Option<Parsed>)
    ensures r.Some? ==> |r.value.rest| < |ts|
    decreases |ts|, 0
  {
    if |ts| == 0 then None
    else if ts[0] == LParen then
      (match ParseOr(ts[1..], ps)
       case Some(p) => if |p.rest| > 0 && p.rest[0] == RParen then Some(p.(rest := p.rest[1..])) else None
       case None => None)
    else if |ts| >= 3 && ts[0].Number? && ts[1] == Op(Eq) && ts[2].Number? then
      Some(Parsed(Const(ts[0].n == ts[2].n), ts[3..], ps))
    else if ts[0].Ident? then ParseColumnTest(ts[0].name, ts[1..], ps)
    else None
  }

  function ParseNot(ts: seq<Token>, ps: seq<SqlValue>): (r: Option<Parsed>)
    ensures r.Some? ==> |r.value.rest| < |ts|
    decreases |ts|, 1
  {
    if |ts| > 0 && ts[0] == KwNot then
      match ParseNot(ts[1..], ps)
      case Some(p) => Some(p.(expr := Not(p.expr)))
      case None => None
    else ParsePrimary(ts, ps)
  }

  /** The rest of a conjunction whose left part is already read. */
  function AndTail(left: Parsed): (r: Option<Parsed>)
    ensures r.Some? ==> |r.value.rest| <= |left.rest|
    decreases |left.rest|, 2
  {
    if |left.rest| > 0 && left.rest[0] == KwAnd then
      match ParseNot(left.rest[1..], left.params)
      case Some(p) => AndTail(p.(expr := And(left.expr, p.expr)))
      case None => None
    else Some(left)
  }

  function ParseAnd(ts: seq<Token>, ps: seq<SqlValue>): (r: Option<Parsed>)
    ensures r.Some? ==> |r.value.rest| < |ts|
    decreases |ts|, 3
  {
    match ParseNot(ts, ps)
    case Some(p) => AndTail(p)
    case None => None
  }

  function OrTail(left: Parsed): (r: Option<Parsed>)
    ensures r.Some? ==> |r.value.rest| <= |left.rest|
    decreases |left.rest|, 4
  {
    if |left.rest| > 0 && left.rest[0] == KwOr then
      match ParseAnd(left.rest[1..], left.params)
      case Some(p) => OrTail(p.(expr := Or(left.expr, p.expr)))
      case None => None
    else Some(left)
  }

  function ParseOr(ts: seq<Token>, ps: seq<SqlValue>): (r: Option<Parsed>)
    ensures r.Some? ==> |r.value.rest| < |ts|
    decreases |ts|, 5
  {
    match ParseAnd(ts, ps)
    case Some(p) => OrTail(p)
    case None => None
  }

  /** A whole WHERE text: nothing may be left, neither text nor parameters. */
  function ParseWhere(ts: seq<Token>, ps: seq<SqlValue>): Option<Expr> {
    match ParseOr(ts, ps)
    case Some(p) => if p.rest == [] && p.params == [] then Some(p.expr) else None
    case None => None
  }

  function CountParams(ts: seq<Token>): nat {
    if |ts| == 0 then 0
    else CountParams(ts[..|ts| - 1]) + (if ts[|ts| - 1] == Param then 1 else 0)
  }

  lemma {:induction false} CountConcat(a: seq<Token>, b: seq<Token>)
    ensures CountParams(a + b) == CountParams(a) + CountParams(b)
  {
    if |b| == 0 {
      assert a + b == a;
    } else {
      CountConcat(a, b[..|b| - 1]);
      assert (a + b)[..|a + b| - 1] == a + b[..|b| - 1];
    }
  }

  // ---- Compiled clauses ---------------------------------------------------------------

  datatype Compiled = Compiled(sql: seq<Token>, params: seq<SqlValue>)

  function Parens(c: Compiled): Compiled {
    Compiled([LParen] + c.sql + [RParen], c.params)
  }

  /** `clauses.join(" op ")` of the parenthesized clauses, with their parameters in order. */
  function Join(op: Token, cs: seq<Compiled>): Compiled {
    if |cs| == 0 then Compiled([], [])
    else if |cs| == 1 then Parens(cs[0])
    else
      var front := Join(op, cs[..|cs| - 1]);
      var last := Parens(cs[|cs| - 1]);
      Compiled(front.sql + [op] + last.sql, front.params + last.params)
  }

  function OneIsOne(): Compiled { Compiled([Number(1), Op(Eq), Number(1)], []) }
  function ZeroIsOne(): Compiled { Compiled([Number(0), Op(Eq), Number(1)], []) }

  /** Text that ends a parenthesized or whole expression. */
  predicate Closes(rest: seq<Token>) {
    |rest| == 0 || rest[0] == RParen || rest[0] == KwOrderBy || rest[0] == KwLimit
  }

  /** In every closing context the text parses to `e`, using up exactly its own parameters. */
  ghost predicate ReadsAs(c: Compiled, e: Expr) {
    forall rest, ps: seq<SqlValue> {:trigger ParseOr(c.sql + rest, c.params + ps)} ::
      Closes(rest) ==> ParseOr(c.sql + rest, c.params + ps) == Some(Parsed(e, rest, ps))
  }

  /** Whatever follows, the text is read as the operand `e` of NOT or AND. */
  ghost predicate BindsAs(c: Compiled, e: Expr) {
    forall rest, ps: seq<SqlValue> {:trigger ParseNot(c.sql + rest, c.params + ps)} ::
      (|rest| > 0 ==> rest[0] != KwCollateNocase) ==>
      ParseNot(c.sql + rest, c.params + ps) == Some(Parsed(e, rest, ps))
  }

  lemma ParensBind(c: Compiled, e: Expr)
    requires ReadsAs(c, e)
    ensures BindsAs(Parens(c), e)
  {
    var p := Parens(c);
    forall rest: seq<Token>, ps: seq<SqlValue>
      ensures ParseNot(p.sql + rest, p.params + ps) == Some(Parsed(e, rest, ps))
    {
      var ts := p.sql + rest;
      assert ts[0] == LParen && ts[1..] == c.sql + ([RParen] + rest);
      assert Closes([RParen] + rest);
      assert ParseOr(c.sql + ([RParen] + rest), c.params + ps) == Some(Parsed(e, [RParen] + rest, ps));
      assert ([RParen] + rest)[1..] == rest;
      assert ParsePrimary(ts, p.params + ps) == Some(Parsed(e, rest, ps));
    }
  }

  lemma BindsReads(c: Compiled, e: Expr)
    requires BindsAs(c, e)
    ensures ReadsAs(c, e)
  {
    forall rest: seq<Token>, ps: seq<SqlValue> | Closes(rest)
      ensures ParseOr(c.sql + rest, c.params + ps) == Some(Parsed(e, rest, ps))
    {
      var p := Parsed(e, rest, ps);
      assert ParseNot(c.sql + rest, c.params + ps) == Some(p);
      assert AndTail(p) == Some(p) && OrTail(p) == Some(p);
    }
  }

  lemma NotBinds(c: Compiled, e: Expr)
    requires ReadsAs(c, e)
    ensures BindsAs(Compiled([KwNot] + Parens(c).sql, c.params), Not(e))
  {
    ParensBind(c, e);
    var p := Parens(c);
    var n := Compiled([KwNot] + p.sql, c.params);
    forall rest: seq<Token>, ps: seq<SqlValue> | |rest| > 0 ==> rest[0] != KwCollateNocase
      ensures ParseNot(n.sql + rest, n.params + ps) == Some(Parsed(Not(e), rest, ps))
    {
      assert (n.sql + rest)[1..] == p.sql + rest;
      assert ParseNot(p.sql + rest, p.params + ps) == Some(Parsed(e, rest, ps));
    }
  }

  // ---- Chains of AND and OR ----------------------------------------------------------

  predicate Plain(rest: seq<Token>) {
    |rest| > 0 ==> rest[0] != KwCollateNocase
  }

  /** Read as the left part of a conjunction that may go on. */
  ghost predicate AndChain(c: Compiled, e: Expr) {
    forall rest, ps: seq<SqlValue> {:trigger ParseAnd(c.sql + rest, c.params + ps)} ::
      Plain(rest) ==> ParseAnd(c.sql + rest, c.params + ps) == AndTail(Parsed(e, rest, ps))
  }

  /** Read as the left part of a disjunction that may go on. */
  ghost predicate OrChain(c: Compiled, e: Expr) {
    forall rest, ps: seq<SqlValue> {:trigger ParseOr(c.sql + rest, c.params + ps)} ::
      Plain(rest) && (|rest| > 0 ==> rest[0] != KwAnd) ==>
      ParseOr(c.sql + rest, c.params + ps) == OrTail(Parsed(e, rest, ps))
  }

  function Infix(a: Compiled, op: Token, b: Compiled): Compiled {
    Compiled(a.sql + [op] + b.sql, a.params + b.params)
  }

  lemma InfixText(a: Compiled, op: Token, b: Compiled, rest: seq<Token>, ps: seq<SqlValue>)
    ensures Infix(a, op, b).sql + rest == a.sql + ([op] + (b.sql + rest))
    ensures Infix(a, op, b).params + ps == a.params + (b.params + ps)
    ensures ([op] + (b.sql + rest))[1..] == b.sql + rest
  {
  }

  lemma BindsAndChain(c: Compiled, e: Expr)
    requires BindsAs(c, e)
    ensures AndChain(c, e)
  {
    forall rest: seq<Token>, ps: seq<SqlValue> | Plain(rest)
      ensures ParseAnd(c.sql + rest, c.params + ps) == AndTail(Parsed(e, rest, ps))
    {
      assert ParseNot(c.sql + rest, c.params + ps) == Some(Parsed(e, rest, ps));
    }
  }

  lemma AndChainSnoc(a: Compiled, x: Expr, b: Compiled, y: Expr)
    requires AndChain(a, x) && BindsAs(b, y)
    ensures AndChain(Infix(a, KwAnd, b), And(x, y))
  {
    var c := Infix(a, KwAnd, b);
    forall rest: seq<Token>, ps: seq<SqlValue> | Plain(rest)
      ensures ParseAnd(c.sql + rest, c.params + ps) == AndTail(Parsed(And(x, y), rest, ps))
    {
      InfixText(a, KwAnd, b, rest, ps);
      var more := [KwAnd] + (b.sql + rest);
      assert Plain(more);
      assert ParseAnd(a.sql + more, a.params + (b.params + ps)) == AndTail(Parsed(x, more, b.params + ps));
      assert ParseNot(b.sql + rest, b.params + ps) == Some(Parsed(y, rest, ps));
    }
  }

  lemma AndChainReads(c: Compiled, e: Expr)
    requires AndChain(c, e)
    ensures ReadsAs(c, e)
  {
    forall rest: seq<Token>, ps: seq<SqlValue> | Closes(rest)
      ensures ParseOr(c.sql + rest, c.params + ps) == Some(Parsed(e, rest, ps))
    {
      var p := Parsed(e, rest, ps);
      assert ParseAnd(c.sql + rest, c.params + ps) == AndTail(p) == Some(p);
      assert OrTail(p) == Some(p);
    }
  }

  lemma BindsOrChain(c: Compiled, e: Expr)
    requires BindsAs(c, e)
    ensures OrChain(c, e)
  {
    forall rest: seq<Token>, ps: seq<SqlValue> | Plain(rest) && (|rest| > 0 ==> rest[0] != KwAnd)
      ensures ParseOr(c.sql + rest, c.params + ps) == OrTail(Parsed(e, rest, ps))
    {
      var p := Parsed(e, rest, ps);
      assert ParseNot(c.sql + rest, c.params + ps) == Some(p);
      assert AndTail(p) == Some(p);
    }
  }

  /** One more disjunct: a conjunction binds tighter than OR, so it is read whole. */
  lemma OrChainSnoc(a: Compiled, x: Expr, b: Compiled, y: Expr)
    requires OrChain(a, x) && AndChain(b, y)
    ensures OrChain(Infix(a, KwOr, b), Or(x, y))
  {
    var c := Infix(a, KwOr, b);
    forall rest: seq<Token>, ps: seq<SqlValue> | Plain(rest) && (|rest| > 0 ==> rest[0] != KwAnd)
      ensures ParseOr(c.sql + rest, c.params + ps) == OrTail(Parsed(Or(x, y), rest, ps))
    {
      InfixText(a, KwOr, b, rest, ps);
      var more := [KwOr] + (b.sql + rest);
      assert ParseOr(a.sql + more, a.params + (b.params + ps)) == OrTail(Parsed(x, more, b.params + ps));
      var p := Parsed(y, rest, ps);
      assert ParseAnd(b.sql + rest, b.params + ps) == AndTail(p) == Some(p);
    }
  }

  lemma OrChainReads(c: Compiled, e: Expr)
    requires OrChain(c, e)
    ensures ReadsAs(c, e)
  {
    forall rest: seq<Token>, ps: seq<SqlValue> | Closes(rest)
      ensures ParseOr(c.sql + rest, c.params + ps) == Some(Parsed(e, rest, ps))
    {
      assert OrTail(Parsed(e, rest, ps)) == Some(Parsed(e, rest, ps));
    }
  }

  function FoldExpr(op: Token, es: seq<Expr>): Expr
    requires |es| > 0
  {
    if |es| == 1 then es[0]
    else
      var front := FoldExpr(op, es[..|es| - 1]);
      if op == KwAnd then And(front, es[|es| - 1]) else Or(front, es[|es| - 1])
  }

  ghost predicate AllRead(cs: seq<Compiled>, es: seq<Expr>) {
    |cs| == |es| && forall i :: 0 <= i < |cs| ==> ReadsAs(cs[i], es[i])
  }

  /** A joined list is read as the left-nested conjunction or disjunction of its clauses. */
  lemma {:induction false} JoinAnd(cs: seq<Compiled>, es: seq<Expr>)
    requires AllRead(cs, es) && |cs| > 0
    ensures AndChain(Join(KwAnd, cs), FoldExpr(KwAnd, es))
  {
    hide ReadsAs, BindsAs, AndChain;
    var n := |cs| - 1;
    ParensBind(cs[n], es[n]);
    if n == 0 {
      BindsAndChain(Parens(cs[0]), es[0]);
    } else {
      JoinAnd(cs[..n], es[..n]);
      AndChainSnoc(Join(KwAnd, cs[..n]), FoldExpr(KwAnd, es[..n]), Parens(cs[n]), es[n]);
    }
  }

  lemma {:induction false} JoinOr(cs: seq<Compiled>, es: seq<Expr>)
    requires AllRead(cs, es) && |cs| > 0
    ensures OrChain(Join(KwOr, cs), FoldExpr(KwOr, es))
  {
    hide ReadsAs, BindsAs, AndChain, OrChain;
    var n := |cs| - 1;
    ParensBind(cs[n], es[n]);
    if n == 0 {
      BindsOrChain(Parens(cs[0]), es[0]);
    } else {
      JoinOr(cs[..n], es[..n]);
      BindsAndChain(Parens(cs[n]), es[n]);
      OrChainSnoc(Join(KwOr, cs[..n]), FoldExpr(KwOr, es[..n]), Parens(cs[n]), es[n]);
    }
  }

  lemma ReadsWhole(c: Compiled, e: Expr)
    requires ReadsAs(c, e)
    ensures ParseWhere(c.sql, c.params) == Some(e)
  {
    assert c.sql + [] == c.sql && c.params + [] == c.params;
    assert Closes([]);
    assert ParseOr(c.sql + [], c.params + []) == Some(Parsed(e, [], []));
  }

  /** As many `?` as parameters. */
  predicate Balanced(c: Compiled) {
    CountParams(c.sql) == |c.params|
  }

  lemma CountOne(t: Token)
    ensures CountParams([t]) == if t == Param then 1 else 0
  {
    assert [t][..0] == [];
  }

  lemma ParensBalanced(c: Compiled)
    requires Balanced(c)
    ensures Balanced(Parens(c))
  {
    CountOne(LParen);
    CountOne(RParen);
    CountConcat([LParen], c.sql);
    CountConcat([LParen] + c.sql, [RParen]);
  }

  lemma InfixBalanced(a: Compiled, op: Token, b: Compiled)
    requires Balanced(a) && Balanced(b) && op != Param
    ensures Balanced(Infix(a, op, b))
  {
    CountOne(op);
    CountConcat(a.sql, [op]);
    CountConcat(a.sql + [op], b.sql);
  }

  lemma {:induction false} JoinBalanced(op: Token, cs: seq<Compiled>)
    requires op != Param && forall i :: 0 <= i < |cs| ==> Balanced(cs[i])
    ensures Balanced(Join(op, cs))
  {
    if |cs| > 0 {
      ParensBalanced(cs[|cs| - 1]);
      if |cs| > 1 {
        JoinBalanced(op, cs[..|cs| - 1]);
        InfixBalanced(Join(op, cs[..|cs| - 1]), op, Parens(cs[|cs| - 1]));
      }
    }
  }

  // ---- What the tests mean ----------------------------------------------------------------

  /** NULL compares to nothing; else equality is sameness and the order is one total order. */
  lemma CompareInPlain(a: SqlValue, b: SqlValue)
    ensures a.Null? || b.Null? ==> forall op: CompareOp :: Compare(op, a, b) == Unknown
    ensures !a.Null? && !b.Null? ==>
              && Compare(Eq, a, b) == Bool3(a == b)
              && Compare(Neq, a, b) == Not3(Compare(Eq, a, b))
              && Compare(Gt, a, b) == Compare(Lt, b, a)
              && Compare(Gte, a, b) == Not3(Compare(Lt, a, b))
              && Compare(Lte, a, b) == Not3(Compare(Gt, a, b))
    ensures a.Integer? && b.Integer? ==> Compare(Lt, a, b) == Bool3(a.i < b.i)
    ensures a.Text? && b.Text? ==> Compare(Lt, a, b) == Bool3(TextLess(a.s, b.s))
    ensures a.Integer? && b.Text? ==> Compare(Lt, a, b) == True
  {
    if a.Text? && b.Text? {
      OrderIsTotal(a.s, b.s);
    }
  }

  /** False, unknown, true: AND is the smaller of two, OR the larger, NOT the other way up. */
  function Degree(t: Tri): nat {
    match t case False => 0 case Unknown => 1 case True => 2
  }

  lemma LogicInPlain(a: Tri, b: Tri)
    ensures Degree(And3(a, b)) == if Degree(a) < Degree(b) then Degree(a) else Degree(b)
    ensures Degree(Or3(a, b)) == if Degree(a) < Degree(b) then Degree(b) else Degree(a)
    ensures Degree(Not3(a)) == 2 - Degree(a)
  {
  }

  /** LIKE sees an integer as its decimal digits, a minus sign before a negative one's. */
  lemma AsTextInPlain(i: int, s: string)
    ensures AsText(Integer(i)) == (if i >= 0 then Show(i) else "-" + Show(0 - i)) && AsText(Text(s)) == s
  {
    hide Show;
  }

  /** Equal but for the case of ASCII letters. */
  predicate SameLetter(a: char, b: char) {
    || a == b
    || ('A' <= a <= 'Z' && a as int + 32 == b as int)
    || ('A' <= b <= 'Z' && b as int + 32 == a as int)
  }

  /** A pattern is read from the left: `%` skips any run, `_` one character, anything else stands for itself. */
  lemma LikeInPlain(rest: string, text: string)
    ensures LikeMatch("", text) <==> text == ""
    ensures LikeMatch("%" + rest, text) <==> exists n :: 0 <= n <= |text| && LikeMatch(rest, text[n..])
    ensures LikeMatch("_" + rest, text) <==> |text| > 0 && LikeMatch(rest, text[1..])
    ensures forall c: char :: c != '%' && c != '_' ==>
              (LikeMatch([c] + rest, text) <==> |text| > 0 && SameLetter(c, text[0]) && LikeMatch(rest, text[1..]))
  {
    LikeRun(rest, text);
    assert ("_" + rest)[1..] == rest;
    forall c: char | c != '%' && c != '_'
      ensures LikeMatch([c] + rest, text) <==> |text| > 0 && SameLetter(c, text[0]) && LikeMatch(rest, text[1..])
    {
      assert ([c] + rest)[1..] == rest;
      if |text| > 0 {
        FoldedLetters(c, text[0]);
      }
    }
  }

  lemma {:induction false} LikeRun(rest: string, text: string)
    ensures LikeMatch("%" + rest, text) <==> exists n :: 0 <= n <= |text| && LikeMatch(rest, text[n..])
    decreases |text|
  {
    var pattern := "%" + rest;
    assert pattern[1..] == rest && text[0..] == text;
    assert LikeMatch(pattern, text) <==> LikeMatch(rest, text) || (|text| > 0 && LikeMatch(pattern, text[1..]));
    hide LikeMatch;
    if |text| > 0 {
      LikeRun(rest, text[1..]);
      if LikeMatch(pattern, text[1..]) {
        var n :| 0 <= n <= |text[1..]| && LikeMatch(rest, text[1..][n..]);
        assert text[1..][n..] == text[n + 1..];
      }
      if n :| 0 < n <= |text| && LikeMatch(rest, text[n..]) {
        assert text[n..] == text[1..][n - 1..];
      }
    }
  }

  lemma FoldedLetters(a: char, b: char)
    ensures Fold(a) == Fold(b) <==> SameLetter(a, b)
  {
  }
}
