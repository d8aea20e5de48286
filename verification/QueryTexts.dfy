/**
 What the texts of a query string say: each operator by its name, on every row, and the texts of
 `or`, `and`, `order`, `select`, `limit`, `offset` and `count` (rust-core/src/postgrest.rs).
 */
module QueryTexts {
  import opened Strings
  import opened Wrappers
  import opened Sql
  import opened Postgrest
  import opened QueryParams

  // ---- Operators by name --------------------------------------------------------------

  const OPERATORS: seq<string> := ["eq", "neq", "gt", "gte", "lt", "lte", "in", "is", "like", "ilike"]

  /** The same word, letters of either case; `word` is in lower case. */
  predicate SameWord(text: string, word: string) {
    && |text| == |word|
    && forall i :: 0 <= i < |word| ==>
         text[i] == word[i] || ('A' <= text[i] <= 'Z' && text[i] as int + 32 == word[i] as int)
  }

  /** `is` knows these words only. */
  predicate IsWord(value: string) {
    SameWord(value, "null") || SameWord(value, "not.null") || SameWord(value, "notnull")
    || SameWord(value, "true") || SameWord(value, "false")
  }

  /** What a test by this name says of a stored value; integers come before text. */
  ghost function Says(name: string, stored: SqlValue, value: string): Tri
    requires name in OPERATORS
  {
    if name == "is" then
      if SameWord(value, "null") then Bool3(stored == Null)
      else if SameWord(value, "true") then Bool3(stored == Integer(1))
      else if SameWord(value, "false") then Bool3(stored == Integer(0))
      else Bool3(stored != Null)
    else if stored == Null then Unknown
    else if name == "eq" then Bool3(stored == Text(value))
    else if name == "neq" then Bool3(stored != Text(value))
    else if name == "gt" then Bool3(stored.Text? && TextLess(value, stored.s))
    else if name == "gte" then Bool3(stored == Text(value) || (stored.Text? && TextLess(value, stored.s)))
    else if name == "lt" then Bool3(stored.Integer? || TextLess(stored.s, value))
    else if name == "lte" then Bool3(stored == Text(value) || stored.Integer? || TextLess(stored.s, value))
    else if name == "in" then Bool3(exists i :: 0 <= i < |ListItems(value)| && stored == Text(ListItems(value)[i]))
    else Bool3(LikeMatch(value, AsText(stored)))
  }

  /** The operator of a name; only `is` is choosy about its value. */
  ghost predicate Named(name: string, op: FilterOp) {
    || (name == "eq" && op == Compared(Eq)) || (name == "neq" && op == Compared(Neq))
    || (name == "gt" && op == Compared(Gt)) || (name == "gte" && op == Compared(Gte))
    || (name == "lt" && op == Compared(Lt)) || (name == "lte" && op == Compared(Lte))
    || (name == "in" && op == OneOf) || (name == "is" && op == Is)
    || (name == "like" && op == LikeText) || (name == "ilike" && op == IlikeText)
  }

  lemma OperatorNames(name: string)
    requires name in OPERATORS
    ensures ParseOp(name).Success? && Named(name, ParseOp(name).value) && '.' !in name && name != "not"
  {
  }

  lemma {:induction false} LowerWord(text: string, word: string)
    requires forall i :: 0 <= i < |word| ==> !('A' <= word[i] <= 'Z')
    ensures Lower(text) == word <==> SameWord(text, word)
  {
    LowerLength(text);
    if |text| > 0 && |text| == |word| {
      var n := |text| - 1;
      hide SameWord;
      LowerWord(text[..n], word[..n]);
      LowerLength(text[..n]);
      SameWordSnoc(text, word);
      assert Lower(text) == Lower(text[..n]) + [Fold(text[n])];
      assert word == word[..n] + [word[n]];
    } else {
      hide Lower;
    }
  }

  lemma SameWordSnoc(text: string, word: string)
    requires |text| == |word| > 0 && !('A' <= word[|word| - 1] <= 'Z')
    ensures
      var n := |word| - 1;
      SameWord(text, word) <==> SameWord(text[..n], word[..n]) && Fold(text[n]) == word[n]
  {
    var n := |word| - 1;
    assert forall i :: 0 <= i < n ==> text[..n][i] == text[i] && word[..n][i] == word[i];
  }

  lemma {:induction false} LowerLength(text: string)
    ensures |Lower(text)| == |text|
  {
    if |text| > 0 {
      LowerLength(text[..|text| - 1]);
    }
  }

  lemma TestSays(name: string, column: string, op: FilterOp, value: string, row: Row)
    requires name in OPERATORS && Named(name, op) && (name == "is" ==> IsWord(value))
    ensures ConditionMeans(column, op, value, row) == Says(name, Column(row, column), value)
  {
    hide ListItems, LikeMatch, TextLess, Lower, SameWord;
    LowerWord(value, "null");
    LowerWord(value, "true");
    LowerWord(value, "false");
  }

  // ---- Where the operator stands ---------------------------------------------------------

  lemma DotFree(a: string, b: string, v: string)
    requires '.' !in a && '.' !in b && a + "." <= b + "." + v
    ensures a == b
  {
    var t := b + "." + v;
    assert t == b + ['.'] + v;
    CutsThere(b, '.', v);
    assert t == a + ['.'] + t[|a| + 1..];
    CutsThere(a, '.', t[|a| + 1..]);
  }

  lemma {:induction false} PrefixFound(column: string, name: string, value: string, ops: seq<string>)
    requires name in ops && forall i :: 0 <= i < |ops| ==> '.' !in ops[i]
    requires ParseOp(name).Success?
    ensures ParsePrefixed(column, name + "." + value, ops) == Success(Condition(column, ParseOp(name).value, value))
  {
    var text := name + "." + value;
    assert text[..|name| + 1] == name + ".";
    if ops[0] + "." <= text {
      DotFree(ops[0], name, value);
      assert text[|name| + 1..] == value;
    } else {
      assert name in ops[1..];
      PrefixFound(column, name, value, ops[1..]);
    }
  }

  lemma PrefixNames()
    ensures forall i :: 0 <= i < |PREFIX_OPS| ==> '.' !in PREFIX_OPS[i]
    ensures forall name :: name in OPERATORS && name != "eq" ==> name in PREFIX_OPS
  {
  }

  /** `column=op.value` and `column.op=value`, as conditions. */
  lemma ConditionTexts(column: string, name: string, value: string)
    requires '.' !in column && name in OPERATORS
    ensures ParseOp(name).Success?
    ensures ParseCondition(column, name + "." + value) == Success(Condition(column, ParseOp(name).value, value))
    ensures ParseCondition(column + "." + name, value) == Success(Condition(column, ParseOp(name).value, value))
  {
    OperatorNames(name);
    CutsThere(column, '.', name);
    assert column + "." + name == column + ['.'] + name;
    assert (column + "." + name)[|column|] == '.';
    hide ParseOp;
    var text := name + "." + value;
    assert text[..|name| + 1] == name + "." && "eq" + "." == "eq.";
    if "eq." <= text {
      assert '.' !in "eq";
      DotFree("eq", name, value);
      assert text[3..] == value;
    } else {
      assert name != "eq";
      PrefixNames();
      PrefixFound(column, name, value, PREFIX_OPS);
    }
  }

  lemma NotIsNoOperator(name: string, value: string)
    requires name in OPERATORS
    ensures !("not." <= name + "." + value)
  {
    OperatorNames(name);
    if "not." <= name + "." + value {
      assert "not" + "." == "not." && '.' !in "not";
      DotFree("not", name, value);
    }
  }

  lemma DottedIsNoKeyword(key: string)
    requires '.' in key
    ensures !Reserved(key) && key != "or" && key != "and"
  {
    assert '.' !in "select" && '.' !in "limit" && '.' !in "offset" && '.' !in "order" && '.' !in "bookmark";
    assert '.' !in "session" && '.' !in "route_region" && '.' !in "count" && '.' !in "or" && '.' !in "and";
  }

  /** A parameter says the same whatever the others are. */
  lemma EntryAlone(query: map<string, string>, key: string, row: Row)
    requires Parses(query) && key in query && !Reserved(key)
    ensures Parses(map[key := query[key]])
    ensures EntryMeans(query, key, row) == EntryMeans(map[key := query[key]], key, row)
  {
  }

  /** The parameter is accepted and has this meaning on the row. */
  ghost predicate Means1(key: string, value: string, row: Row, meaning: Tri) {
    && !Reserved(key) && Parses(map[key := value])
    && EntryMeans(map[key := value], key, row) == meaning
  }

  lemma EntryIs(key: string, value: string, f: FilterExpr, row: Row)
    requires !Reserved(key) && EntryFilter(key, value) == Success(f)
    ensures Means1(key, value, row, Means(f, row))
  {
  }

  /** One condition as a parameter of its own, and with `not.` before it. */
  lemma SingleEntry(key: string, value: string, f: FilterExpr, row: Row)
    requires !Reserved(key) && key != "or" && key != "and" && ParseCondition(key, value) == Success(f)
    ensures !("not." <= value) ==> Means1(key, value, row, Means(f, row))
    ensures Means1(key, "not." + value, row, Not3(Means(f, row)))
  {
    hide ParseCondition, Reserved;
    var not := "not." + value;
    assert "not." <= not && not[4..] == value;
    assert EntryFilter(key, not) == Success(Negated(f));
    EntryIs(key, not, Negated(f), row);
    if !("not." <= value) {
      EntryIs(key, value, f, row);
    }
  }

  /** `column.op=value`, and with `not.` before the value its negation. */
  lemma KeyedOperator(column: string, name: string, value: string, row: Row)
    requires '.' !in column && name in OPERATORS && (name == "is" ==> IsWord(value))
    ensures !("not." <= value) ==> Means1(column + "." + name, value, row, Says(name, Column(row, column), value))
    ensures Means1(column + "." + name, "not." + value, row, Not3(Says(name, Column(row, column), value)))
  {
    hide ParseOp, ParseCondition, Says, Reserved, ConditionMeans, IsWord, Means1;
    var key := column + "." + name;
    assert key[|column|] == '.';
    DottedIsNoKeyword(key);
    ConditionTexts(column, name, value);
    OperatorNames(name);
    TestSays(name, column, ParseOp(name).value, value, row);
    SingleEntry(key, value, Condition(column, ParseOp(name).value, value), row);
  }

  /** `column=op.value`, and with `not.` before the operator its negation. */
  lemma ValuedOperator(column: string, name: string, value: string, row: Row)
    requires '.' !in column && !Reserved(column) && column != "or" && column != "and"
    requires name in OPERATORS && (name == "is" ==> IsWord(value))
    ensures Means1(column, name + "." + value, row, Says(name, Column(row, column), value))
    ensures Means1(column, "not." + (name + "." + value), row, Not3(Says(name, Column(row, column), value)))
  {
    hide ParseOp, ParseCondition, Says, Reserved, ConditionMeans, IsWord, Means1;
    ConditionTexts(column, name, value);
    OperatorNames(name);
    NotIsNoOperator(name, value);
    TestSays(name, column, ParseOp(name).value, value, row);
    SingleEntry(column, name + "." + value, Condition(column, ParseOp(name).value, value), row);
  }

  // ---- Lists, and the words that are not filters ------------------------------------------

  ghost predicate PlainItem(item: string) {
    ',' !in item && '(' !in item && ')' !in item && Trim(item) == item
  }

  /** The list of an `in` test is the items between the commas, with or without the parentheses. */
  lemma ListTexts(items: seq<string>)
    requires |items| > 0 && forall i :: 0 <= i < |items| ==> PlainItem(items[i])
    ensures ListItems(Joined(items, ',')) == items
    ensures ListItems("(" + Joined(items, ',') + ")") == items
  {
    hide Trim, Split, Joined, DropLeading, DropTrailing;
    var text := Joined(items, ',');
    JoinedLacks(items, '(');
    JoinedLacks(items, ')');
    JoinSplits(items, ',');
    DropsNothing(text);
    DropsParentheses(text);
    assert TrimAll(items) == items;
  }

  lemma DropsParentheses(text: string)
    requires '(' !in text && ')' !in text
    ensures DropTrailing(DropLeading("(" + text + ")", '('), ')') == text
  {
    DropsNothing(text);
    var whole := "(" + text + ")";
    assert whole[1..] == text + ")";
    assert DropLeading(whole, '(') == DropLeading(whole[1..], '(');
    assert (text + ")")[..|text|] == text;
    assert DropTrailing(text + ")", ')') == DropTrailing((text + ")")[..|text|], ')');
  }

  lemma DropsNothing(text: string)
    requires '(' !in text && ')' !in text
    ensures DropLeading(text, '(') == text && DropTrailing(text, ')') == text
    ensures DropLeading(text + ")", '(') == text + ")"
  {
    if |text| > 0 {
      assert text[0] in text && text[|text| - 1] in text && (text + ")")[0] == text[0];
    } else {
      assert text + ")" == ")";
    }
  }

  lemma {:induction false} JoinedLacks(items: seq<string>, c: char)
    requires c != ',' && forall i :: 0 <= i < |items| ==> c !in items[i]
    ensures c !in Joined(items, ',')
  {
    if |items| > 1 {
      JoinedLacks(items[..|items| - 1], c);
    }
  }

  /** Blanks around a text are dropped, and nothing else. */
  lemma TrimsBlanks(before: string, core: string, after: string)
    requires forall i :: 0 <= i < |before| ==> IsSpace(before[i])
    requires forall i :: 0 <= i < |after| ==> IsSpace(after[i])
    requires |core| > 0 && !IsSpace(core[0]) && !IsSpace(core[|core| - 1])
    ensures Trim(before + core + after) == core
  {
    hide IsSpace;
    StartBlanks(before, core + after);
    assert before + (core + after) == before + core + after;
    EndBlanks(core, after);
  }

  lemma {:induction false} StartBlanks(before: string, rest: string)
    requires forall i :: 0 <= i < |before| ==> IsSpace(before[i])
    requires |rest| > 0 && !IsSpace(rest[0])
    ensures TrimStart(before + rest) == rest
  {
    hide IsSpace;
    if |before| == 0 {
      assert before + rest == rest;
    } else {
      StartBlanks(before[1..], rest);
      assert (before + rest)[1..] == before[1..] + rest;
    }
  }

  lemma {:induction false} EndBlanks(core: string, after: string)
    requires forall i :: 0 <= i < |after| ==> IsSpace(after[i])
    requires |core| > 0 && !IsSpace(core[|core| - 1])
    ensures TrimEnd(core + after) == core
  {
    hide IsSpace;
    if |after| == 0 {
      assert core + after == core;
    } else {
      var n := |after| - 1;
      EndBlanks(core, after[..n]);
      assert (core + after)[..|core + after| - 1] == core + after[..n];
    }
  }

  /** The names that are no filters, and no others. */
  lemma Keywords(key: string)
    ensures Reserved(key) <==>
              || key == "select" || key == "limit" || key == "offset" || key == "order" || key == "bookmark"
              || key == "session" || key == "route_region" || key == "count"
  {
  }

  lemma NumberTexts(query: map<string, string>, key: string, other: nat, n: nat)
    requires n < 0x1_0000_0000_0000_0000
    ensures key in query && query[key] == Show(n) ==> NumberParam(query, key, other) == n
    ensures key !in query || query[key] == "" || !IsDigit(query[key][|query[key]| - 1]) ==> NumberParam(query, key, other) == other
  {
    ShowParses(n);
  }

  lemma CountTexts(query: map<string, string>)
    ensures "count" !in query ==> CountParam(query) == NoCount
    ensures "count" in query && query["count"] == "exact" ==> CountParam(query) == Exact
    ensures "count" in query && query["count"] == "planned" ==> CountParam(query) == Planned
    ensures "count" in query && query["count"] == "estimated" ==> CountParam(query) == Estimated
    ensures "count" in query && query["count"] !in ["exact", "planned", "estimated"] ==> CountParam(query) == NoCount
  {
    var words := ["exact", "planned", "estimated"];
    assert words[0] in words && words[1] in words && words[2] in words;
  }

  /** `select` lists the columns; an empty text or a star asks for all of them. */
  lemma SelectTexts(query: map<string, string>, names: seq<string>)
    requires forall i :: 0 <= i < |names| ==> ',' !in names[i] && |names[i]| > 0 && Trim(names[i]) == names[i]
    ensures "select" !in query || query["select"] == "" || query["select"] == "*" ==> SelectParam(query) == []
    ensures "select" in query && |names| > 0 && query["select"] == Joined(names, ',') && query["select"] != "*" ==>
              SelectParam(query) == names
  {
    hide Trim;
    if |names| > 0 {
      JoinSplits(names, ',');
      assert TrimAll(names) == names;
      NothingEmpty(names);
      JoinedNonEmpty(names);
    }
  }

  lemma {:induction false} NothingEmpty(names: seq<string>)
    requires forall i :: 0 <= i < |names| ==> |names[i]| > 0
    ensures NonEmpty(names) == names
  {
    if |names| > 0 {
      NothingEmpty(names[..|names| - 1]);
      assert names == names[..|names| - 1] + [names[|names| - 1]];
    }
  }

  lemma JoinedNonEmpty(names: seq<string>)
    requires |names| > 0 && forall i :: 0 <= i < |names| ==> |names[i]| > 0
    ensures |Joined(names, ',')| > 0
  {
  }

  // ---- Order -----------------------------------------------------------------------------

  /** The text of one clause asks for this column, this way round, with nulls there. */
  ghost predicate Orders(text: string, o: OrderClause) {
    var column := o.column;
    && |column| > 0 && '.' !in column && ',' !in column
    && match o
       case OrderClause(_, Asc, NullsDefault) => text == column || text == column + "." + "asc"
       case OrderClause(_, Desc, NullsDefault) => text == column + "." + "desc"
       case OrderClause(_, Asc, NullsFirst) => text == column + "." + "asc" + "." + "nullsfirst"
       case OrderClause(_, Desc, NullsFirst) => text == column + "." + "desc" + "." + "nullsfirst"
       case OrderClause(_, Asc, NullsLast) => text == column + "." + "asc" + "." + "nullslast"
       case OrderClause(_, Desc, NullsLast) => text == column + "." + "desc" + "." + "nullslast"
  }

  lemma ClauseParses(text: string, o: OrderClause)
    requires Orders(Trim(text), o)
    ensures ParseOrderClause(text) == Success(o)
  {
    hide Trim, Split;
    OrderWords();
    var way, nulls := if o.direction.Asc? then "asc" else "desc", if o.nulls.NullsFirst? then "nullsfirst" else "nullslast";
    ClauseSplits(o.column, way, nulls);
  }

  lemma OrderWords()
    ensures "asc" != "desc" && "nullsfirst" != "nullslast"
    ensures '.' !in "asc" && '.' !in "desc" && '.' !in "nullsfirst" && '.' !in "nullslast"
  {
    assert |"asc"| == 3 && |"desc"| == 4 && |"nullsfirst"| == 10 && |"nullslast"| == 9;
  }

  lemma ClauseSplits(column: string, way: string, nulls: string)
    requires '.' !in column && '.' !in way && '.' !in nulls
    ensures Split(column, '.') == [column]
    ensures Split(column + "." + way, '.') == [column, way]
    ensures Split(column + "." + way + "." + nulls, '.') == [column, way, nulls]
  {
    SplitPlain(column, '.');
    SplitSnoc(column, '.', way);
    SplitSnoc(column + ['.'] + way, '.', nulls);
  }

  /** `order` lists the clauses, in order. */
  lemma OrderTexts(query: map<string, string>, texts: seq<string>, order: seq<OrderClause>)
    requires |texts| == |order| > 0 && forall i :: 0 <= i < |texts| ==> ',' !in texts[i] && Orders(Trim(texts[i]), order[i])
    requires "order" in query && query["order"] == Joined(texts, ',')
    ensures OrderParam(query) == Success(order)
  {
    hide Trim, Orders, ParseOrderClause;
    JoinSplits(texts, ',');
    ClausesParse(texts, order);
    if Joined(texts, ',') == "" {
      EmptyAlone(texts);
      EmptyOrdersNothing(order[0]);
    }
  }

  lemma {:induction false} ClausesParse(texts: seq<string>, order: seq<OrderClause>)
    requires |texts| == |order| && forall i :: 0 <= i < |texts| ==> Orders(Trim(texts[i]), order[i])
    ensures ParseOrderClauses(texts) == Success(order)
  {
    hide Trim, Orders, ParseOrderClause;
    if |texts| > 0 {
      var n := |texts| - 1;
      ClausesParse(texts[..n], order[..n]);
      ClauseParses(texts[n], order[n]);
      assert order == order[..n] + [order[n]];
    }
  }

  lemma EmptyAlone(texts: seq<string>)
    requires |texts| > 0 && Joined(texts, ',') == ""
    ensures texts == [""]
  {
  }

  lemma EmptyOrdersNothing(o: OrderClause)
    ensures !Orders(Trim(""), o)
  {
  }

  // ---- Or and and -------------------------------------------------------------------------

  /** One part of an `or` or `and` list: a column, an operator by name, and a value. */
  datatype Part = Part(column: string, name: string, value: string)

  ghost predicate PlainPart(p: Part) {
    && '.' !in p.column && '=' !in p.column && p.name in OPERATORS && (p.name == "is" ==> IsWord(p.value))
  }

  /** `column=op.value` or `column.op=value`. */
  ghost predicate Spells(text: string, p: Part) {
    text == p.column + "=" + (p.name + "." + p.value) || text == p.column + "." + p.name + "=" + p.value
  }

  /** An `or` part may also be `column.op.value`, or `column.value` for equality, with no `=` in it. */
  ghost predicate SpellsOr(text: string, p: Part) {
    || Spells(text, p)
    || ('=' !in p.value && text == p.column + "." + p.name + "." + p.value)
    || ('=' !in p.value && '.' !in p.value && p.name == "eq" && text == p.column + "." + p.value)
  }

  ghost function PartSays(p: Part, row: Row): Tri
    requires PlainPart(p)
  {
    Says(p.name, Column(row, p.column), p.value)
  }

  lemma AssignedParses(text: string, p: Part)
    requires PlainPart(p) && Spells(text, p)
    ensures '=' in text && ParseOp(p.name).Success?
    ensures ParseCondition(CutAt(text, '=').0, CutAt(text, '=').1) == Success(Condition(p.column, ParseOp(p.name).value, p.value))
  {
    hide ParseOp, ParseCondition;
    ConditionTexts(p.column, p.name, p.value);
    OperatorNames(p.name);
    EqualsFree(p.name);
    var keyed := p.column + "." + p.name;
    assert '=' !in keyed;
    CutsThere(p.column, '=', p.name + "." + p.value);
    CutsThere(keyed, '=', p.value);
    assert p.column + "=" + (p.name + "." + p.value) == p.column + ['='] + (p.name + "." + p.value);
    assert keyed + "=" + p.value == keyed + ['='] + p.value;
    if text == p.column + "=" + (p.name + "." + p.value) {
      assert text[|p.column|] == '=';
    } else {
      assert text[|keyed|] == '=';
    }
  }

  lemma EqualsFree(name: string)
    requires name in OPERATORS
    ensures '=' !in name
  {
  }

  lemma OrPartParses(text: string, p: Part)
    requires PlainPart(p) && SpellsOr(Trim(text), p)
    ensures ParseOp(p.name).Success?
    ensures ParseOrSegment(text) == Success(Condition(p.column, ParseOp(p.name).value, p.value))
  {
    hide Trim, ParseOp, ParseCondition, IsWord;
    var t := Trim(text);
    ConditionTexts(p.column, p.name, p.value);
    if Spells(t, p) {
      AssignedParses(t, p);
    } else {
      OperatorNames(p.name);
      EqualsFree(p.name);
      if t == p.column + "." + p.name + "." + p.value {
        DottedPart(t, p);
      } else {
        EqIsEquality();
        assert t == p.column + ['.'] + p.value && t[|p.column|] == '.';
        CutsThere(p.column, '.', p.value);
      }
    }
  }

  lemma EqIsEquality()
    ensures ParseOp("eq") == Success(Compared(Eq))
  {
  }

  lemma DottedPart(t: string, p: Part)
    requires PlainPart(p) && '=' !in p.value && '=' !in p.name && '.' !in p.name
    requires t == p.column + "." + p.name + "." + p.value
    ensures '=' !in t && '.' in t
    ensures CutAt(t, '.') == (p.column, p.name + "." + p.value)
    ensures '.' in p.name + "." + p.value && CutAt(p.name + "." + p.value, '.') == (p.name, p.value)
  {
    var rest := p.name + "." + p.value;
    assert rest == p.name + ['.'] + p.value && rest[|p.name|] == '.';
    assert t == p.column + ['.'] + rest && t[|p.column|] == '.';
    CutsThere(p.column, '.', rest);
    CutsThere(p.name, '.', p.value);
  }

  lemma AndPartParses(text: string, p: Part)
    requires PlainPart(p) && Spells(Trim(text), p)
    ensures ParseOp(p.name).Success?
    ensures ParseAndSegment(text) == Success(Condition(p.column, ParseOp(p.name).value, p.value))
  {
    hide Trim, ParseOp, ParseCondition;
    AssignedParses(Trim(text), p);
  }

  /** Every part of the list is spelled so. */
  ghost predicate Lists(texts: seq<string>, parts: seq<Part>, conjunction: bool) {
    && |texts| == |parts|
    && forall i :: 0 <= i < |parts| ==>
         && ',' !in texts[i] && PlainPart(parts[i])
         && (if conjunction then Spells(Trim(texts[i]), parts[i]) else SpellsOr(Trim(texts[i]), parts[i]))
  }

  lemma {:induction false} SegmentsSay(texts: seq<string>, parts: seq<Part>, conjunction: bool, row: Row)
    requires Lists(texts, parts, conjunction)
    ensures ParseSegments(texts, conjunction).Success?
    ensures
      var fs := ParseSegments(texts, conjunction).value;
      forall i :: 0 <= i < |parts| ==> Means(fs[i], row) == PartSays(parts[i], row)
  {
    hide Trim, ParseOp, Spells, SpellsOr, ParseOrSegment, ParseAndSegment, Says, ConditionMeans, IsWord;
    if |texts| > 0 {
      var n := |texts| - 1;
      SegmentsSay(texts[..n], parts[..n], conjunction, row);
      var p := parts[n];
      if conjunction {
        AndPartParses(texts[n], p);
      } else {
        OrPartParses(texts[n], p);
      }
      OperatorNames(p.name);
      TestSays(p.name, p.column, ParseOp(p.name).value, p.value, row);
    }
  }

  lemma {:induction false} AnyMeanValues(fs: seq<FilterExpr>, row: Row)
    ensures AnyMean(fs, row) == True <==> exists i :: 0 <= i < |fs| && Means(fs[i], row) == True
    ensures AnyMean(fs, row) == False <==> forall i :: 0 <= i < |fs| ==> Means(fs[i], row) == False
  {
    hide Means;
    if |fs| > 0 {
      var n := |fs| - 1;
      AnyMeanValues(fs[..n], row);
      assert forall i :: 0 <= i < n ==> fs[..n][i] == fs[i];
    }
  }

  /** `or` means that some part does. */
  lemma OrParam(texts: seq<string>, parts: seq<Part>, row: Row)
    requires |texts| > 0 && Lists(texts, parts, false)
    ensures exists t: Tri ::
              && Means1("or", Joined(texts, ','), row, t)
              && (t == True <==> exists i :: 0 <= i < |parts| && PartSays(parts[i], row) == True)
              && (t == False <==> forall i :: 0 <= i < |parts| ==> PartSays(parts[i], row) == False)
  {
    hide Trim, Says, ConditionMeans, ParseSegments, PlainPart, Spells, SpellsOr, Reserved, Split, Joined, Means1;
    JoinSplits(texts, ',');
    SegmentsSay(texts, parts, false, row);
    var fs := ParseSegments(texts, false).value;
    AnyMeanValues(fs, row);
    KeywordsAside();
    EntryIs("or", Joined(texts, ','), Any(fs), row);
  }

  /** `and` means that every part does. */
  lemma AndParam(texts: seq<string>, parts: seq<Part>, row: Row)
    requires |texts| > 0 && Lists(texts, parts, true)
    ensures exists t: Tri ::
              && Means1("and", Joined(texts, ','), row, t)
              && (t == True <==> forall i :: 0 <= i < |parts| ==> PartSays(parts[i], row) == True)
              && (t == False <==> exists i :: 0 <= i < |parts| && PartSays(parts[i], row) == False)
  {
    hide Trim, Says, ConditionMeans, ParseSegments, PlainPart, Spells, SpellsOr, Reserved, Split, Joined, Means1;
    JoinSplits(texts, ',');
    SegmentsSay(texts, parts, true, row);
    var fs := ParseSegments(texts, true).value;
    AllMeanValues(fs, row);
    KeywordsAside();
    EntryIs("and", Joined(texts, ','), All(fs), row);
  }

  lemma KeywordsAside()
    ensures !Reserved("or") && !Reserved("and") && "and" != "or"
  {
    assert |"or"| == 2 && |"and"| == 3;
  }
}
