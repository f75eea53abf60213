/** The filter query language (`src/domain/query.rs`): whitespace-separated
    `field<op>value` tokens compiled to SQL conditions with bound values. */
module Query {
  import opened Common
  import opened Strings

  datatype Operator = Eq | Neq | Gt | Lt | Gte | Lte | Contains

  /** `Operator::to_sql`. */
  function ToSql(op: Operator): string {
    match op
    case Eq => "="
    case Neq => "!="
    case Gt => ">"
    case Lt => "<"
    case Gte => ">="
    case Lte => "<="
    case Contains => "LIKE"
  }

  /** `Operator::from_str`. */
  function OperatorFromStr(s: string): Option<Operator> {
    match s
    case "=" => Some(Eq)
    case "!=" => Some(Neq)
    case ">" => Some(Gt)
    case "<" => Some(Lt)
    case ">=" => Some(Gte)
    case "<=" => Some(Lte)
    case "contains" => Some(Contains)
    case _ => None
  }

  /** The text the parser looks for in a token to recognise `op`. */
  function Symbol(op: Operator): (r: string)
    ensures r != []
  {
    match op
    case Contains => "contains"
    case _ => ToSql(op)
  }

  /** `from_str` reads back what `to_sql` writes, except for `Contains`,
      which is written `LIKE` and read as "contains". */
  lemma FromStrToSql(op: Operator)
    ensures op != Contains ==> OperatorFromStr(ToSql(op)) == Some(op)
    ensures OperatorFromStr(ToSql(Contains)) == None
  {
  }

  /** `from_str` accepts exactly the symbols the parser searches for. */
  lemma FromStrSymbol(op: Operator, s: string)
    ensures OperatorFromStr(Symbol(op)) == Some(op)
    ensures OperatorFromStr(s) == Some(op) ==> s == Symbol(op)
  {
  }

  /* ---------------------------------------------------------------------- */
  /* Operator detection                                                     */

  /** Position of `op` in the order the parser tries operators: two-character
      operators before their one-character prefixes, "contains" last. */
  function Rank(op: Operator): nat {
    match op
    case Gte => 0
    case Lte => 1
    case Neq => 2
    case Eq => 3
    case Gt => 4
    case Lt => 5
    case Contains => 6
  }

  /** The operator of a token: the highest-ranked one whose symbol occurs in
      it anywhere, or none. */
  function DetectOperator(token: string): (r: Option<Operator>)
    ensures r.Some? ==> Strings.Contains(token, Symbol(r.value))
    ensures r.Some? ==> forall op :: Rank(op) < Rank(r.value) ==> !Strings.Contains(token, Symbol(op))
    ensures r.None? <==> forall op :: !Strings.Contains(token, Symbol(op))
  {
    if Strings.Contains(token, ">=") then Some(Gte)
    else if Strings.Contains(token, "<=") then Some(Lte)
    else if Strings.Contains(token, "!=") then Some(Neq)
    else if Strings.Contains(token, "=") then Some(Eq)
    else if Strings.Contains(token, ">") then Some(Gt)
    else if Strings.Contains(token, "<") then Some(Lt)
    else if Strings.Contains(token, "contains") then Some(Contains)
    else None
  }

  /** The detected operator is the only one that occurs in the token with
      nothing of higher rank occurring. */
  lemma DetectOperatorUnique(token: string, op: Operator)
    requires Strings.Contains(token, Symbol(op))
    requires forall o :: Rank(o) < Rank(op) ==> !Strings.Contains(token, Symbol(o))
    ensures DetectOperator(token) == Some(op)
  {
    var r := DetectOperator(token);
    assert r.Some?;
    if Rank(r.value) < Rank(op) {
    } else if Rank(op) < Rank(r.value) {
    } else {
      assert r.value == op;
    }
  }

  /** Text in which the needle's first character never appears cannot
      contain the needle. */
  lemma NotContainsChar(s: string, n: string)
    requires n != [] && n[0] !in s
    ensures !Strings.Contains(s, n)
  {
    forall i ensures !OccursAt(s, n, i) {
      if 0 <= i && i + |n| <= |s| {
        assert s[i..i + |n|][0] == s[i];
      }
    }
    ContainsIffOccurs(s, n);
  }

  lemma ContainsAt(s: string, n: string, i: nat)
    requires OccursAt(s, n, i)
    ensures Strings.Contains(s, n)
  {
    ContainsIffOccurs(s, n);
  }

  /** `a>=b` is Gte, never Gt or Eq, though ">" and "=" also occur in it. */
  lemma DetectGteFirst()
    ensures DetectOperator("a>=b") == Some(Gte)
    ensures Strings.Contains("a>=b", ">") && Strings.Contains("a>=b", "=")
  {
    assert OccursAt("a>=b", ">=", 1);
    ContainsAt("a>=b", ">=", 1);
    assert OccursAt("a>=b", ">", 1);
    ContainsAt("a>=b", ">", 1);
    assert OccursAt("a>=b", "=", 2);
    ContainsAt("a>=b", "=", 2);
  }

  /* ---------------------------------------------------------------------- */
  /* Tokens                                                                 */

  /** `Filter`: one compiled predicate. */
  datatype Filter = Filter(field: string, op: Operator, value: string)

  /** One token of the loop in `Filter::parse`: detect the operator, then
      split at its first occurrence (`splitn(2, op)`); a token without an
      operator is skipped. */
  function ParseToken(token: string): (r: Option<Filter>)
    ensures r.Some? <==> DetectOperator(token).Some?
    ensures r.Some? ==> r.value.op == DetectOperator(token).value
    ensures r.Some? ==> r.value.field + Symbol(r.value.op) + r.value.value == token
    ensures r.Some? ==> !Strings.Contains(r.value.field, Symbol(r.value.op))
  {
    match DetectOperator(token)
    case None => None
    case Some(op) => SplitToken(token, op)
  }

  /** `splitn(2, op)` on a token that contains the operator: the text before
      its first occurrence and the text after it.  The `parts.len() != 2`
      branch of the source cannot be taken, since the symbol occurs. */
  function SplitToken(token: string, op: Operator): (r: Option<Filter>)
    requires Strings.Contains(token, Symbol(op))
    ensures r.Some? && r.value.op == op
    ensures r.value.field + Symbol(op) + r.value.value == token
    ensures !Strings.Contains(r.value.field, Symbol(op))
  {
    var sym := Symbol(op);
    var i := FindFirst(token, sym).value;
    var field := token[..i];
    assert token == field + sym + token[i + |sym|..];
    FieldBeforeFirst(token, sym, i);
    Some(Filter(field, op, token[i + |sym|..]))
  }

  /** The text before the first occurrence of a needle does not contain it. */
  lemma FieldBeforeFirst(token: string, sym: string, i: nat)
    requires sym != [] && FindFirst(token, sym) == Some(i)
    ensures !Strings.Contains(token[..i], sym)
  {
    var field := token[..i];
    forall j ensures !OccursAt(field, sym, j) {
      if 0 <= j && j + |sym| <= |field| {
        assert field[j..j + |sym|] == token[j..j + |sym|];
        assert !OccursAt(token, sym, j);
      }
    }
    ContainsIffOccurs(field, sym);
  }

  /** The split is determined: a token that is `field`, the detected
      operator's symbol and `value`, with no occurrence of the symbol
      starting inside `field`, parses to exactly that field and value. */
  lemma ParseTokenUnique(token: string, field: string, op: Operator, value: string)
    requires DetectOperator(token) == Some(op)
    requires token == field + Symbol(op) + value
    requires forall j :: 0 <= j < |field| ==> !OccursAt(token, Symbol(op), j)
    ensures ParseToken(token) == Some(Filter(field, op, value))
  {
    var sym := Symbol(op);
    assert OccursAt(token, sym, |field|);
    var i := FindFirst(token, sym).value;
    assert i == |field|;
    assert ParseToken(token) == SplitToken(token, op);
    assert token[..i] == field;
    assert token[i + |sym|..] == value;
  }

  /** In particular when the symbol's first character is absent from `field`. */
  lemma ParseTokenAt(token: string, field: string, op: Operator, value: string)
    requires DetectOperator(token) == Some(op)
    requires token == field + Symbol(op) + value
    requires Symbol(op)[0] !in field
    ensures ParseToken(token) == Some(Filter(field, op, value))
  {
    var sym := Symbol(op);
    forall j | 0 <= j < |field| ensures !OccursAt(token, sym, j) {
      if j + |sym| <= |token| {
        assert token[j..j + |sym|][0] == field[j];
      }
    }
    ParseTokenUnique(token, field, op, value);
  }

  /** The filters one token contributes: its parse, or nothing. */
  function TokenFilters(token: string): (r: seq<Filter>)
    ensures |r| <= 1
  {
    match ParseToken(token)
    case Some(f) => [f]
    case None => []
  }

  /** `Filter::parse` over the whitespace-separated tokens, in order. */
  function ParseTokens(tokens: seq<string>): (r: seq<Filter>)
    ensures |r| <= |tokens|
  {
    if tokens == [] then [] else TokenFilters(tokens[0]) + ParseTokens(tokens[1..])
  }

  /** Parsing is token by token: the filters of a concatenation are the
      filters of each half, in order. */
  lemma {:induction false} ParseTokensAppend(a: seq<string>, b: seq<string>)
    ensures ParseTokens(a + b) == ParseTokens(a) + ParseTokens(b)
    decreases |a|
  {
    if a == [] {
      assert a + b == b;
    } else {
      assert (a + b)[0] == a[0];
      assert (a + b)[1..] == a[1..] + b;
      ParseTokensAppend(a[1..], b);
    }
  }

  /** Every filter comes from a token that parses to it. */
  lemma {:induction false} ParseTokensFrom(tokens: seq<string>, f: Filter)
    requires f in ParseTokens(tokens)
    ensures exists t :: t in tokens && ParseToken(t) == Some(f)
    decreases |tokens|
  {
    if f in TokenFilters(tokens[0]) {
      assert ParseToken(tokens[0]) == Some(f);
    } else {
      ParseTokensFrom(tokens[1..], f);
      var t :| t in tokens[1..] && ParseToken(t) == Some(f);
      assert t in tokens;
    }
  }

  /** `Filter::parse`: never fails; tokens without an operator are dropped. */
  function Parse(input: string): (r: Result<seq<Filter>>)
    ensures r.Ok?
    ensures |r.value| <= |Words(input)|
    ensures Words(input) == [] ==> r.value == []
  {
    Ok(ParseTokens(Words(input)))
  }

  /* ---------------------------------------------------------------------- */
  /* SQL conditions                                                         */

  /** The fields the query language can filter on. */
  const Fields: set<string> := {"status", "priority", "project", "due", "created"}

  /** The column behind a field name; "tag" and unknown names are rejected. */
  function ColumnOf(field: string): (r: Result<string>)
    ensures r.Ok? <==> field in Fields
    ensures r.Err? ==> r.error.Validation?
    ensures r.Ok? ==> r.value != [] && NoWhitespace(r.value)
    ensures field == "status" ==> r == Ok("status")
    ensures field == "priority" ==> r == Ok("priority")
    ensures field == "project" ==> r == Ok("project")
    ensures field == "due" ==> r == Ok("due_date")
    ensures field == "created" ==> r == Ok("created_at")
  {
    match field
    case "status" => Ok("status")
    case "priority" => Ok("priority")
    case "project" => Ok("project")
    case "due" => Ok("due_date")
    case "created" => Ok("created_at")
    case "tag" => Err(Validation("Tag filtering not yet implemented in SQL gen"))
    case _ => Err(Validation("Unknown field: " + field))
  }

  /** Distinct fields name distinct columns. */
  lemma ColumnOfInjective(f: string, g: string)
    requires ColumnOf(f).Ok? && ColumnOf(f) == ColumnOf(g)
    ensures f == g
  {
  }

  /** The value bound to the `?` placeholder. */
  function BoundValue(f: Filter): string {
    if f.op == Contains then "%" + f.value + "%" else f.value
  }

  /** `Filter::to_sql_condition`: the condition text and its bound value. */
  function ToSqlCondition(f: Filter): (r: Result<(string, string)>)
    ensures r.Ok? <==> f.field in Fields
    ensures r.Err? ==> r.error == ColumnOf(f.field).error
    ensures r.Ok? ==> r.value.0 == ColumnOf(f.field).value + " " + ToSql(f.op) + " ?"
    ensures r.Ok? ==> r.value.1 == BoundValue(f)
  {
    var col :- ColumnOf(f.field);
    Ok((col + " " + ToSql(f.op) + " ?", BoundValue(f)))
  }

  lemma ToSqlWords(op: Operator)
    ensures ToSql(op) != [] && NoWhitespace(ToSql(op))
  {
  }

  /** The condition text reads back: its words are the column, the operator
      as `to_sql` writes it, and the placeholder. */
  lemma ConditionWords(f: Filter)
    requires ToSqlCondition(f).Ok?
    ensures Words(ToSqlCondition(f).value.0) == [ColumnOf(f.field).value, ToSql(f.op), "?"]
  {
    var col := ColumnOf(f.field).value;
    ToSqlWords(f.op);
    var ws := [col, ToSql(f.op), "?"];
    assert ws[1..][1..] == ["?"];
    assert Join(ws[1..], " ") == ToSql(f.op) + " " + "?";
    assert Unwords(ws) == col + " " + ToSql(f.op) + " ?";
    WordsUnwords(ws);
  }

  /** The unknown-field and tag errors carry the source's messages. */
  lemma ConditionErrors(f: Filter)
    ensures f.field == "tag" ==>
      ToSqlCondition(f) == Err(Validation("Tag filtering not yet implemented in SQL gen"))
    ensures f.field !in Fields && f.field != "tag" ==>
      ToSqlCondition(f) == Err(Validation("Unknown field: " + f.field))
  {
  }

  /* ---------------------------------------------------------------------- */
  /* Worked examples                                                        */

  /** A token with exactly one '=' and no '<', '>' or '!' is an equality. */
  lemma ParseEqToken(t: string, field: string, value: string)
    requires t == field + "=" + value
    requires '>' !in t && '<' !in t && '!' !in t && '=' !in field
    ensures ParseToken(t) == Some(Filter(field, Eq, value))
  {
    assert OccursAt(t, "=", |field|);
    ContainsAt(t, "=", |field|);
    NotContainsChar(t, ">=");
    NotContainsChar(t, "<=");
    NotContainsChar(t, "!=");
    DetectOperatorUnique(t, Eq);
    ParseTokenAt(t, field, Eq, value);
  }

  lemma ParseGteToken(t: string, field: string, value: string)
    requires t == field + ">=" + value
    requires '>' !in field
    ensures ParseToken(t) == Some(Filter(field, Gte, value))
  {
    assert OccursAt(t, ">=", |field|);
    ContainsAt(t, ">=", |field|);
    DetectOperatorUnique(t, Gte);
    ParseTokenAt(t, field, Gte, value);
  }

  lemma WordsOfTwo(a: string, b: string)
    requires a != [] && NoWhitespace(a) && b != [] && NoWhitespace(b)
    ensures Words(a + " " + b) == [a, b]
  {
    var ws := [a, b];
    assert ws[1..] == [b];
    assert Join([b], " ") == b;
    assert Join(ws, " ") == a + " " + Join([b], " ");
    WordsUnwords(ws);
  }

  lemma ParseTokensOfTwo(a: string, b: string)
    ensures ParseTokens([a, b]) == TokenFilters(a) + TokenFilters(b)
  {
    assert [a, b][1..] == [b];
    assert [b][1..] == [];
  }

  /** A query of two space-separated tokens yields their filters in order. */
  lemma ParseTwoTokens(input: string, a: string, b: string)
    requires a != [] && NoWhitespace(a) && b != [] && NoWhitespace(b)
    requires input == a + " " + b
    ensures Parse(input) == Ok(TokenFilters(a) + TokenFilters(b))
  {
    WordsOfTwo(a, b);
    ParseTokensOfTwo(a, b);
  }

  lemma ParseStatusToken()
    ensures TokenFilters("status=todo") == [Filter("status", Eq, "todo")]
  {
    ParseEqToken("status=todo", "status", "todo");
  }

  lemma ParsePriorityToken()
    ensures TokenFilters("priority>=3") == [Filter("priority", Gte, "3")]
  {
    ParseGteToken("priority>=3", "priority", "3");
  }

  lemma ParseExampleTokens()
    ensures Parse("status=todo priority>=3") == Ok(TokenFilters("status=todo") + TokenFilters("priority>=3"))
  {
    ParseTwoTokens("status=todo priority>=3", "status=todo", "priority>=3");
  }

  /** The whole query of the source's parsing test. */
  lemma ParseExample()
    ensures Parse("status=todo priority>=3")
      == Ok([Filter("status", Eq, "todo"), Filter("priority", Gte, "3")])
  {
    ParseExampleTokens();
    ParseStatusToken();
    ParsePriorityToken();
    Concat2(TokenFilters("status=todo"), TokenFilters("priority>=3"),
      Filter("status", Eq, "todo"), Filter("priority", Gte, "3"));
  }

  lemma Concat2<T>(a: seq<T>, b: seq<T>, x: T, y: T)
    requires a == [x] && b == [y]
    ensures a + b == [x, y]
  {
  }

  /** The split is at the first "=": the value keeps the later ones. */
  lemma ParseSplitsAtFirst()
    ensures ParseToken("a=b=c") == Some(Filter("a", Eq, "b=c"))
  {
    ParseEqToken("a=b=c", "a", "b=c");
  }

  /** A token with none of the operator characters is skipped. */
  lemma ParseSkipsBareWord(t: string)
    requires '>' !in t && '<' !in t && '!' !in t && '=' !in t && 'c' !in t
    ensures ParseToken(t) == None
  {
    forall op ensures !Strings.Contains(t, Symbol(op)) {
      NotContainsChar(t, Symbol(op));
    }
  }

  /** The condition of the source's SQL generation test. */
  lemma ConditionExample()
    ensures ToSqlCondition(Filter("priority", Gt, "2")) == Ok(("priority > ?", "2"))
    ensures ToSqlCondition(Filter("project", Contains, "home")) == Ok(("project LIKE ?", "%home%"))
    ensures ToSqlCondition(Filter("due", Lte, "2024")) == Ok(("due_date <= ?", "2024"))
  {
    assert "priority" + " " + ">" + " ?" == "priority > ?";
    assert "project" + " " + "LIKE" + " ?" == "project LIKE ?";
    assert "%" + "home" + "%" == "%home%";
    assert "due_date" + " " + "<=" + " ?" == "due_date <= ?";
  }
}
