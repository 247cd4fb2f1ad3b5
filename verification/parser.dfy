/**
 * The recursive-descent parser over the token sequence.
 *
 * A `Parser` holds the tokens and a position that only moves forward. Each
 * parsing routine is a method that moves the position and returns a value
 * or an error; each is proved to do exactly what a function of the tokens
 * and the starting position says (`ParseAt`, `CreateTableAt`, ...), which
 * gives the result and the position it stops at. The lemmas say what those
 * functions mean: which command each keyword yields, the shape of column
 * definitions, `SELECT *`, positional INSERT rows, last-wins SET clauses,
 * qualified join columns, and the decimal conversion of number tokens.
 *
 * Nothing after a complete command is looked at: CREATE TABLE and INSERT
 * stop on their closing parenthesis without consuming it.
 */
module Parsing {
  import opened Values
  import opened Tokenizer
  import opened Ast
  import Tables
  import Crud
  import Join

  datatype ParseError =
    | EmptyInput
    | ExpectedCommandKeyword(got: string)
    | UnknownCommand(keyword: string)
    | ExpectedIdentifier(found: Token)
    | ExpectedKeyword(found: Token)
    | ExpectedValue(found: Token)
    | InvalidNumber(text: string)
    | UnexpectedKeyword(text: string)
    | Expected(what: string)
    | ColumnCountMismatch
    | ColumnsRequired

  /** What a parsing routine produces from a position: its value or error, and where the position ends up. */
  datatype Step<+T> = Step(result: Result<T, ParseError>, next: nat)

  // ---------------------------------------------------------------------
  // Looking at the current token
  // ---------------------------------------------------------------------

  /** The token at `p`; an EOF token past the end. */
  function Current(ts: seq<Token>, p: nat): Token
  {
    if p < |ts| then ts[p] else EOF
  }

  predicate Match(ts: seq<Token>, p: nat, kind: TokenType)
  {
    Current(ts, p).kind == kind
  }

  /** A keyword token spelling `keyword` in any letter case. */
  predicate MatchKeyword(ts: seq<Token>, p: nat, keyword: string)
  {
    Match(ts, p, KeywordToken) && Upper(Current(ts, p).value) == Upper(keyword)
  }

  predicate MatchOperator(ts: seq<Token>, p: nat, op: string)
  {
    Match(ts, p, OperatorToken) && Current(ts, p).value == op
  }

  /** A matched token is a real one: the EOF returned past the end matches no other kind. */
  lemma MatchInside(ts: seq<Token>, p: nat, kind: TokenType)
    requires Match(ts, p, kind) && kind != EOFToken
    ensures p < |ts| && ts[p].kind == kind
  {
  }

  function ExpectIdentifierAt(ts: seq<Token>, p: nat): Step<string>
  {
    if Match(ts, p, IdentifierToken) then Step(Ok(Current(ts, p).value), p + 1)
    else Step(Err(ExpectedIdentifier(Current(ts, p))), p)
  }

  function ExpectKeywordAt(ts: seq<Token>, p: nat): Step<string>
  {
    if Match(ts, p, KeywordToken) then Step(Ok(Current(ts, p).value), p + 1)
    else Step(Err(ExpectedKeyword(Current(ts, p))), p)
  }

  // ---------------------------------------------------------------------
  // Decimal integers (strconv.Atoi on a 64-bit int)
  // ---------------------------------------------------------------------

  const MaxInt: int := 0x7fff_ffff_ffff_ffff
  const MinInt: int := -0x8000_0000_0000_0000

  predicate AllDigits(s: string)
  {
    forall k :: 0 <= k < |s| ==> IsDigit(s[k])
  }

  /** The number a run of decimal digits spells, most significant digit first. */
  function DigitsValue(s: string): nat
    requires AllDigits(s)
  {
    if s == [] then 0 else DigitsValue(s[..|s| - 1]) * 10 + (s[|s| - 1] as int - '0' as int)
  }

  /** An optional sign then one or more decimal digits, within the range of a 64-bit int; None otherwise. */
  function Atoi(s: string): Option<int>
  {
    var signed := |s| > 0 && (s[0] == '+' || s[0] == '-');
    var digits := if signed then s[1..] else s;
    if digits == [] || !AllDigits(digits) then None
    else
      var n: int := if signed && s[0] == '-' then -(DigitsValue(digits) as int) else DigitsValue(digits);
      if MinInt <= n <= MaxInt then Some(n) else None
  }

  function DigitChar(d: nat): char
    requires d < 10
  {
    ('0' as int + d) as char
  }

  /** The shortest decimal spelling of `n`. */
  function Decimal(n: nat): string
  {
    if n < 10 then [DigitChar(n)] else Decimal(n / 10) + [DigitChar(n % 10)]
  }

  /** `Decimal(n)` is a non-empty digit run that spells `n`. */
  lemma {:induction false} DecimalDigits(n: nat)
    ensures Decimal(n) != [] && AllDigits(Decimal(n)) && DigitsValue(Decimal(n)) == n
  {
    if n >= 10 {
      DecimalDigits(n / 10);
      var s := Decimal(n);
      assert s[..|s| - 1] == Decimal(n / 10);
    }
  }

  /**
   * An unsigned run of digits, leading zeros included, reads as the number
   * it spells, and fails exactly above 2^63 - 1.
   */
  lemma AtoiDigits(s: string)
    requires s != [] && AllDigits(s)
    ensures Atoi(s) == if DigitsValue(s) <= MaxInt then Some(DigitsValue(s) as int) else None
  {
    assert IsDigit(s[0]);
  }

  /** Atoi reads back the shortest decimal spelling of a non-negative number, and fails exactly above 2^63 - 1. */
  lemma AtoiDecimal(n: nat)
    ensures Atoi(Decimal(n)) == if n <= MaxInt then Some(n) else None
  {
    DecimalDigits(n);
    assert IsDigit(Decimal(n)[0]);
  }

  /** With a minus sign in front, Atoi reads back down to -2^63 and fails below it. */
  lemma AtoiNegative(n: nat)
    ensures Atoi("-" + Decimal(n)) == if n <= -MinInt then Some(-(n as int)) else None
  {
    DecimalDigits(n);
    assert ("-" + Decimal(n))[1..] == Decimal(n);
  }

  // ---------------------------------------------------------------------
  // Values
  // ---------------------------------------------------------------------

  /**
   * A literal: a quoted string, a number (read by Atoi; a failure still
   * consumes the token), or the NULL keyword. Any other keyword or token is
   * an error that consumes nothing.
   */
  function ExpectValueAt(ts: seq<Token>, p: nat): Step<Value>
  {
    var t := Current(ts, p);
    match t.kind
    case StringToken => Step(Ok(Str(t.value)), p + 1)
    case NumberToken =>
      (match Atoi(t.value)
       case Some(n) => Step(Ok(Int(n)), p + 1)
       case None => Step(Err(InvalidNumber(t.value)), p + 1))
    case KeywordToken =>
      if Upper(t.value) == "NULL" then Step(Ok(Null), p + 1)
      else Step(Err(UnexpectedKeyword(t.value)), p)
    case _ => Step(Err(ExpectedValue(t)), p)
  }

  /** A number token spelling `n` becomes the integer `n`, or an invalid-number error above 2^63 - 1. */
  lemma ExpectNumber(ts: seq<Token>, p: nat, n: nat)
    requires Current(ts, p) == Token(NumberToken, Decimal(n))
    ensures ExpectValueAt(ts, p) ==
      if n <= MaxInt then Step(Ok(Int(n)), p + 1) else Step(Err(InvalidNumber(Decimal(n))), p + 1)
  {
    AtoiDecimal(n);
  }

  // ---------------------------------------------------------------------
  // Comma-separated lists
  // ---------------------------------------------------------------------

  /** `acc` in front of a successful list; an error passes through. */
  function Prepend<T>(acc: seq<T>, s: Step<seq<T>>): Step<seq<T>>
  {
    if s.result.Ok? then Step(Ok(acc + s.result.value), s.next) else s
  }

  lemma PrependNothing<T>(s: Step<seq<T>>)
    ensures Prepend([], s) == s
  {
    if s.result.Ok? {
      assert [] + s.result.value == s.result.value;
    }
  }

  lemma PrependTwice<T>(a: seq<T>, b: seq<T>, s: Step<seq<T>>)
    ensures Prepend(a, Prepend(b, s)) == Prepend(a + b, s)
  {
    if s.result.Ok? {
      assert a + (b + s.result.value) == a + b + s.result.value;
    }
  }

  /** One or more identifiers separated by commas. */
  function IdentifierListAt(ts: seq<Token>, p: nat): (r: Step<seq<string>>)
    ensures r.result.Ok? ==> |r.result.value| >= 1
    decreases |ts| - p
  {
    var id := ExpectIdentifierAt(ts, p);
    if id.result.Err? then Step(Err(id.result.error), id.next)
    else if Match(ts, id.next, CommaToken) then Prepend([id.result.value], IdentifierListAt(ts, id.next + 1))
    else Step(Ok([id.result.value]), id.next)
  }

  /** One or more values separated by commas. */
  function ValueListAt(ts: seq<Token>, p: nat): (r: Step<seq<Value>>)
    ensures r.result.Ok? ==> |r.result.value| >= 1
    decreases |ts| - p
  {
    var v := ExpectValueAt(ts, p);
    if v.result.Err? then Step(Err(v.result.error), v.next)
    else if Match(ts, v.next, CommaToken) then Prepend([v.result.value], ValueListAt(ts, v.next + 1))
    else Step(Ok([v.result.value]), v.next)
  }

  // ---------------------------------------------------------------------
  // Column definitions
  // ---------------------------------------------------------------------

  /**
   * The PRIMARY KEY / UNIQUE / NOT NULL modifiers after a column type, in
   * any order and number. PRIMARY KEY sets PrimaryKey and NotNull, UNIQUE
   * sets Unique, NOT NULL sets NotNull; a PRIMARY or NOT without its second
   * word is skipped. Flags are only ever set, never cleared.
   */
  function ModifiersAt(ts: seq<Token>, p: nat, col: Tables.Column): (r: (Tables.Column, nat))
    ensures p <= r.1
    ensures r.0.name == col.name && r.0.colType == col.colType
    ensures (col.primaryKey ==> r.0.primaryKey) && (col.unique ==> r.0.unique) && (col.notNull ==> r.0.notNull)
    ensures (col.primaryKey ==> col.notNull) ==> (r.0.primaryKey ==> r.0.notNull)
    decreases |ts| - p
  {
    if MatchKeyword(ts, p, "PRIMARY") then
      if MatchKeyword(ts, p + 1, "KEY") then ModifiersAt(ts, p + 2, col.(primaryKey := true, notNull := true))
      else ModifiersAt(ts, p + 1, col)
    else if MatchKeyword(ts, p, "UNIQUE") then ModifiersAt(ts, p + 1, col.(unique := true))
    else if MatchKeyword(ts, p, "NOT") then
      if MatchKeyword(ts, p + 1, "NULL") then ModifiersAt(ts, p + 2, col.(notNull := true))
      else ModifiersAt(ts, p + 1, col)
    else (col, p)
  }

  /** `PRIMARY KEY` at `k`. */
  predicate PrimaryKeyAt(ts: seq<Token>, k: nat)
  {
    MatchKeyword(ts, k, "PRIMARY") && MatchKeyword(ts, k + 1, "KEY")
  }

  /** `NOT NULL` at `k`. */
  predicate NotNullAt(ts: seq<Token>, k: nat)
  {
    MatchKeyword(ts, k, "NOT") && MatchKeyword(ts, k + 1, "NULL")
  }

  /** A keyword token whose upper-cased text is `word`, which is written in upper case. */
  predicate KeywordIs(ts: seq<Token>, k: nat, word: string)
  {
    Match(ts, k, KeywordToken) && Upper(Current(ts, k).value) == word
  }

  /** PRIMARY KEY makes the column a primary key and NOT NULL. */
  lemma ModifierPrimaryKey(ts: seq<Token>, p: nat, col: Tables.Column)
    requires KeywordIs(ts, p, "PRIMARY") && KeywordIs(ts, p + 1, "KEY")
    ensures ModifiersAt(ts, p, col).0.primaryKey && ModifiersAt(ts, p, col).0.notNull
  {
    UpperKeeps("PRIMARY");
    UpperKeeps("KEY");
  }

  /** UNIQUE makes the column unique. */
  lemma ModifierUnique(ts: seq<Token>, p: nat, col: Tables.Column)
    requires KeywordIs(ts, p, "UNIQUE")
    ensures ModifiersAt(ts, p, col).0.unique
  {
    UpperKeeps("PRIMARY");
    UpperKeeps("UNIQUE");
  }

  /** NOT NULL makes the column NOT NULL. */
  lemma ModifierNotNull(ts: seq<Token>, p: nat, col: Tables.Column)
    requires KeywordIs(ts, p, "NOT") && KeywordIs(ts, p + 1, "NULL")
    ensures ModifiersAt(ts, p, col).0.notNull
  {
    UpperKeeps("PRIMARY");
    UpperKeeps("UNIQUE");
    UpperKeeps("NOT");
    UpperKeeps("NULL");
  }

  /** Without a modifier keyword the column is left as it is and nothing is consumed. */
  lemma ModifierNone(ts: seq<Token>, p: nat, col: Tables.Column)
    requires !KeywordIs(ts, p, "PRIMARY") && !KeywordIs(ts, p, "UNIQUE") && !KeywordIs(ts, p, "NOT")
    ensures ModifiersAt(ts, p, col) == (col, p)
  {
    UpperKeeps("PRIMARY");
    UpperKeeps("UNIQUE");
    UpperKeeps("NOT");
  }

  /**
   * A flag is set only when the column already had it or a modifier that
   * sets it lies among the tokens consumed: PRIMARY KEY for primaryKey,
   * UNIQUE for unique, PRIMARY KEY or NOT NULL for notNull.
   */
  lemma {:induction false} ModifiersOnlyFromKeywords(ts: seq<Token>, p: nat, col: Tables.Column)
    ensures var r := ModifiersAt(ts, p, col);
      && (r.0.primaryKey ==> col.primaryKey || exists k :: p <= k && k + 2 <= r.1 && PrimaryKeyAt(ts, k))
      && (r.0.unique ==> col.unique || exists k :: p <= k < r.1 && MatchKeyword(ts, k, "UNIQUE"))
      && (r.0.notNull ==> col.notNull || exists k :: p <= k && k + 2 <= r.1 && (PrimaryKeyAt(ts, k) || NotNullAt(ts, k)))
    decreases |ts| - p
  {
    if MatchKeyword(ts, p, "PRIMARY") {
      if MatchKeyword(ts, p + 1, "KEY") {
        ModifiersOnlyFromKeywords(ts, p + 2, col.(primaryKey := true, notNull := true));
        assert PrimaryKeyAt(ts, p);
      } else {
        ModifiersOnlyFromKeywords(ts, p + 1, col);
      }
    } else if MatchKeyword(ts, p, "UNIQUE") {
      ModifiersOnlyFromKeywords(ts, p + 1, col.(unique := true));
    } else if MatchKeyword(ts, p, "NOT") {
      if MatchKeyword(ts, p + 1, "NULL") {
        ModifiersOnlyFromKeywords(ts, p + 2, col.(notNull := true));
        assert NotNullAt(ts, p);
      } else {
        ModifiersOnlyFromKeywords(ts, p + 1, col);
      }
    }
  }

  /**
   * One `name TYPE modifiers` definition: the name is an identifier, the type
   * any keyword, upper-cased, and the modifiers after them start from a
   * column with no flags set. The column's type is upper-case, and it is NOT
   * NULL when it is a primary key.
   */
  function ColumnDefAt(ts: seq<Token>, p: nat): (r: Step<Tables.Column>)
    ensures r.result.Ok? ==> p + 2 <= r.next && Upper(r.result.value.colType) == r.result.value.colType
    ensures r.result.Ok? ==> r.result.value.primaryKey ==> r.result.value.notNull
    ensures r.result.Ok? ==>
      && Match(ts, p, IdentifierToken) && Match(ts, p + 1, KeywordToken)
      && (r.result.value, r.next) ==
           ModifiersAt(ts, p + 2, Tables.Column(Current(ts, p).value, Upper(Current(ts, p + 1).value), false, false, false))
  {
    var name := ExpectIdentifierAt(ts, p);
    if name.result.Err? then Step(Err(name.result.error), name.next)
    else
      var ty := ExpectKeywordAt(ts, name.next);
      if ty.result.Err? then Step(Err(ty.result.error), ty.next)
      else
        UpperIdempotent(ty.result.value);
        var (col, q) := ModifiersAt(ts, ty.next, Tables.Column(name.result.value, Upper(ty.result.value), false, false, false));
        Step(Ok(col), q)
  }

  /** One or more column definitions separated by commas. */
  function ColumnDefsAt(ts: seq<Token>, p: nat): (r: Step<seq<Tables.Column>>)
    ensures r.result.Ok? ==> |r.result.value| >= 1
    decreases |ts| - p
  {
    var col := ColumnDefAt(ts, p);
    if col.result.Err? then Step(Err(col.result.error), col.next)
    else if Match(ts, col.next, CommaToken) then Prepend([col.result.value], ColumnDefsAt(ts, col.next + 1))
    else Step(Ok([col.result.value]), col.next)
  }

  /** Every parsed column has an upper-case type, and a primary-key column is also NOT NULL. */
  lemma {:induction false} ColumnDefsShape(ts: seq<Token>, p: nat)
    ensures var r := ColumnDefsAt(ts, p);
      r.result.Ok? ==> forall c :: c in r.result.value ==> Upper(c.colType) == c.colType && (c.primaryKey ==> c.notNull)
    decreases |ts| - p
  {
    var col := ColumnDefAt(ts, p);
    if col.result.Ok? && Match(ts, col.next, CommaToken) {
      ColumnDefsShape(ts, col.next + 1);
    }
  }

  // ---------------------------------------------------------------------
  // Conditions and SET clauses
  // ---------------------------------------------------------------------

  /** The operator a condition's operator text denotes; text the evaluator does not know is kept as written. */
  function OperatorOf(text: string): Crud.Operator
  {
    if text == "=" then Crud.Eq
    else if text == "!=" then Crud.Ne
    else if text == ">" then Crud.Gt
    else if text == "<" then Crud.Lt
    else if text == ">=" then Crud.Ge
    else if text == "<=" then Crud.Le
    else Crud.Other(text)
  }

  /** The text of an operator. */
  function OperatorText(op: Crud.Operator): string
  {
    match op
    case Eq => "="
    case Ne => "!="
    case Gt => ">"
    case Lt => "<"
    case Ge => ">="
    case Le => "<="
    case Other(symbol) => symbol
  }

  /** No operator text is lost: the condition keeps exactly what was written. */
  lemma OperatorRoundTrip(text: string)
    ensures OperatorText(OperatorOf(text)) == text
    ensures OperatorOf(text).Other? <==> text !in {"=", "!=", ">", "<", ">=", "<="}
  {
  }

  /**
   * A parsed condition means what its operator text says: the row must hold
   * the column, and `=`, `!=`, `>`, `<`, `>=`, `<=` compare its value with
   * the condition's; any other text matches no row.
   */
  lemma ConditionText(row: Row, column: string, text: string, v: Value)
    ensures Crud.EvaluateCondition(row, Crud.Condition(column, OperatorOf(text), v)) <==>
      && column in row
      && (|| (text == "=" && row[column] == v)
          || (text == "!=" && row[column] != v)
          || (text == ">" && Crud.CompareValues(row[column], v) > 0)
          || (text == "<" && Crud.CompareValues(row[column], v) < 0)
          || (text == ">=" && Crud.CompareValues(row[column], v) >= 0)
          || (text == "<=" && Crud.CompareValues(row[column], v) <= 0))
  {
  }

  /** An identifier, then any operator token, then a value. */
  function ConditionAt(ts: seq<Token>, p: nat): (r: Step<Crud.Condition>)
    ensures r.result.Ok? ==>
      && Match(ts, p, IdentifierToken) && r.result.value.column == Current(ts, p).value
      && Match(ts, p + 1, OperatorToken) && r.result.value.operator == OperatorOf(Current(ts, p + 1).value)
      && ExpectValueAt(ts, p + 2) == Step(Ok(r.result.value.value), p + 3) && r.next == p + 3
  {
    var col := ExpectIdentifierAt(ts, p);
    if col.result.Err? then Step(Err(col.result.error), col.next)
    else if !Match(ts, col.next, OperatorToken) then Step(Err(Expected("operator in condition")), col.next)
    else
      var op := Current(ts, col.next).value;
      var v := ExpectValueAt(ts, col.next + 1);
      if v.result.Err? then Step(Err(v.result.error), v.next)
      else Step(Ok(Crud.Condition(col.result.value, OperatorOf(op), v.result.value)), v.next)
  }

  /** An optional `WHERE condition`. */
  function WhereAt(ts: seq<Token>, p: nat): (r: Step<Option<Crud.Condition>>)
    ensures !MatchKeyword(ts, p, "WHERE") ==> r == Step(Ok(None), p)
    ensures r.result.Ok? && r.result.value.Some? ==> MatchKeyword(ts, p, "WHERE") && r.next == p + 4
  {
    if MatchKeyword(ts, p, "WHERE") then
      var c := ConditionAt(ts, p + 1);
      if c.result.Err? then Step(Err(c.result.error), c.next)
      else Step(Ok(Some(c.result.value)), c.next)
    else Step(Ok(None), p)
  }

  /** One `column = value` pair. */
  function SetPairAt(ts: seq<Token>, p: nat): (r: Step<(string, Value)>)
    ensures r.result.Ok? ==> r.next == p + 3 && p + 1 < |ts| && MatchOperator(ts, p + 1, "=")
  {
    var col := ExpectIdentifierAt(ts, p);
    if col.result.Err? then Step(Err(col.result.error), col.next)
    else if !MatchOperator(ts, col.next, "=") then Step(Err(Expected("'=' in SET clause")), col.next)
    else
      var v := ExpectValueAt(ts, col.next + 1);
      if v.result.Err? then Step(Err(v.result.error), v.next)
      else Step(Ok((col.result.value, v.result.value)), v.next)
  }

  /** One or more `column = value` pairs separated by commas, in the order written. */
  function SetPairsAt(ts: seq<Token>, p: nat): (r: Step<seq<(string, Value)>>)
    ensures r.result.Ok? ==> |r.result.value| >= 1
    decreases |ts| - p
  {
    var pair := SetPairAt(ts, p);
    if pair.result.Err? then Step(Err(pair.result.error), pair.next)
    else if Match(ts, pair.next, CommaToken) then Prepend([pair.result.value], SetPairsAt(ts, pair.next + 1))
    else Step(Ok([pair.result.value]), pair.next)
  }

  /** The row the pairs write, one after the other: a later pair for the same column overwrites an earlier one. */
  function Assign(pairs: seq<(string, Value)>): Row
  {
    if pairs == [] then map[] else Assign(pairs[..|pairs| - 1])[pairs[|pairs| - 1].0 := pairs[|pairs| - 1].1]
  }

  lemma AssignSnoc(pairs: seq<(string, Value)>, col: string, v: Value)
    ensures Assign(pairs + [(col, v)]) == Assign(pairs)[col := v]
  {
    assert (pairs + [(col, v)])[..|pairs|] == pairs;
  }

  /** The row's columns are exactly the columns the pairs name. */
  lemma {:induction false} AssignKeys(pairs: seq<(string, Value)>)
    ensures Assign(pairs).Keys == set k | 0 <= k < |pairs| :: pairs[k].0
  {
    if pairs != [] {
      var init := pairs[..|pairs| - 1];
      AssignKeys(init);
      assert forall k :: 0 <= k < |init| ==> init[k] == pairs[k];
    }
  }

  /** A column holds the value of the last pair that names it. */
  lemma {:induction false} AssignLastWins(pairs: seq<(string, Value)>, i: nat)
    requires i < |pairs|
    requires forall j :: i < j < |pairs| ==> pairs[j].0 != pairs[i].0
    ensures pairs[i].0 in Assign(pairs) && Assign(pairs)[pairs[i].0] == pairs[i].1
  {
    if i < |pairs| - 1 {
      var init := pairs[..|pairs| - 1];
      assert init[i] == pairs[i];
      AssignLastWins(init, i);
    }
  }

  /** The SET clause as a row. */
  function SetClauseAt(ts: seq<Token>, p: nat): Step<Row>
  {
    var s := SetPairsAt(ts, p);
    if s.result.Err? then Step(Err(s.result.error), s.next) else Step(Ok(Assign(s.result.value)), s.next)
  }

  // ---------------------------------------------------------------------
  // INSERT rows
  // ---------------------------------------------------------------------

  function Zip(columns: seq<string>, values: seq<Value>): (r: seq<(string, Value)>)
    requires |columns| == |values|
    ensures |r| == |columns| && forall k :: 0 <= k < |r| ==> r[k] == (columns[k], values[k])
  {
    seq(|columns|, k requires 0 <= k < |columns| => (columns[k], values[k]))
  }

  /** The INSERT row: the columns must be listed, one per value, and are written in order. */
  function RowFromLists(columns: seq<string>, values: seq<Value>): Result<Row, ParseError>
  {
    if |columns| > 0 then
      if |columns| != |values| then Err(ColumnCountMismatch) else Ok(Assign(Zip(columns, values)))
    else Err(ColumnsRequired)
  }

  /**
   * An INSERT row exists exactly when a non-empty column list meets as many
   * values, and its columns are exactly the listed ones.
   */
  lemma RowFromListsMeaning(columns: seq<string>, values: seq<Value>)
    ensures RowFromLists(columns, values).Ok? <==> columns != [] && |columns| == |values|
    ensures columns == [] ==> RowFromLists(columns, values) == Err(ColumnsRequired)
    ensures RowFromLists(columns, values).Ok? ==> RowFromLists(columns, values).value.Keys == set c | c in columns
  {
    if columns != [] && |columns| == |values| {
      var pairs := Zip(columns, values);
      AssignKeys(pairs);
      assert (set k | 0 <= k < |pairs| :: pairs[k].0) == set c | c in columns by {
        forall c | c in columns ensures c in set k | 0 <= k < |pairs| :: pairs[k].0 {
          var k :| 0 <= k < |columns| && columns[k] == c;
          assert pairs[k].0 == c;
        }
      }
    }
  }

  /** A column listed once holds the value in the same position; a repeated column holds its last value. */
  lemma RowFromListsPositional(columns: seq<string>, values: seq<Value>, i: nat)
    requires RowFromLists(columns, values).Ok? && i < |columns|
    requires forall j :: i < j < |columns| ==> columns[j] != columns[i]
    ensures columns[i] in RowFromLists(columns, values).value
    ensures RowFromLists(columns, values).value[columns[i]] == values[i]
  {
    AssignLastWins(Zip(columns, values), i);
  }

  /** The optional parenthesised column list of an INSERT; empty when there is none. */
  function ColumnListAt(ts: seq<Token>, p: nat): (r: Step<seq<string>>)
    ensures !Match(ts, p, LeftParenToken) ==> r == Step(Ok([]), p)
    ensures Match(ts, p, LeftParenToken) && r.result.Ok? ==> |r.result.value| >= 1
  {
    if Match(ts, p, LeftParenToken) then
      var ids := IdentifierListAt(ts, p + 1);
      if ids.result.Err? then ids
      else if !Match(ts, ids.next, RightParenToken) then Step(Err(Expected("')' after column list")), ids.next)
      else Step(Ok(ids.result.value), ids.next + 1)
    else Step(Ok([]), p)
  }

  // ---------------------------------------------------------------------
  // Qualified join columns
  // ---------------------------------------------------------------------

  /** The position of the first `c` in `s`. */
  function FirstIndex(s: string, c: char): (i: nat)
    requires c in s
    ensures i < |s| && s[i] == c && c !in s[..i]
  {
    if s[0] == c then 0
    else
      var i := 1 + FirstIndex(s[1..], c);
      assert s[..i] == [s[0]] + s[1..][..i - 1];
      i
  }

  /** The pieces of `s` between occurrences of `sep` (strings.Split); there is always at least one. */
  function Split(s: string, sep: char): (parts: seq<string>)
    ensures |parts| >= 1 && forall k :: 0 <= k < |parts| ==> sep !in parts[k]
    decreases |s|
  {
    if sep !in s then [s]
    else
      var i := FirstIndex(s, sep);
      [s[..i]] + Split(s[i + 1..], sep)
  }

  function JoinWith(parts: seq<string>, sep: char): string
    requires |parts| >= 1
  {
    if |parts| == 1 then parts[0] else parts[0] + [sep] + JoinWith(parts[1..], sep)
  }

  /** Splitting loses nothing: the pieces joined back with the separator are the original text. */
  lemma {:induction false} SplitJoin(s: string, sep: char)
    ensures JoinWith(Split(s, sep), sep) == s
    decreases |s|
  {
    if sep in s {
      var i := FirstIndex(s, sep);
      SplitJoin(s[i + 1..], sep);
      assert Split(s, sep)[1..] == Split(s[i + 1..], sep);
      assert s == s[..i] + [sep] + s[i + 1..];
    }
  }

  /** The part after the dot when the name has exactly one dot; the whole name otherwise. */
  function ExtractColumnName(qualified: string): string
  {
    var parts := Split(qualified, '.');
    if |parts| == 2 then parts[1] else qualified
  }

  /** A `table.column` name gives back its column; a name without a dot is kept whole. */
  lemma ExtractQualified(table: string, column: string)
    requires '.' !in table && '.' !in column
    ensures ExtractColumnName(Join.Qualify(table, column)) == column
    ensures ExtractColumnName(column) == column
  {
    var q := Join.Qualify(table, column);
    assert q[|table|] == '.';
    assert forall k :: 0 <= k < |table| ==> q[k] == table[k];
    var i := FirstIndex(q, '.');
    assert i == |table|;
    assert q[..i] == table;
    assert q[i + 1..] == column;
    assert Split(column, '.') == [column];
    assert Split(q, '.') == [table] + Split(column, '.');
  }

  /** Whatever the name, the extracted column is either the whole name or a piece without a dot. */
  lemma ExtractColumnNameShape(qualified: string)
    ensures var name := ExtractColumnName(qualified);
      name == qualified || ('.' !in name && exists table :: '.' !in table && qualified == Join.Qualify(table, name))
  {
    var parts := Split(qualified, '.');
    if |parts| == 2 {
      SplitJoin(qualified, '.');
      assert parts[1..] == [parts[1]];
      assert qualified == Join.Qualify(parts[0], parts[1]);
    }
  }

  // ---------------------------------------------------------------------
  // Commands
  // ---------------------------------------------------------------------

  /**
   * CREATE TABLE name ( definitions ): stops on the closing parenthesis
   * without consuming it. The command names the identifier after TABLE and
   * holds the column definitions inside the parentheses.
   */
  function CreateTableAt(ts: seq<Token>, p: nat): (r: Step<Command>)
    ensures r.result.Ok? ==> r.result.value.CreateTableCommand? && Match(ts, r.next, RightParenToken)
    ensures r.result.Ok? ==>
      && MatchKeyword(ts, p + 1, "TABLE") && Match(ts, p + 2, IdentifierToken) && Match(ts, p + 3, LeftParenToken)
      && r.result.value.tableName == Current(ts, p + 2).value
      && ColumnDefsAt(ts, p + 4) == Step(Ok(r.result.value.schema), r.next)
  {
    if !MatchKeyword(ts, p + 1, "TABLE") then Step(Err(Expected("TABLE keyword")), p + 1)
    else
      var name := ExpectIdentifierAt(ts, p + 2);
      if name.result.Err? then Step(Err(name.result.error), name.next)
      else if !Match(ts, name.next, LeftParenToken) then Step(Err(Expected("'(' after table name")), name.next)
      else
        var cols := ColumnDefsAt(ts, name.next + 1);
        if cols.result.Err? then Step(Err(cols.result.error), cols.next)
        else if !Match(ts, cols.next, RightParenToken) then Step(Err(Expected("')' after column definitions")), cols.next)
        else Step(Ok(CreateTableCommand(name.result.value, cols.result.value)), cols.next)
  }

  /**
   * INSERT INTO name [( columns )] VALUES ( values ): stops on the closing
   * parenthesis without consuming it. The command names the identifier after
   * INTO and holds the row that pairs the listed columns with the values.
   */
  function InsertAt(ts: seq<Token>, p: nat): (r: Step<Command>)
    ensures r.result.Ok? ==> r.result.value.InsertCommand? && Match(ts, r.next, RightParenToken)
    ensures r.result.Ok? ==>
      var cols := ColumnListAt(ts, p + 3);
      var vals := ValueListAt(ts, cols.next + 2);
      && MatchKeyword(ts, p + 1, "INTO") && Match(ts, p + 2, IdentifierToken)
      && r.result.value.tableName == Current(ts, p + 2).value
      && cols.result.Ok? && MatchKeyword(ts, cols.next, "VALUES") && Match(ts, cols.next + 1, LeftParenToken)
      && vals.result.Ok? && vals.next == r.next
      && RowFromLists(cols.result.value, vals.result.value) == Ok(r.result.value.values)
  {
    if !MatchKeyword(ts, p + 1, "INTO") then Step(Err(Expected("INTO keyword")), p + 1)
    else
      var name := ExpectIdentifierAt(ts, p + 2);
      if name.result.Err? then Step(Err(name.result.error), name.next)
      else
        var cols := ColumnListAt(ts, name.next);
        if cols.result.Err? then Step(Err(cols.result.error), cols.next)
        else if !MatchKeyword(ts, cols.next, "VALUES") then Step(Err(Expected("VALUES keyword")), cols.next)
        else if !Match(ts, cols.next + 1, LeftParenToken) then Step(Err(Expected("'(' after VALUES")), cols.next + 1)
        else
          var vals := ValueListAt(ts, cols.next + 2);
          if vals.result.Err? then Step(Err(vals.result.error), vals.next)
          else if !Match(ts, vals.next, RightParenToken) then Step(Err(Expected("')' after values")), vals.next)
          else match RowFromLists(cols.result.value, vals.result.value)
            case Err(e) => Step(Err(e), vals.next)
            case Ok(row) => Step(Ok(InsertCommand(name.result.value, row)), vals.next)
  }

  /** The SELECT column list: `*` (by its text alone) means every column, written as the empty list. */
  function SelectColumnsAt(ts: seq<Token>, p: nat): Step<seq<string>>
  {
    if Current(ts, p).value == "*" then Step(Ok([]), p + 1) else IdentifierListAt(ts, p)
  }

  /** The empty column list comes from `*` and from nothing else. */
  lemma SelectStar(ts: seq<Token>, p: nat)
    ensures SelectColumnsAt(ts, p).result == Ok([]) <==> Current(ts, p).value == "*"
    ensures Current(ts, p).value == "*" ==> SelectColumnsAt(ts, p).next == p + 1
  {
  }

  /**
   * INNER JOIN right ON a = b, after the left table: seven tokens, and the
   * join columns lose their table prefixes.
   */
  function JoinAt(ts: seq<Token>, p: nat, left: string, columns: seq<string>): (r: Step<Command>)
    ensures r.result.Ok? ==> r.result.value.JoinCommand? && r.result.value.leftTable == left && r.result.value.selectColumns == columns
    ensures r.result.Ok? ==>
      && MatchKeyword(ts, p + 1, "JOIN") && Match(ts, p + 2, IdentifierToken) && MatchKeyword(ts, p + 3, "ON")
      && Match(ts, p + 4, IdentifierToken) && MatchOperator(ts, p + 5, "=") && Match(ts, p + 6, IdentifierToken)
      && r.result.value.rightTable == Current(ts, p + 2).value
      && r.result.value.leftColumn == ExtractColumnName(Current(ts, p + 4).value)
      && r.result.value.rightColumn == ExtractColumnName(Current(ts, p + 6).value)
      && r.next == p + 7
  {
    if !MatchKeyword(ts, p + 1, "JOIN") then Step(Err(Expected("JOIN after INNER")), p + 1)
    else
      var right := ExpectIdentifierAt(ts, p + 2);
      if right.result.Err? then Step(Err(right.result.error), right.next)
      else if !MatchKeyword(ts, right.next, "ON") then Step(Err(Expected("ON after JOIN")), right.next)
      else
        var lc := ExpectIdentifierAt(ts, right.next + 1);
        if lc.result.Err? then Step(Err(lc.result.error), lc.next)
        else if !MatchOperator(ts, lc.next, "=") then Step(Err(Expected("'=' in JOIN condition")), lc.next)
        else
          var rc := ExpectIdentifierAt(ts, lc.next + 1);
          if rc.result.Err? then Step(Err(rc.result.error), rc.next)
          else Step(Ok(JoinCommand(left, right.result.value, ExtractColumnName(lc.result.value), ExtractColumnName(rc.result.value), columns)), rc.next)
  }

  /**
   * SELECT columns FROM table, then either a join or an optional WHERE: the
   * result is a join exactly when INNER follows the table name.
   */
  function SelectAt(ts: seq<Token>, p: nat): (r: Step<Command>)
    ensures r.result.Ok? ==> r.result.value.SelectCommand? || r.result.value.JoinCommand?
    ensures r.result.Ok? ==>
      var cols := SelectColumnsAt(ts, p + 1);
      && cols.result.Ok? && MatchKeyword(ts, cols.next, "FROM") && Match(ts, cols.next + 1, IdentifierToken)
      && (r.result.value.JoinCommand? <==> MatchKeyword(ts, cols.next + 2, "INNER"))
      && (r.result.value.JoinCommand? ==>
            r == JoinAt(ts, cols.next + 2, Current(ts, cols.next + 1).value, cols.result.value))
      && (r.result.value.SelectCommand? ==>
            && r.result.value.tableName == Current(ts, cols.next + 1).value
            && r.result.value.columns == cols.result.value
            && WhereAt(ts, cols.next + 2) == Step(Ok(r.result.value.condition), r.next))
  {
    var cols := SelectColumnsAt(ts, p + 1);
    if cols.result.Err? then Step(Err(cols.result.error), cols.next)
    else if !MatchKeyword(ts, cols.next, "FROM") then Step(Err(Expected("FROM keyword")), cols.next)
    else
      var table := ExpectIdentifierAt(ts, cols.next + 1);
      if table.result.Err? then Step(Err(table.result.error), table.next)
      else if MatchKeyword(ts, table.next, "INNER") then JoinAt(ts, table.next, table.result.value, cols.result.value)
      else
        var w := WhereAt(ts, table.next);
        if w.result.Err? then Step(Err(w.result.error), w.next)
        else Step(Ok(SelectCommand(table.result.value, cols.result.value, w.result.value)), w.next)
  }

  /** UPDATE table SET pairs [WHERE condition]: the table, the row the pairs write, and the condition. */
  function UpdateStatementAt(ts: seq<Token>, p: nat): (r: Step<Command>)
    ensures r.result.Ok? ==> r.result.value.UpdateCommand?
    ensures r.result.Ok? ==>
      var updates := SetClauseAt(ts, p + 3);
      && Match(ts, p + 1, IdentifierToken) && MatchKeyword(ts, p + 2, "SET")
      && r.result.value.tableName == Current(ts, p + 1).value
      && updates == Step(Ok(r.result.value.updates), updates.next)
      && WhereAt(ts, updates.next) == Step(Ok(r.result.value.condition), r.next)
  {
    var name := ExpectIdentifierAt(ts, p + 1);
    if name.result.Err? then Step(Err(name.result.error), name.next)
    else if !MatchKeyword(ts, name.next, "SET") then Step(Err(Expected("SET keyword")), name.next)
    else
      var updates := SetClauseAt(ts, name.next + 1);
      if updates.result.Err? then Step(Err(updates.result.error), updates.next)
      else
        var w := WhereAt(ts, updates.next);
        if w.result.Err? then Step(Err(w.result.error), w.next)
        else Step(Ok(UpdateCommand(name.result.value, updates.result.value, w.result.value)), w.next)
  }

  /** DELETE FROM table [WHERE condition]: the table and the condition. */
  function DeleteStatementAt(ts: seq<Token>, p: nat): (r: Step<Command>)
    ensures r.result.Ok? ==> r.result.value.DeleteCommand?
    ensures r.result.Ok? ==>
      && MatchKeyword(ts, p + 1, "FROM") && Match(ts, p + 2, IdentifierToken)
      && r.result.value.tableName == Current(ts, p + 2).value
      && WhereAt(ts, p + 3) == Step(Ok(r.result.value.condition), r.next)
  {
    if !MatchKeyword(ts, p + 1, "FROM") then Step(Err(Expected("FROM keyword")), p + 1)
    else
      var name := ExpectIdentifierAt(ts, p + 2);
      if name.result.Err? then Step(Err(name.result.error), name.next)
      else
        var w := WhereAt(ts, name.next);
        if w.result.Err? then Step(Err(w.result.error), w.next)
        else Step(Ok(DeleteCommand(name.result.value, w.result.value)), w.next)
  }

  /** The command a leading keyword announces, upper-cased; CmdUnknown for any other word. */
  function CommandFor(keyword: string): CommandType
  {
    if keyword == "CREATE" then CmdCreateTable
    else if keyword == "INSERT" then CmdInsert
    else if keyword == "SELECT" then CmdSelect
    else if keyword == "UPDATE" then CmdUpdate
    else if keyword == "DELETE" then CmdDelete
    else CmdUnknown
  }

  /** A whole command, chosen by its first keyword in any letter case. */
  function ParseAt(ts: seq<Token>, p: nat): Step<Command>
  {
    if p >= |ts| then Step(Err(EmptyInput), p)
    else if ts[p].kind != KeywordToken then Step(Err(ExpectedCommandKeyword(ts[p].value)), p)
    else
      var keyword := Upper(ts[p].value);
      if keyword == "CREATE" then CreateTableAt(ts, p)
      else if keyword == "INSERT" then InsertAt(ts, p)
      else if keyword == "SELECT" then SelectAt(ts, p)
      else if keyword == "UPDATE" then UpdateStatementAt(ts, p)
      else if keyword == "DELETE" then DeleteStatementAt(ts, p)
      else Step(Err(UnknownCommand(keyword)), p)
  }

  /**
   * Parsing succeeds only from a keyword, and the command's tag is the one
   * the keyword announces; a keyword announcing no command, or a first
   * token that is no keyword, is an error that consumes nothing.
   */
  lemma ParseDispatch(ts: seq<Token>, p: nat)
    ensures var r := ParseAt(ts, p);
      && (r.result.Ok? ==> p < |ts| && ts[p].kind == KeywordToken && Type(r.result.value) == CommandFor(Upper(ts[p].value)))
      && (p < |ts| && ts[p].kind != KeywordToken ==> r == Step(Err(ExpectedCommandKeyword(ts[p].value)), p))
      && (p < |ts| && ts[p].kind == KeywordToken && CommandFor(Upper(ts[p].value)) == CmdUnknown ==>
            r == Step(Err(UnknownCommand(Upper(ts[p].value))), p))
  {
  }

  /** Blank input is an error naming the empty text of the EOF token. */
  lemma ParseBlank(input: string)
    requires TrimSpace(input) == []
    ensures ParseAt(Tokens(input), 0) == Step(Err(ExpectedCommandKeyword("")), 0)
  {
    assert Tokens(input) == [EOF];
  }

  /** `SELECT name, email FROM users WHERE id = 1`, as tokens: two columns and the condition id = 1. */
  lemma SelectExample()
    ensures ParseAt([Token(KeywordToken, "SELECT"), Token(IdentifierToken, "name"), Token(CommaToken, ","),
                     Token(IdentifierToken, "email"), Token(KeywordToken, "FROM"), Token(IdentifierToken, "users"),
                     Token(KeywordToken, "WHERE"), Token(IdentifierToken, "id"), Token(OperatorToken, "="),
                     Token(NumberToken, "1"), EOF], 0)
      == Step(Ok(SelectCommand("users", ["name", "email"], Some(Crud.Condition("id", Crud.Eq, Int(1))))), 10)
  {
    var ts := [Token(KeywordToken, "SELECT"), Token(IdentifierToken, "name"), Token(CommaToken, ","),
               Token(IdentifierToken, "email"), Token(KeywordToken, "FROM"), Token(IdentifierToken, "users"),
               Token(KeywordToken, "WHERE"), Token(IdentifierToken, "id"), Token(OperatorToken, "="),
               Token(NumberToken, "1"), EOF];
    UpperKeeps("SELECT");
    UpperKeeps("WHERE");
    UpperKeeps("INNER");
    assert Decimal(1) == "1";
    ExpectNumber(ts, 9, 1);
    assert IdentifierListAt(ts, 3) == Step(Ok(["email"]), 4);
    assert IdentifierListAt(ts, 1) == Prepend(["name"], IdentifierListAt(ts, 3));
    assert ["name"] + ["email"] == ["name", "email"];
    assert SelectColumnsAt(ts, 1) == Step(Ok(["name", "email"]), 4);
    assert ConditionAt(ts, 7) == Step(Ok(Crud.Condition("id", Crud.Eq, Int(1))), 10);
    assert WhereAt(ts, 6) == Step(Ok(Some(Crud.Condition("id", Crud.Eq, Int(1)))), 10);
    assert SelectAt(ts, 0) == Step(Ok(SelectCommand("users", ["name", "email"], Some(Crud.Condition("id", Crud.Eq, Int(1))))), 10);
  }

  /** `ts` is the token sequence of `CREATE TABLE users (id INT PRIMARY KEY, name STRING NOT NULL, email STRING UNIQUE)`. */
  predicate CreateUsersTokens(ts: seq<Token>)
  {
    && |ts| == 19
    && ts[0] == Token(KeywordToken, "CREATE") && ts[1] == Token(KeywordToken, "TABLE")
    && ts[2] == Token(IdentifierToken, "users") && ts[3] == Token(LeftParenToken, "(")
    && ts[4] == Token(IdentifierToken, "id") && ts[5] == Token(KeywordToken, "INT")
    && ts[6] == Token(KeywordToken, "PRIMARY") && ts[7] == Token(KeywordToken, "KEY")
    && ts[8] == Token(CommaToken, ",")
    && ts[9] == Token(IdentifierToken, "name") && ts[10] == Token(KeywordToken, "STRING")
    && ts[11] == Token(KeywordToken, "NOT") && ts[12] == Token(KeywordToken, "NULL")
    && ts[13] == Token(CommaToken, ",")
    && ts[14] == Token(IdentifierToken, "email") && ts[15] == Token(KeywordToken, "STRING")
    && ts[16] == Token(KeywordToken, "UNIQUE")
    && ts[17] == Token(RightParenToken, ")") && ts[18] == EOF
  }

  /** `id INT PRIMARY KEY`: the primary key, which is also NOT NULL. */
  lemma CreateUsersId(ts: seq<Token>)
    requires CreateUsersTokens(ts)
    ensures ColumnDefAt(ts, 4) == Step(Ok(Tables.Column("id", "INT", true, false, true)), 8)
  {
    UpperKeeps("INT");
    ModifierPrimaryKey(ts, 6, Tables.Column("id", "INT", false, false, false));
    ModifierNone(ts, 8, Tables.Column("id", "INT", true, false, true));
  }

  /** `name STRING NOT NULL`. */
  lemma CreateUsersName(ts: seq<Token>)
    requires CreateUsersTokens(ts)
    ensures ColumnDefAt(ts, 9) == Step(Ok(Tables.Column("name", "STRING", false, false, true)), 13)
  {
    UpperKeeps("STRING");
    ModifierNotNull(ts, 11, Tables.Column("name", "STRING", false, false, false));
    ModifierNone(ts, 13, Tables.Column("name", "STRING", false, false, true));
  }

  /** `email STRING UNIQUE`. */
  lemma CreateUsersEmail(ts: seq<Token>)
    requires CreateUsersTokens(ts)
    ensures ColumnDefAt(ts, 14) == Step(Ok(Tables.Column("email", "STRING", false, true, false)), 17)
  {
    UpperKeeps("STRING");
    ModifierUnique(ts, 16, Tables.Column("email", "STRING", false, false, false));
    ModifierNone(ts, 17, Tables.Column("email", "STRING", false, true, false));
  }

  /** The three definitions inside the parentheses, up to the closing one. */
  lemma CreateUsersColumns(ts: seq<Token>)
    requires CreateUsersTokens(ts)
    ensures ColumnDefsAt(ts, 4)
      == Step(Ok([Tables.Column("id", "INT", true, false, true),
                  Tables.Column("name", "STRING", false, false, true),
                  Tables.Column("email", "STRING", false, true, false)]), 17)
  {
    var id := Tables.Column("id", "INT", true, false, true);
    var name := Tables.Column("name", "STRING", false, false, true);
    var email := Tables.Column("email", "STRING", false, true, false);
    CreateUsersEmail(ts);
    assert ColumnDefsAt(ts, 14) == Step(Ok([email]), 17);
    CreateUsersName(ts);
    assert [name] + [email] == [name, email];
    assert ColumnDefsAt(ts, 9) == Step(Ok([name, email]), 17);
    CreateUsersId(ts);
    assert [id] + [name, email] == [id, name, email];
  }

  /**
   * The users table: `id` is the primary key (and so NOT NULL), `name` is
   * NOT NULL, `email` is UNIQUE; parsing stops on the closing parenthesis.
   */
  lemma CreateTableExample(ts: seq<Token>)
    requires CreateUsersTokens(ts)
    ensures ParseAt(ts, 0)
      == Step(Ok(CreateTableCommand("users", [Tables.Column("id", "INT", true, false, true),
                                               Tables.Column("name", "STRING", false, false, true),
                                               Tables.Column("email", "STRING", false, true, false)])), 17)
  {
    CreateUsersColumns(ts);
    UpperKeeps("TABLE");
    UpperKeeps("CREATE");
  }

  // ---------------------------------------------------------------------
  // The parser
  // ---------------------------------------------------------------------

  /** The INSERT row built by writing each listed column's value in turn. */
  method BuildRow(columns: seq<string>, values: seq<Value>) returns (r: Result<Row, ParseError>)
    ensures r == RowFromLists(columns, values)
  {
    if |columns| > 0 {
      if |columns| != |values| {
        return Err(ColumnCountMismatch);
      }
      var row: Row := map[];
      var i := 0;
      while i < |columns|
        invariant i <= |columns|
        invariant row == Assign(Zip(columns, values)[..i])
      {
        var pairs := Zip(columns, values)[..i + 1];
        assert pairs[..i] == Zip(columns, values)[..i];
        row := row[columns[i] := values[i]];
        i := i + 1;
      }
      assert Zip(columns, values)[..i] == Zip(columns, values);
      return Ok(row);
    } else {
      return Err(ColumnsRequired);
    }
  }

  class Parser {
    const tokens: seq<Token>
    var pos: nat

    /** NewParser: the tokens of the input, from the first. */
    constructor (input: string)
      ensures tokens == Tokens(input) && pos == 0
    {
      var ts := Tokenize(input);
      tokens := ts;
      pos := 0;
    }

    method Advance()
      modifies this`pos
      ensures pos == old(pos) + 1
    {
      pos := pos + 1;
    }

    method ExpectIdentifier() returns (r: Result<string, ParseError>)
      modifies this`pos
      ensures Step(r, pos) == ExpectIdentifierAt(tokens, old(pos))
    {
      if !Match(tokens, pos, IdentifierToken) {
        return Err(ExpectedIdentifier(Current(tokens, pos)));
      }
      var value := Current(tokens, pos).value;
      Advance();
      return Ok(value);
    }

    method ExpectKeyword() returns (r: Result<string, ParseError>)
      modifies this`pos
      ensures Step(r, pos) == ExpectKeywordAt(tokens, old(pos))
    {
      if !Match(tokens, pos, KeywordToken) {
        return Err(ExpectedKeyword(Current(tokens, pos)));
      }
      var value := Current(tokens, pos).value;
      Advance();
      return Ok(value);
    }

    method ExpectValue() returns (r: Result<Value, ParseError>)
      modifies this`pos
      ensures Step(r, pos) == ExpectValueAt(tokens, old(pos))
    {
      var token := Current(tokens, pos);
      match token.kind {
        case StringToken =>
          Advance();
          return Ok(Str(token.value));
        case NumberToken =>
          Advance();
          var n := Atoi(token.value);
          if n.None? {
            return Err(InvalidNumber(token.value));
          }
          return Ok(Int(n.value));
        case KeywordToken =>
          if Upper(token.value) == "NULL" {
            Advance();
            return Ok(Null);
          }
          return Err(UnexpectedKeyword(token.value));
        case _ =>
          return Err(ExpectedValue(token));
      }
    }

    /** The modifier loop of a column definition. */
    method ParseModifiers(col: Tables.Column) returns (c: Tables.Column)
      modifies this`pos
      ensures (c, pos) == ModifiersAt(tokens, old(pos), col)
    {
      c := col;
      while MatchKeyword(tokens, pos, "PRIMARY") || MatchKeyword(tokens, pos, "UNIQUE") || MatchKeyword(tokens, pos, "NOT")
        invariant ModifiersAt(tokens, old(pos), col) == ModifiersAt(tokens, pos, c)
        decreases |tokens| - pos
      {
        if MatchKeyword(tokens, pos, "PRIMARY") {
          Advance();
          if MatchKeyword(tokens, pos, "KEY") {
            Advance();
            c := c.(primaryKey := true, notNull := true);
          }
        } else if MatchKeyword(tokens, pos, "UNIQUE") {
          Advance();
          c := c.(unique := true);
        } else if MatchKeyword(tokens, pos, "NOT") {
          Advance();
          if MatchKeyword(tokens, pos, "NULL") {
            Advance();
            c := c.(notNull := true);
          }
        }
      }
    }

    /** One column definition of the definitions loop. */
    method ParseColumnDefinition() returns (r: Result<Tables.Column, ParseError>)
      modifies this`pos
      ensures Step(r, pos) == ColumnDefAt(tokens, old(pos))
    {
      var colName := ExpectIdentifier();
      if colName.Err? {
        return Err(colName.error);
      }
      var colTypeText := ExpectKeyword();
      if colTypeText.Err? {
        return Err(colTypeText.error);
      }
      var col := ParseModifiers(Tables.Column(colName.value, Upper(colTypeText.value), false, false, false));
      return Ok(col);
    }

    method ParseColumnDefinitions() returns (r: Result<seq<Tables.Column>, ParseError>)
      modifies this`pos
      ensures Step(r, pos) == ColumnDefsAt(tokens, old(pos))
    {
      var columns: seq<Tables.Column> := [];
      PrependNothing(ColumnDefsAt(tokens, pos));
      while true
        invariant ColumnDefsAt(tokens, old(pos)) == Prepend(columns, ColumnDefsAt(tokens, pos))
        decreases |tokens| - pos
      {
        var def := ParseColumnDefinition();
        if def.Err? {
          return Err(def.error);
        }
        var col := def.value;
        PrependTwice(columns, [col], ColumnDefsAt(tokens, pos + 1));
        columns := columns + [col];
        if Match(tokens, pos, CommaToken) {
          Advance();
          continue;
        }
        return Ok(columns);
      }
    }

    method ParseIdentifierList() returns (r: Result<seq<string>, ParseError>)
      modifies this`pos
      ensures Step(r, pos) == IdentifierListAt(tokens, old(pos))
    {
      var identifiers: seq<string> := [];
      PrependNothing(IdentifierListAt(tokens, pos));
      while true
        invariant IdentifierListAt(tokens, old(pos)) == Prepend(identifiers, IdentifierListAt(tokens, pos))
        decreases |tokens| - pos
      {
        var id := ExpectIdentifier();
        if id.Err? {
          return Err(id.error);
        }
        PrependTwice(identifiers, [id.value], IdentifierListAt(tokens, pos + 1));
        identifiers := identifiers + [id.value];
        if Match(tokens, pos, CommaToken) {
          Advance();
          continue;
        }
        return Ok(identifiers);
      }
    }

    method ParseValueList() returns (r: Result<seq<Value>, ParseError>)
      modifies this`pos
      ensures Step(r, pos) == ValueListAt(tokens, old(pos))
    {
      var values: seq<Value> := [];
      PrependNothing(ValueListAt(tokens, pos));
      while true
        invariant ValueListAt(tokens, old(pos)) == Prepend(values, ValueListAt(tokens, pos))
        decreases |tokens| - pos
      {
        var val := ExpectValue();
        if val.Err? {
          return Err(val.error);
        }
        PrependTwice(values, [val.value], ValueListAt(tokens, pos + 1));
        values := values + [val.value];
        if Match(tokens, pos, CommaToken) {
          Advance();
          continue;
        }
        return Ok(values);
      }
    }

    method ParseSetClause() returns (r: Result<Row, ParseError>)
      modifies this`pos
      ensures Step(r, pos) == SetClauseAt(tokens, old(pos))
    {
      var updates: Row := map[];
      ghost var pairs: seq<(string, Value)> := [];
      PrependNothing(SetPairsAt(tokens, pos));
      while true
        invariant SetPairsAt(tokens, old(pos)) == Prepend(pairs, SetPairsAt(tokens, pos))
        invariant updates == Assign(pairs)
        decreases |tokens| - pos
      {
        var pair := ParseSetPair();
        if pair.Err? {
          return Err(pair.error);
        }
        var (col, val) := pair.value;
        PrependTwice(pairs, [(col, val)], SetPairsAt(tokens, pos + 1));
        AssignSnoc(pairs, col, val);
        pairs := pairs + [(col, val)];
        updates := updates[col := val];
        if Match(tokens, pos, CommaToken) {
          Advance();
          continue;
        }
        return Ok(updates);
      }
    }

    /** One `column = value` pair of a SET clause. */
    method ParseSetPair() returns (r: Result<(string, Value), ParseError>)
      modifies this`pos
      ensures Step(r, pos) == SetPairAt(tokens, old(pos))
    {
      var col := ExpectIdentifier();
      if col.Err? {
        return Err(col.error);
      }
      if !MatchOperator(tokens, pos, "=") {
        return Err(Expected("'=' in SET clause"));
      }
      Advance();
      var val := ExpectValue();
      if val.Err? {
        return Err(val.error);
      }
      return Ok((col.value, val.value));
    }

    method ParseCondition() returns (r: Result<Crud.Condition, ParseError>)
      modifies this`pos
      ensures Step(r, pos) == ConditionAt(tokens, old(pos))
    {
      var col := ExpectIdentifier();
      if col.Err? {
        return Err(col.error);
      }
      if !Match(tokens, pos, OperatorToken) {
        return Err(Expected("operator in condition"));
      }
      var op := Current(tokens, pos).value;
      Advance();
      var val := ExpectValue();
      if val.Err? {
        return Err(val.error);
      }
      return Ok(Crud.Condition(col.value, OperatorOf(op), val.value));
    }

    /** The optional WHERE clause shared by SELECT, UPDATE and DELETE. */
    method ParseWhere() returns (r: Result<Option<Crud.Condition>, ParseError>)
      modifies this`pos
      ensures Step(r, pos) == WhereAt(tokens, old(pos))
    {
      if MatchKeyword(tokens, pos, "WHERE") {
        Advance();
        var c := ParseCondition();
        if c.Err? {
          return Err(c.error);
        }
        return Ok(Some(c.value));
      }
      return Ok(None);
    }

    method ParseSelectColumns() returns (r: Result<seq<string>, ParseError>)
      modifies this`pos
      ensures Step(r, pos) == SelectColumnsAt(tokens, old(pos))
    {
      if Current(tokens, pos).value == "*" {
        Advance();
        return Ok([]);
      }
      r := ParseIdentifierList();
    }

    method ParseCreateTable() returns (r: Result<Command, ParseError>)
      modifies this`pos
      ensures Step(r, pos) == CreateTableAt(tokens, old(pos))
    {
      Advance();
      if !MatchKeyword(tokens, pos, "TABLE") {
        return Err(Expected("TABLE keyword"));
      }
      Advance();
      var tableName := ExpectIdentifier();
      if tableName.Err? {
        return Err(tableName.error);
      }
      if !Match(tokens, pos, LeftParenToken) {
        return Err(Expected("'(' after table name"));
      }
      Advance();
      var columns := ParseColumnDefinitions();
      if columns.Err? {
        return Err(columns.error);
      }
      if !Match(tokens, pos, RightParenToken) {
        return Err(Expected("')' after column definitions"));
      }
      return Ok(CreateTableCommand(tableName.value, columns.value));
    }

    /** The optional column list of an INSERT. */
    method ParseColumnList() returns (r: Result<seq<string>, ParseError>)
      modifies this`pos
      ensures Step(r, pos) == ColumnListAt(tokens, old(pos))
    {
      if Match(tokens, pos, LeftParenToken) {
        Advance();
        var columns := ParseIdentifierList();
        if columns.Err? {
          return columns;
        }
        if !Match(tokens, pos, RightParenToken) {
          return Err(Expected("')' after column list"));
        }
        Advance();
        return columns;
      }
      return Ok([]);
    }

    method ParseInsert() returns (r: Result<Command, ParseError>)
      modifies this`pos
      ensures Step(r, pos) == InsertAt(tokens, old(pos))
    {
      Advance();
      if !MatchKeyword(tokens, pos, "INTO") {
        return Err(Expected("INTO keyword"));
      }
      Advance();
      var tableName := ExpectIdentifier();
      if tableName.Err? {
        return Err(tableName.error);
      }
      var columns := ParseColumnList();
      if columns.Err? {
        return Err(columns.error);
      }
      if !MatchKeyword(tokens, pos, "VALUES") {
        return Err(Expected("VALUES keyword"));
      }
      Advance();
      if !Match(tokens, pos, LeftParenToken) {
        return Err(Expected("'(' after VALUES"));
      }
      Advance();
      var values := ParseValueList();
      if values.Err? {
        return Err(values.error);
      }
      if !Match(tokens, pos, RightParenToken) {
        return Err(Expected("')' after values"));
      }
      var row := BuildRow(columns.value, values.value);
      if row.Err? {
        return Err(row.error);
      }
      return Ok(InsertCommand(tableName.value, row.value));
    }

    /** The INNER JOIN tail of a SELECT. */
    method ParseJoin(left: string, columns: seq<string>) returns (r: Result<Command, ParseError>)
      modifies this`pos
      ensures Step(r, pos) == JoinAt(tokens, old(pos), left, columns)
    {
      Advance();
      if !MatchKeyword(tokens, pos, "JOIN") {
        return Err(Expected("JOIN after INNER"));
      }
      Advance();
      var rightTable := ExpectIdentifier();
      if rightTable.Err? {
        return Err(rightTable.error);
      }
      if !MatchKeyword(tokens, pos, "ON") {
        return Err(Expected("ON after JOIN"));
      }
      Advance();
      var leftCol := ExpectIdentifier();
      if leftCol.Err? {
        return Err(leftCol.error);
      }
      if !MatchOperator(tokens, pos, "=") {
        return Err(Expected("'=' in JOIN condition"));
      }
      Advance();
      var rightCol := ExpectIdentifier();
      if rightCol.Err? {
        return Err(rightCol.error);
      }
      return Ok(JoinCommand(left, rightTable.value, ExtractColumnName(leftCol.value), ExtractColumnName(rightCol.value), columns));
    }

    method ParseSelect() returns (r: Result<Command, ParseError>)
      modifies this`pos
      ensures Step(r, pos) == SelectAt(tokens, old(pos))
    {
      Advance();
      var columns := ParseSelectColumns();
      if columns.Err? {
        return Err(columns.error);
      }
      if !MatchKeyword(tokens, pos, "FROM") {
        return Err(Expected("FROM keyword"));
      }
      Advance();
      var tableName := ExpectIdentifier();
      if tableName.Err? {
        return Err(tableName.error);
      }
      if MatchKeyword(tokens, pos, "INNER") {
        r := ParseJoin(tableName.value, columns.value);
        return;
      }
      var condition := ParseWhere();
      if condition.Err? {
        return Err(condition.error);
      }
      return Ok(SelectCommand(tableName.value, columns.value, condition.value));
    }

    method ParseUpdate() returns (r: Result<Command, ParseError>)
      modifies this`pos
      ensures Step(r, pos) == UpdateStatementAt(tokens, old(pos))
    {
      Advance();
      var tableName := ExpectIdentifier();
      if tableName.Err? {
        return Err(tableName.error);
      }
      if !MatchKeyword(tokens, pos, "SET") {
        return Err(Expected("SET keyword"));
      }
      Advance();
      var updates := ParseSetClause();
      if updates.Err? {
        return Err(updates.error);
      }
      var condition := ParseWhere();
      if condition.Err? {
        return Err(condition.error);
      }
      return Ok(UpdateCommand(tableName.value, updates.value, condition.value));
    }

    method ParseDelete() returns (r: Result<Command, ParseError>)
      modifies this`pos
      ensures Step(r, pos) == DeleteStatementAt(tokens, old(pos))
    {
      Advance();
      if !MatchKeyword(tokens, pos, "FROM") {
        return Err(Expected("FROM keyword"));
      }
      Advance();
      var tableName := ExpectIdentifier();
      if tableName.Err? {
        return Err(tableName.error);
      }
      var condition := ParseWhere();
      if condition.Err? {
        return Err(condition.error);
      }
      return Ok(DeleteCommand(tableName.value, condition.value));
    }

    /** Parse: dispatch on the first keyword, upper-cased. */
    method Parse() returns (r: Result<Command, ParseError>)
      modifies this`pos
      ensures Step(r, pos) == ParseAt(tokens, old(pos))
    {
      if pos >= |tokens| {
        return Err(EmptyInput);
      }
      var token := Current(tokens, pos);
      if token.kind != KeywordToken {
        return Err(ExpectedCommandKeyword(token.value));
      }
      var keyword := Upper(token.value);
      if keyword == "CREATE" {
        r := ParseCreateTable();
      } else if keyword == "INSERT" {
        r := ParseInsert();
      } else if keyword == "SELECT" {
        r := ParseSelect();
      } else if keyword == "UPDATE" {
        r := ParseUpdate();
      } else if keyword == "DELETE" {
        r := ParseDelete();
      } else {
        r := Err(UnknownCommand(keyword));
      }
    }
  }
}
