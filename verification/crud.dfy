/**
 * CRUD on one table: conditions, the comparator, projection, and the
 * Select / Update / Delete / Insert procedures that run once the table has
 * been looked up by name.
 *
 * Each procedure is a method on a `Table`, proved against a function on
 * `TableState` (SelectResult, UpdateFrom, DeleteDown); the lemmas say what
 * those functions mean: Select through an index finds the same rows as a
 * scan, Update stops at the first failure keeping earlier updates, Delete
 * leaves exactly the rows that do not match.
 */
module Crud {
  import opened Values
  import opened Indexes
  import opened Tables
  import opened Constraints

  /** The comparison operators evaluateCondition knows; any other operator string is kept as written. */
  datatype Operator = Eq | Ne | Gt | Lt | Ge | Le | Other(symbol: string)

  /** A WHERE condition. */
  datatype Condition = Condition(column: string, operator: Operator, value: Value)

  // ---------------------------------------------------------------------
  // Comparison and conditions
  // ---------------------------------------------------------------------

  /** String `<` as Go computes it: lexicographic, a proper prefix first. */
  function LexLess(a: string, b: string): bool
  {
    if a == [] then b != []
    else if b == [] then false
    else if a[0] != b[0] then a[0] < b[0]
    else LexLess(a[1..], b[1..])
  }

  /** Exactly one of a < b, a == b, b < a holds. */
  lemma {:induction false} LexTrichotomy(a: string, b: string)
    ensures a == b ==> !LexLess(a, b) && !LexLess(b, a)
    ensures a != b ==> LexLess(a, b) != LexLess(b, a)
    decreases |a|
  {
    if a != [] && b != [] && a[0] == b[0] {
      LexTrichotomy(a[1..], b[1..]);
      if a[1..] == b[1..] {
        assert a == [a[0]] + a[1..] && b == [b[0]] + b[1..];
      }
    }
  }

  /** String `<` is transitive. */
  lemma {:induction false} LexTransitive(a: string, b: string, c: string)
    requires LexLess(a, b) && LexLess(b, c)
    ensures LexLess(a, c)
    decreases |a|
  {
    if a != [] && b != [] && c != [] && a[0] == b[0] && b[0] == c[0] {
      LexTransitive(a[1..], b[1..], c[1..]);
    }
  }

  /**
   * compareValues: -1, 0 or 1 for two ints or two strings; 0 for every other
   * pair, including bools, Null and mixed kinds.
   */
  function CompareValues(a: Value, b: Value): (r: int)
    ensures r == -1 || r == 0 || r == 1
    ensures !(a.Int? && b.Int?) && !(a.Str? && b.Str?) ==> r == 0
  {
    match (a, b)
    case (Int(x), Int(y)) => if x < y then -1 else if x > y then 1 else 0
    case (Str(x), Str(y)) => if LexLess(x, y) then -1 else if LexLess(y, x) then 1 else 0
    case _ => 0
  }

  /** The comparator is antisymmetric, and on two ints or two strings it is 0 only for equal values. */
  lemma CompareAntisymmetric(a: Value, b: Value)
    ensures CompareValues(a, b) == -CompareValues(b, a)
    ensures (a.Int? && b.Int?) || (a.Str? && b.Str?) ==> (CompareValues(a, b) == 0 <==> a == b)
  {
    if a.Str? && b.Str? {
      LexTrichotomy(a.s, b.s);
    }
  }

  /** The comparator orders two ints or two strings transitively. */
  lemma CompareTransitive(a: Value, b: Value, c: Value)
    requires CompareValues(a, b) < 0 && CompareValues(b, c) < 0
    ensures CompareValues(a, c) < 0
  {
    if a.Str? {
      LexTransitive(a.s, b.s, c.s);
    }
  }

  /** evaluateCondition: false without the column; `=`/`!=` by value; other operators by the comparator. */
  function EvaluateCondition(row: Row, cond: Condition): bool
  {
    var (value, ok) := Get(row, cond.column);
    if !ok then false
    else match cond.operator
      case Eq => value == cond.value
      case Ne => value != cond.value
      case Gt => CompareValues(value, cond.value) > 0
      case Lt => CompareValues(value, cond.value) < 0
      case Ge => CompareValues(value, cond.value) >= 0
      case Le => CompareValues(value, cond.value) <= 0
      case Other(_) => false
  }

  /** The six operators Select understands. */
  predicate KnownOperator(op: Operator)
  {
    !op.Other?
  }

  /**
   * A row without the column never satisfies a condition, nor does an unknown
   * operator; `=` and `!=` compare kind and value and are each other's negation.
   */
  lemma EvaluateBasics(row: Row, c: string, op: Operator, v: Value)
    ensures c !in row ==> !EvaluateCondition(row, Condition(c, op, v))
    ensures !KnownOperator(op) ==> !EvaluateCondition(row, Condition(c, op, v))
    ensures c in row ==> (EvaluateCondition(row, Condition(c, Eq, v)) <==> row[c] == v)
    ensures c in row ==>
      (EvaluateCondition(row, Condition(c, Ne, v)) <==> !EvaluateCondition(row, Condition(c, Eq, v)))
  {
  }

  /**
   * On a pair of values the comparator cannot order (mixed kinds, bools,
   * Null), `>=` and `<=` hold and `>` and `<` do not.
   */
  lemma EvaluateUnorderable(row: Row, c: string, v: Value)
    requires c in row && !(row[c].Int? && v.Int?) && !(row[c].Str? && v.Str?)
    ensures EvaluateCondition(row, Condition(c, Ge, v)) && EvaluateCondition(row, Condition(c, Le, v))
    ensures !EvaluateCondition(row, Condition(c, Gt, v)) && !EvaluateCondition(row, Condition(c, Lt, v))
  {
  }

  /** On two ints or two strings exactly one of `<`, `=`, `>` holds. */
  lemma EvaluateOrderable(row: Row, c: string, v: Value)
    requires c in row && ((row[c].Int? && v.Int?) || (row[c].Str? && v.Str?))
    ensures EvaluateCondition(row, Condition(c, Lt, v)) || EvaluateCondition(row, Condition(c, Eq, v)) ||
            EvaluateCondition(row, Condition(c, Gt, v))
    ensures !(EvaluateCondition(row, Condition(c, Lt, v)) && EvaluateCondition(row, Condition(c, Gt, v)))
    ensures EvaluateCondition(row, Condition(c, Eq, v)) ==>
              !EvaluateCondition(row, Condition(c, Lt, v)) && !EvaluateCondition(row, Condition(c, Gt, v))
  {
    CompareAntisymmetric(row[c], v);
  }

  /** A row passes an optional condition: no condition passes every row. */
  predicate Matches(cond: Option<Condition>, row: Row)
  {
    cond.None? || EvaluateCondition(row, cond.value)
  }

  // ---------------------------------------------------------------------
  // Projection
  // ---------------------------------------------------------------------

  /** The requested columns that the row has, with the row's values (built column by column). */
  function Pick(row: Row, columns: seq<string>): (r: Row)
    ensures r.Keys == set c | c in columns && c in row
    ensures forall c :: c in r ==> r[c] == row[c]
  {
    if columns == [] then map[]
    else
      var n := |columns| - 1;
      var front := Pick(row, columns[..n]);
      assert forall c :: c in columns <==> c in columns[..n] || c == columns[n];
      var (value, ok) := Get(row, columns[n]);
      if ok then Set(front, columns[n], value) else front
  }

  /** projectRow: a copy of the whole row for an empty list, else only the listed columns the row has. */
  function ProjectRow(row: Row, columns: seq<string>): (r: Row)
    ensures columns == [] ==> r == row
    ensures columns != [] ==> r.Keys == (set c | c in columns && c in row)
    ensures forall c :: c in r ==> c in row && r[c] == row[c]
  {
    if |columns| == 0 then Copy(row) else Pick(row, columns)
  }

  // ---------------------------------------------------------------------
  // Select
  // ---------------------------------------------------------------------

  /** The positions 0, 1, ..., n - 1 in order. */
  function Positions(n: nat): (r: seq<Position>)
    ensures |r| == n && forall i :: 0 <= i < n ==> r[i] == i
  {
    seq(n, i => i)
  }

  /** Select takes the index path for `=` on an indexed column. */
  predicate UsesIndex(s: TableState, cond: Option<Condition>)
  {
    cond.Some? && cond.value.operator == Eq && cond.value.column in s.indexes
  }

  /** The candidate positions: the index bucket on the index path, else every position. */
  function Candidates(s: TableState, cond: Option<Condition>): seq<Position>
  {
    if UsesIndex(s, cond) then Lookup(s.indexes[cond.value.column], cond.value.value)
    else Positions(|s.rows|)
  }

  /** What the filter loop makes of one candidate: skipped when out of range or not matching. */
  function Emit(rows: seq<Row>, p: Position, columns: seq<string>, cond: Option<Condition>): seq<Row>
  {
    if p >= |rows| || !Matches(cond, rows[p]) then [] else [ProjectRow(rows[p], columns)]
  }

  /** The filter loop of Select over a candidate list, in candidate order. */
  function Collect(rows: seq<Row>, cands: seq<Position>, columns: seq<string>, cond: Option<Condition>): seq<Row>
  {
    if cands == [] then []
    else
      var n := |cands| - 1;
      Collect(rows, cands[..n], columns, cond) + Emit(rows, cands[n], columns, cond)
  }

  /** Select's result on a table state. */
  function SelectResult(s: TableState, columns: seq<string>, cond: Option<Condition>): seq<Row>
  {
    Collect(s.rows, Candidates(s, cond), columns, cond)
  }

  /** The reference answer: every matching row, projected, in storage order. */
  function ScanSelect(rows: seq<Row>, columns: seq<string>, cond: Option<Condition>): (r: seq<Row>)
    ensures |r| <= |rows|
  {
    if rows == [] then []
    else
      var n := |rows| - 1;
      ScanSelect(rows[..n], columns, cond) + Emit(rows, n, columns, cond)
  }

  /** One more candidate at the end emits after the others. */
  lemma CollectSnoc(rows: seq<Row>, c: seq<Position>, p: Position, columns: seq<string>, cond: Option<Condition>)
    ensures Collect(rows, c + [p], columns, cond) == Collect(rows, c, columns, cond) + Emit(rows, p, columns, cond)
  {
    assert (c + [p])[..|c|] == c;
  }

  /** Filtering two candidate lists one after the other is filtering their concatenation. */
  lemma {:induction false} CollectConcat(rows: seq<Row>, a: seq<Position>, b: seq<Position>,
                                         columns: seq<string>, cond: Option<Condition>)
    ensures Collect(rows, a + b, columns, cond) == Collect(rows, a, columns, cond) + Collect(rows, b, columns, cond)
    decreases |b|
  {
    if b == [] {
      assert a + b == a;
    } else {
      var n := |b| - 1;
      assert a + b == (a + b[..n]) + [b[n]] && b == b[..n] + [b[n]];
      CollectConcat(rows, a, b[..n], columns, cond);
      CollectSnoc(rows, a + b[..n], b[n], columns, cond);
      CollectSnoc(rows, b[..n], b[n], columns, cond);
    }
  }

  /** Dropping the candidate at `k` drops what it emits. */
  lemma CollectWithout(rows: seq<Row>, b: seq<Position>, k: nat, columns: seq<string>, cond: Option<Condition>)
    requires k < |b|
    ensures multiset(Collect(rows, b, columns, cond)) ==
            multiset(Collect(rows, b[..k] + b[k + 1..], columns, cond)) + multiset(Emit(rows, b[k], columns, cond))
  {
    assert b == b[..k] + [b[k]] + b[k + 1..];
    CollectConcat(rows, b[..k], [b[k]], columns, cond);
    CollectConcat(rows, b[..k] + [b[k]], b[k + 1..], columns, cond);
    CollectConcat(rows, b[..k], b[k + 1..], columns, cond);
    assert Collect(rows, [b[k]], columns, cond) == Emit(rows, b[k], columns, cond);
  }

  /** Removing the element at `k` removes one occurrence of it. */
  lemma MultisetWithout(b: seq<Position>, k: nat)
    requires k < |b|
    ensures multiset(b[..k] + b[k + 1..]) == multiset(b) - multiset{b[k]}
  {
    assert b == b[..k] + [b[k]] + b[k + 1..];
  }

  /** Taking the last candidate of `a` and one equal candidate out of `b` keeps them permutations of each other. */
  lemma PermutationWithout(a: seq<Position>, b: seq<Position>, k: nat)
    requires multiset(a) == multiset(b) && a != [] && k < |b| && b[k] == a[|a| - 1]
    ensures multiset(a[..|a| - 1]) == multiset(b[..k] + b[k + 1..])
  {
    var n := |a| - 1;
    MultisetWithout(a, n);
    MultisetWithout(b, k);
    assert a[..n] + a[n + 1..] == a[..n];
  }

  /** The multiset of what the filter loop emits depends only on the multiset of candidates. */
  lemma {:induction false} CollectPermutation(rows: seq<Row>, a: seq<Position>, b: seq<Position>,
                                              columns: seq<string>, cond: Option<Condition>)
    requires multiset(a) == multiset(b)
    ensures multiset(Collect(rows, a, columns, cond)) == multiset(Collect(rows, b, columns, cond))
    decreases |a|
  {
    if a == [] {
      assert b == [];
    } else {
      var n := |a| - 1;
      assert a[n] in multiset(b);
      var k :| 0 <= k < |b| && b[k] == a[n];
      PermutationWithout(a, b, k);
      CollectPermutation(rows, a[..n], b[..k] + b[k + 1..], columns, cond);
      CollectWithout(rows, b, k, columns, cond);
    }
  }

  /** Filtering every position in order is the scan. */
  lemma {:induction false} CollectPositions(rows: seq<Row>, n: nat, columns: seq<string>, cond: Option<Condition>)
    requires n <= |rows|
    ensures Collect(rows, Positions(n), columns, cond) == ScanSelect(rows[..n], columns, cond)
  {
    if n > 0 {
      CollectPositions(rows, n - 1, columns, cond);
      assert Positions(n)[..n - 1] == Positions(n - 1);
      assert rows[..n][..n - 1] == rows[..n - 1];
      EmitPrefix(rows, n, n - 1, columns, cond);
    }
  }

  /** A candidate below `n` emits the same from the first `n` rows as from all of them. */
  lemma EmitPrefix(rows: seq<Row>, n: nat, p: Position, columns: seq<string>, cond: Option<Condition>)
    requires p < n <= |rows|
    ensures Emit(rows[..n], p, columns, cond) == Emit(rows, p, columns, cond)
  {
    assert rows[..n][p] == rows[p];
  }

  /** The positions of the first `n` rows holding `v` under `c` grow by `n - 1` when row `n - 1` does. */
  lemma MatchingStep(rows: seq<Row>, n: nat, c: string, v: Value)
    requires 0 < n <= |rows|
    ensures Matching(rows[..n], c, v) ==
            Matching(rows[..n - 1], c, v) + (if c in rows[n - 1] && rows[n - 1][c] == v then [n - 1] else [])
  {
    assert rows[..n][..n - 1] == rows[..n - 1];
    assert rows[..n][n - 1] == rows[n - 1];
  }

  /** Filtering the matching positions of the first `n` rows: those of the first `n - 1`, then row `n - 1`. */
  lemma CollectMatchingStep(rows: seq<Row>, n: nat, c: string, v: Value, columns: seq<string>)
    requires 0 < n <= |rows|
    ensures Collect(rows, Matching(rows[..n], c, v), columns, Some(Condition(c, Eq, v))) ==
            Collect(rows, Matching(rows[..n - 1], c, v), columns, Some(Condition(c, Eq, v))) +
            Emit(rows, n - 1, columns, Some(Condition(c, Eq, v)))
  {
    var cond := Some(Condition(c, Eq, v));
    MatchingStep(rows, n, c, v);
    var front := Matching(rows[..n - 1], c, v);
    if c in rows[n - 1] && rows[n - 1][c] == v {
      CollectSnoc(rows, front, n - 1, columns, cond);
    } else {
      assert Matching(rows[..n], c, v) == front;
      assert Emit(rows, n - 1, columns, cond) == [];
    }
  }

  /** Filtering the first `n` positions: the first `n - 1`, then position `n - 1`. */
  lemma CollectPositionsStep(rows: seq<Row>, n: nat, columns: seq<string>, cond: Option<Condition>)
    requires 0 < n
    ensures Collect(rows, Positions(n), columns, cond) ==
            Collect(rows, Positions(n - 1), columns, cond) + Emit(rows, n - 1, columns, cond)
  {
    assert Positions(n)[..n - 1] == Positions(n - 1);
  }

  /** With an `=` condition, filtering only the matching positions loses nothing. */
  lemma {:induction false} CollectMatching(rows: seq<Row>, n: nat, c: string, v: Value, columns: seq<string>)
    requires n <= |rows|
    ensures Collect(rows, Matching(rows[..n], c, v), columns, Some(Condition(c, Eq, v))) ==
            Collect(rows, Positions(n), columns, Some(Condition(c, Eq, v)))
  {
    var cond := Some(Condition(c, Eq, v));
    if n == 0 {
      assert Matching(rows[..0], c, v) == [] == Positions(0);
    } else {
      calc {
        Collect(rows, Matching(rows[..n], c, v), columns, cond);
        { CollectMatchingStep(rows, n, c, v, columns); }
        Collect(rows, Matching(rows[..n - 1], c, v), columns, cond) + Emit(rows, n - 1, columns, cond);
        { CollectMatching(rows, n - 1, c, v, columns); }
        Collect(rows, Positions(n - 1), columns, cond) + Emit(rows, n - 1, columns, cond);
        { CollectPositionsStep(rows, n, columns, cond); }
        Collect(rows, Positions(n), columns, cond);
      }
    }
  }

  /** Without a usable index, Select returns the matching rows, projected, in storage order. */
  lemma SelectWithoutIndex(s: TableState, columns: seq<string>, cond: Option<Condition>)
    requires !UsesIndex(s, cond)
    ensures SelectResult(s, columns, cond) == ScanSelect(s.rows, columns, cond)
  {
    CollectPositions(s.rows, |s.rows|, columns, cond);
    assert s.rows[..|s.rows|] == s.rows;
  }

  /**
   * Through a consistent index, `column = v` with a non-null `v` returns the
   * same rows as the scan, possibly in another order.
   */
  lemma SelectIndexIsScan(s: TableState, columns: seq<string>, c: string, v: Value)
    requires Good(s) && c in s.indexes && v != Null
    ensures multiset(SelectResult(s, columns, Some(Condition(c, Eq, v)))) ==
            multiset(ScanSelect(s.rows, columns, Some(Condition(c, Eq, v))))
  {
    var cond := Some(Condition(c, Eq, v));
    assert IndexOk(s, c);
    LookupIsScan(s.indexes[c], s.rows, c, v);
    assert s.rows[..|s.rows|] == s.rows;
    CollectPermutation(s.rows, Lookup(s.indexes[c], v), Matching(s.rows, c, v), columns, cond);
    CollectMatching(s.rows, |s.rows|, c, v, columns);
    CollectPositions(s.rows, |s.rows|, columns, cond);
  }

  /** `column = NULL` on an indexed column finds nothing: the index never stores Null. */
  lemma SelectNullThroughIndex(s: TableState, columns: seq<string>, c: string)
    requires c in s.indexes
    ensures SelectResult(s, columns, Some(Condition(c, Eq, Null))) == []
  {
  }

  /** ...whereas the scan finds every row that stores Null under the column. */
  lemma {:induction false} ScanFindsNull(rows: seq<Row>, columns: seq<string>, c: string, p: nat)
    requires p < |rows| && c in rows[p] && rows[p][c] == Null
    ensures ScanSelect(rows, columns, Some(Condition(c, Eq, Null))) != []
  {
    var n := |rows| - 1;
    if p < n {
      assert rows[..n][p] == rows[p];
      ScanFindsNull(rows[..n], columns, c, p);
    }
  }

  /** The first half of Select: the index bucket for `=` on an indexed column, else every position in order. */
  method SelectCandidates(t: Table, cond: Option<Condition>) returns (candidates: seq<Position>)
    requires t.Tagged()
    ensures candidates == Candidates(t.State(), cond)
  {
    if cond.Some? && cond.value.operator == Eq {
      var idx := t.GetIndex(cond.value.column);
      if idx.Some? {
        return Lookup(idx.value.data, cond.value.value);
      }
    }
    candidates := [];
    var i := 0;
    while i < |t.rows|
      invariant 0 <= i <= |t.rows|
      invariant candidates == Positions(i)
    {
      candidates := candidates + [i];
      i := i + 1;
    }
  }

  /** The second half of Select: each candidate in range whose row passes the condition is projected, in candidate order. */
  method SelectFilter(rows: seq<Row>, candidates: seq<Position>, columns: seq<string>, cond: Option<Condition>)
    returns (results: seq<Row>)
    ensures results == Collect(rows, candidates, columns, cond)
  {
    results := [];
    var k := 0;
    while k < |candidates|
      invariant 0 <= k <= |candidates|
      invariant results == Collect(rows, candidates[..k], columns, cond)
    {
      var p := candidates[k];
      assert Collect(rows, candidates[..k + 1], columns, cond) == results + Emit(rows, p, columns, cond) by {
        assert candidates[..k + 1] == candidates[..k] + [p];
        CollectSnoc(rows, candidates[..k], p, columns, cond);
      }
      if p < |rows| {
        var row := rows[p];
        if cond.None? || EvaluateCondition(row, cond.value) {
          results := results + [ProjectRow(row, columns)];
        }
      }
      k := k + 1;
    }
    assert candidates[..k] == candidates;
  }

  /** Select: the candidate positions, then the filter loop; the table is only read. */
  method SelectFrom(t: Table, columns: seq<string>, cond: Option<Condition>) returns (results: seq<Row>)
    requires t.Tagged()
    ensures results == SelectResult(t.State(), columns, cond)
  {
    var candidates := SelectCandidates(t, cond);
    results := SelectFilter(t.rows, candidates, columns, cond);
  }

  // ---------------------------------------------------------------------
  // Insert
  // ---------------------------------------------------------------------

  /** Insert once the table is found: validate, then append. */
  method InsertInto(t: Table, row: Row) returns (err: Option<EngineError>)
    requires t.Valid()
    modifies t, t.indexes.Values
    ensures t.Valid() && t.indexes == old(t.indexes)
    ensures err == ValidateInsert(old(t.State()), row)
    ensures t.State() == if err.None? then AddRowState(old(t.State()), row) else old(t.State())
  {
    err := ValidateInsert(t.State(), row);
    if err.None? {
      var _ := t.AddRow(row);
    }
  }

  // ---------------------------------------------------------------------
  // Update
  // ---------------------------------------------------------------------

  /** The row Update writes: the old row with every updated column set to its new value. */
  function Overlay(row: Row, updates: Row): (r: Row)
    ensures forall c :: Get(r, c) == if c in updates then Get(updates, c) else Get(row, c)
  {
    row + updates
  }

  /** Copy the row, then Set each column of `updates` (in any order). */
  method OverlayRow(row: Row, updates: Row) returns (newRow: Row)
    ensures newRow == Overlay(row, updates)
  {
    newRow := Copy(row);
    var todo := updates.Keys;
    while todo != {}
      invariant todo <= updates.Keys
      invariant newRow.Keys == row.Keys + (updates.Keys - todo)
      invariant forall c :: c in newRow ==> newRow[c] == if c in updates && c !in todo then updates[c] else row[c]
      decreases todo
    {
      var c :| c in todo;
      newRow := Set(newRow, c, updates[c]);
      todo := todo - {c};
    }
  }

  /**
   * The Update loop from position `i` with `count` rows already changed:
   * each matching row is overlaid and validated; the first failure stops the
   * loop with the rows changed so far left in place.
   */
  function UpdateFrom(s: TableState, updates: Row, cond: Option<Condition>, i: nat, count: nat)
    : (TableState, nat, Option<EngineError>)
    requires i <= |s.rows|
    decreases |s.rows| - i
  {
    if i == |s.rows| then (s, count, None)
    else
      var row := s.rows[i];
      if !Matches(cond, row) then UpdateFrom(s, updates, cond, i + 1, count)
      else
        var newRow := Overlay(row, updates);
        var err := ValidateUpdate(s, row, newRow);
        if err.Some? then (s, count, err)
        else UpdateFrom(UpdateRowState(s, i, newRow), updates, cond, i + 1, count + 1)
  }

  /** How many rows match. */
  function CountMatching(rows: seq<Row>, cond: Option<Condition>): (n: nat)
    ensures n <= |rows|
  {
    if rows == [] then 0
    else (if Matches(cond, rows[0]) then 1 else 0) + CountMatching(rows[1..], cond)
  }

  lemma {:induction false} CountConcat(a: seq<Row>, b: seq<Row>, cond: Option<Condition>)
    ensures CountMatching(a + b, cond) == CountMatching(a, cond) + CountMatching(b, cond)
  {
    if a == [] {
      assert a + b == b;
    } else {
      assert (a + b)[0] == a[0];
      assert (a + b)[1..] == a[1..] + b;
      CountConcat(a[1..], b, cond);
    }
  }

  /** The rows after Update has handled positions below `k`: those that match are overlaid. */
  function UpdatedBelow(rows: seq<Row>, updates: Row, cond: Option<Condition>, k: nat): (r: seq<Row>)
    ensures |r| == |rows|
  {
    seq(|rows|, j requires 0 <= j < |rows| =>
      if j < k && Matches(cond, rows[j]) then Overlay(rows[j], updates) else rows[j])
  }

  /** Update keeps the table invariant, whether it finishes or stops early. */
  lemma {:induction false} UpdateKeepsGood(s: TableState, updates: Row, cond: Option<Condition>, i: nat, count: nat)
    requires Good(s) && i <= |s.rows|
    ensures Good(UpdateFrom(s, updates, cond, i, count).0)
    decreases |s.rows| - i
  {
    if i < |s.rows| {
      if !Matches(cond, s.rows[i]) {
        UpdateKeepsGood(s, updates, cond, i + 1, count);
      } else {
        var newRow := Overlay(s.rows[i], updates);
        if ValidateUpdate(s, s.rows[i], newRow).None? {
          UpdateRowKeepsGood(s, i, newRow);
          UpdateKeepsGood(UpdateRowState(s, i, newRow), updates, cond, i + 1, count + 1);
        }
      }
    }
  }

  /**
   * The table after the Update loop has written, in order, every matching
   * row of `s0` below position `k`, each through updateRow.
   */
  function Applied(s0: TableState, updates: Row, cond: Option<Condition>, k: nat): (s: TableState)
    requires k <= |s0.rows|
    ensures |s.rows| == |s0.rows|
    decreases k
  {
    if k == 0 then s0
    else
      var s := Applied(s0, updates, cond, k - 1);
      if Matches(cond, s0.rows[k - 1]) then UpdateRowState(s, k - 1, Overlay(s0.rows[k - 1], updates)) else s
  }

  /** Row `j` does not match, or its overlay passes ValidateUpdate on the table as it stood when the loop reached it. */
  predicate ValidatedAt(s0: TableState, updates: Row, cond: Option<Condition>, j: nat)
    requires j < |s0.rows|
  {
    Matches(cond, s0.rows[j]) ==>
      ValidateUpdate(Applied(s0, updates, cond, j), s0.rows[j], Overlay(s0.rows[j], updates)).None?
  }

  /** Every matching row below `k` passed ValidateUpdate when the loop reached it. */
  predicate ValidatedBelow(s0: TableState, updates: Row, cond: Option<Condition>, k: nat)
    requires k <= |s0.rows|
  {
    forall j :: 0 <= j < k ==> ValidatedAt(s0, updates, cond, j)
  }

  /** Handling position `i` extends the updated prefix by one. */
  lemma UpdatedBelowStep(rows: seq<Row>, updates: Row, cond: Option<Condition>, i: nat)
    requires i < |rows|
    ensures UpdatedBelow(rows, updates, cond, i + 1) ==
      UpdatedBelow(rows, updates, cond, i)[i := if Matches(cond, rows[i]) then Overlay(rows[i], updates) else rows[i]]
  {
  }

  /** Handling position `i` extends the validated prefix when a matching row at `i` validates. */
  lemma ValidatedStep(s0: TableState, updates: Row, cond: Option<Condition>, i: nat)
    requires i < |s0.rows| && ValidatedBelow(s0, updates, cond, i)
    requires Matches(cond, s0.rows[i]) ==>
      ValidateUpdate(Applied(s0, updates, cond, i), s0.rows[i], Overlay(s0.rows[i], updates)).None?
    ensures ValidatedBelow(s0, updates, cond, i + 1)
  {
  }

  /** A row that does not match leaves the updated prefix as it was. */
  lemma UpdatedBelowSkip(rows: seq<Row>, updates: Row, cond: Option<Condition>, i: nat)
    requires i < |rows| && !Matches(cond, rows[i])
    ensures UpdatedBelow(rows, updates, cond, i + 1) == UpdatedBelow(rows, updates, cond, i)
  {
    var a, b := UpdatedBelow(rows, updates, cond, i + 1), UpdatedBelow(rows, updates, cond, i);
    assert forall j :: 0 <= j < |rows| ==> a[j] == b[j];
  }

  /** updateRow replaces exactly one row. */
  lemma UpdateRowRows(s: TableState, p: Position, r: Row)
    requires p < |s.rows|
    ensures UpdateRowState(s, p, r).rows == s.rows[p := r]
  {
  }

  /** The rows of `Applied` are the rows with the matching ones below `k` overlaid. */
  lemma {:induction false} AppliedRows(s0: TableState, updates: Row, cond: Option<Condition>, k: nat)
    requires k <= |s0.rows|
    ensures Applied(s0, updates, cond, k).rows == UpdatedBelow(s0.rows, updates, cond, k)
  {
    if k > 0 {
      var prev := Applied(s0, updates, cond, k - 1);
      AppliedRows(s0, updates, cond, k - 1);
      if Matches(cond, s0.rows[k - 1]) {
        UpdatedBelowStep(s0.rows, updates, cond, k - 1);
        UpdateRowRows(prev, k - 1, Overlay(s0.rows[k - 1], updates));
      } else {
        UpdatedBelowSkip(s0.rows, updates, cond, k - 1);
      }
    }
  }

  /**
   * What the Update loop promises about its outcome on the table `s0` it
   * started from. On success every matching row was validated and written
   * in order. On failure the first matching row `k` whose overlay fails
   * ValidateUpdate stops it: every earlier match was validated and
   * written, nothing else was, and the error is that row's verdict.
   */
  ghost predicate UpdateOutcomeIs(s0: TableState, updates: Row, cond: Option<Condition>,
                                  out: (TableState, nat, Option<EngineError>))
  {
    var rows0 := s0.rows;
    && (out.2.None? ==>
          && out.0 == Applied(s0, updates, cond, |rows0|)
          && out.0.rows == UpdatedBelow(rows0, updates, cond, |rows0|)
          && out.1 == CountMatching(rows0, cond)
          && ValidatedBelow(s0, updates, cond, |rows0|))
    && (out.2.Some? ==>
          exists k :: 0 <= k < |rows0| && Matches(cond, rows0[k]) &&
            out.0 == Applied(s0, updates, cond, k) &&
            out.0.rows == UpdatedBelow(rows0, updates, cond, k) &&
            out.1 == CountMatching(rows0[..k], cond) &&
            ValidatedBelow(s0, updates, cond, k) &&
            k < |out.0.rows| && out.0.rows[k] == rows0[k] &&
            out.2 == ValidateUpdate(out.0, rows0[k], Overlay(rows0[k], updates)))
  }

  /** Counting the matches of a one-longer prefix. */
  lemma CountStep(rows: seq<Row>, cond: Option<Condition>, i: nat)
    requires i < |rows|
    ensures CountMatching(rows[..i + 1], cond) == CountMatching(rows[..i], cond) + if Matches(cond, rows[i]) then 1 else 0
  {
    assert rows[..i + 1] == rows[..i] + [rows[i]];
    CountConcat(rows[..i], [rows[i]], cond);
  }

  /**
   * The outcome of the Update loop started at position `i` with the matching
   * rows below `i` validated and written: it ends as `UpdateOutcomeIs` says.
   */
  lemma {:induction false} UpdateOutcomeFrom(s0: TableState, s: TableState, updates: Row, cond: Option<Condition>,
                                             i: nat, count: nat)
    requires i <= |s0.rows|
    requires s == Applied(s0, updates, cond, i) && ValidatedBelow(s0, updates, cond, i)
    requires count == CountMatching(s0.rows[..i], cond)
    ensures UpdateOutcomeIs(s0, updates, cond, UpdateFrom(s, updates, cond, i, count))
    decreases |s0.rows| - i, 1
  {
    AppliedRows(s0, updates, cond, i);
    if i == |s0.rows| {
      assert s0.rows[..i] == s0.rows;
    } else {
      assert s.rows[i] == s0.rows[i];
      if !Matches(cond, s0.rows[i]) {
        UpdateOutcomeSkipping(s0, s, updates, cond, i, count);
      } else if ValidateUpdate(s, s0.rows[i], Overlay(s0.rows[i], updates)).None? {
        UpdateOutcomeApplying(s0, s, updates, cond, i, count);
      } else {
        UpdateOutcomeFailing(s0, s, updates, cond, i, count);
      }
    }
  }

  /** UpdateOutcomeFrom when the row at `i` does not match. */
  lemma {:induction false} UpdateOutcomeSkipping(s0: TableState, s: TableState, updates: Row, cond: Option<Condition>,
                                                 i: nat, count: nat)
    requires i < |s0.rows| && !Matches(cond, s0.rows[i])
    requires s == Applied(s0, updates, cond, i) && ValidatedBelow(s0, updates, cond, i)
    requires count == CountMatching(s0.rows[..i], cond)
    ensures UpdateOutcomeIs(s0, updates, cond, UpdateFrom(s, updates, cond, i, count))
    decreases |s0.rows| - i, 0
  {
    AppliedRows(s0, updates, cond, i);
    assert s.rows[i] == s0.rows[i];
    CountStep(s0.rows, cond, i);
    ValidatedStep(s0, updates, cond, i);
    assert s == Applied(s0, updates, cond, i + 1);
    UpdateOutcomeFrom(s0, s, updates, cond, i + 1, count);
  }

  /** UpdateOutcomeFrom when the row at `i` matches and its overlay passes validation. */
  lemma {:induction false} UpdateOutcomeApplying(s0: TableState, s: TableState, updates: Row, cond: Option<Condition>,
                                                 i: nat, count: nat)
    requires i < |s0.rows| && Matches(cond, s0.rows[i])
    requires s == Applied(s0, updates, cond, i) && ValidatedBelow(s0, updates, cond, i)
    requires ValidateUpdate(s, s0.rows[i], Overlay(s0.rows[i], updates)).None?
    requires count == CountMatching(s0.rows[..i], cond)
    ensures UpdateOutcomeIs(s0, updates, cond, UpdateFrom(s, updates, cond, i, count))
    decreases |s0.rows| - i, 0
    {
    assert s.rows[i] == s0.rows[i] by { AppliedRows(s0, updates, cond, i); }
    var s1 := UpdateRowState(s, i, Overlay(s0.rows[i], updates));
    assert count + 1 == CountMatching(s0.rows[..i + 1], cond) by { CountStep(s0.rows, cond, i); }
    assert ValidatedBelow(s0, updates, cond, i + 1) by { ValidatedStep(s0, updates, cond, i); }
    assert s1 == Applied(s0, updates, cond, i + 1);
    assert UpdateFrom(s, updates, cond, i, count) == UpdateFrom(s1, updates, cond, i + 1, count + 1) by {
      UpdateFromApplies(s, updates, cond, i, count);
    }
    UpdateOutcomeFrom(s0, s1, updates, cond, i + 1, count + 1);
  }

  /** One step of the Update loop on a matching row whose overlay passes validation. */
  lemma UpdateFromApplies(s: TableState, updates: Row, cond: Option<Condition>, i: nat, count: nat)
    requires i < |s.rows| && Matches(cond, s.rows[i])
    requires ValidateUpdate(s, s.rows[i], Overlay(s.rows[i], updates)).None?
    ensures UpdateFrom(s, updates, cond, i, count) ==
      UpdateFrom(UpdateRowState(s, i, Overlay(s.rows[i], updates)), updates, cond, i + 1, count + 1)
  {
  }

  /** UpdateOutcomeFrom when the row at `i` matches and its overlay fails validation: `i` is the stopping row. */
  lemma UpdateOutcomeFailing(s0: TableState, s: TableState, updates: Row, cond: Option<Condition>,
                             i: nat, count: nat)
    requires i < |s0.rows| && Matches(cond, s0.rows[i])
    requires s == Applied(s0, updates, cond, i) && ValidatedBelow(s0, updates, cond, i)
    requires ValidateUpdate(s, s0.rows[i], Overlay(s0.rows[i], updates)).Some?
    requires count == CountMatching(s0.rows[..i], cond)
    ensures UpdateOutcomeIs(s0, updates, cond, UpdateFrom(s, updates, cond, i, count))
    {
    assert s.rows == UpdatedBelow(s0.rows, updates, cond, i) by { AppliedRows(s0, updates, cond, i); }
    assert s.rows[i] == s0.rows[i];
    var err := ValidateUpdate(s, s0.rows[i], Overlay(s0.rows[i], updates));
    assert UpdateFrom(s, updates, cond, i, count) == (s, count, err);
    assert i < |s0.rows| && Matches(cond, s0.rows[i]) && s == Applied(s0, updates, cond, i) &&
           s.rows == UpdatedBelow(s0.rows, updates, cond, i) && count == CountMatching(s0.rows[..i], cond) &&
           ValidatedBelow(s0, updates, cond, i) && i < |s.rows| && s.rows[i] == s0.rows[i] &&
           err == ValidateUpdate(s, s0.rows[i], Overlay(s0.rows[i], updates));
  }

  /**
   * Update from the first position: either every matching row is validated
   * and written, in order, and the count is the number of matching rows, or
   * the first matching row `k` whose overlay fails ValidateUpdate stops it,
   * with exactly the matching rows below `k` validated and written, their
   * number returned, and that row's verdict as the error.
   */
  lemma UpdateOutcome(s: TableState, updates: Row, cond: Option<Condition>)
    ensures UpdateOutcomeIs(s, updates, cond, UpdateFrom(s, updates, cond, 0, 0))
  {
    assert s.rows[..0] == [];
    UpdateOutcomeFrom(s, s, updates, cond, 0, 0);
  }

  /** One turn of the Update loop at position `i`: overlay a matching row and validate it, writing it back when valid. */
  method UpdateAt(t: Table, updates: Row, cond: Option<Condition>, i: nat, count: nat)
    returns (count': nat, err: Option<EngineError>)
    requires t.Valid() && i < |t.rows|
    modifies t, t.indexes.Values
    ensures t.Valid() && t.indexes == old(t.indexes) && |t.rows| == old(|t.rows|)
    ensures err.None? ==> UpdateFrom(t.State(), updates, cond, i + 1, count') == UpdateFrom(old(t.State()), updates, cond, i, count)
    ensures err.Some? ==> (t.State(), count', err) == UpdateFrom(old(t.State()), updates, cond, i, count)
  {
    var row := t.rows[i];
    if cond.Some? && !EvaluateCondition(row, cond.value) {
      return count, None;
    }
    var newRow := OverlayRow(row, updates);
    err := ValidateUpdate(t.State(), row, newRow);
    if err.Some? {
      return count, err;
    }
    t.UpdateRow(i, newRow);
    count' := count + 1;
  }

  /** Update once the table is found: forward over the rows, stopping at the first failure. */
  method UpdateIn(t: Table, updates: Row, cond: Option<Condition>) returns (count: nat, err: Option<EngineError>)
    requires t.Valid()
    modifies t, t.indexes.Values
    ensures t.Valid() && t.indexes == old(t.indexes)
    ensures (t.State(), count, err) == UpdateFrom(old(t.State()), updates, cond, 0, 0)
  {
    ghost var s0 := t.State();
    count := 0;
    var i := 0;
    while i < |t.rows|
      invariant t.Valid() && t.indexes == old(t.indexes)
      invariant 0 <= i <= |t.rows|
      invariant UpdateFrom(t.State(), updates, cond, i, count) == UpdateFrom(s0, updates, cond, 0, 0)
      decreases |t.rows| - i
    {
      count, err := UpdateAt(t, updates, cond, i, count);
      if err.Some? {
        return;
      }
      i := i + 1;
    }
    assert UpdateFrom(t.State(), updates, cond, i, count) == (t.State(), count, None);
    err := None;
  }

  // ---------------------------------------------------------------------
  // Delete
  // ---------------------------------------------------------------------

  /**
   * The Delete loop over positions i - 1 down to 0 with `count` rows already
   * deleted: each matching row is swap-removed.
   */
  function DeleteDown(s: TableState, cond: Option<Condition>, i: nat, count: nat): (TableState, nat)
    requires i <= |s.rows|
    decreases i
  {
    if i == 0 then (s, count)
    else if !Matches(cond, s.rows[i - 1]) then DeleteDown(s, cond, i - 1, count)
    else DeleteDown(DeleteRowState(s, i - 1), cond, i - 1, count + 1)
  }

  /** A matching row at `i - 1`: DeleteDown goes on from the state without it. */
  lemma DeleteDownMatched(s: TableState, cond: Option<Condition>, i: nat, count: nat)
    requires 0 < i <= |s.rows| && Matches(cond, s.rows[i - 1])
    ensures DeleteDown(s, cond, i, count) == DeleteDown(DeleteRowState(s, i - 1), cond, i - 1, count + 1)
  {
  }

  /** A row at `i - 1` that does not match: DeleteDown goes on from the same state. */
  lemma DeleteDownSkipped(s: TableState, cond: Option<Condition>, i: nat, count: nat)
    requires 0 < i <= |s.rows| && !Matches(cond, s.rows[i - 1])
    ensures DeleteDown(s, cond, i, count) == DeleteDown(s, cond, i - 1, count)
  {
  }

  /** The rows that do not match, in order. */
  function Kept(rows: seq<Row>, cond: Option<Condition>): seq<Row>
  {
    if rows == [] then []
    else (if Matches(cond, rows[0]) then [] else [rows[0]]) + Kept(rows[1..], cond)
  }

  /** The kept rows are rows of the input that do not match, and with the matching ones they make up the input. */
  lemma {:induction false} KeptFacts(rows: seq<Row>, cond: Option<Condition>)
    ensures forall q :: q in Kept(rows, cond) ==> q in rows && !Matches(cond, q)
    ensures |Kept(rows, cond)| + CountMatching(rows, cond) == |rows|
  {
    if rows != [] {
      KeptFacts(rows[1..], cond);
      forall q | q in Kept(rows, cond)
        ensures q in rows && !Matches(cond, q)
      {
        if q !in Kept(rows[1..], cond) {
          assert q == rows[0];
        }
      }
    }
  }

  /** A matching row: DeleteDown goes on from the state without it, which keeps Good. */
  lemma DeleteGoodMatched(s: TableState, cond: Option<Condition>, i: nat, count: nat)
    requires 0 < i <= |s.rows| && Matches(cond, s.rows[i - 1])
    requires Good(DeleteDown(DeleteRowState(s, i - 1), cond, i - 1, count + 1).0)
    ensures Good(DeleteDown(s, cond, i, count).0)
  {
    assert DeleteDown(s, cond, i, count) == DeleteDown(DeleteRowState(s, i - 1), cond, i - 1, count + 1);
  }

  /** A row that does not match: DeleteDown goes on from the same state, which keeps Good. */
  lemma DeleteGoodSkipped(s: TableState, cond: Option<Condition>, i: nat, count: nat)
    requires 0 < i <= |s.rows| && !Matches(cond, s.rows[i - 1])
    requires Good(DeleteDown(s, cond, i - 1, count).0)
    ensures Good(DeleteDown(s, cond, i, count).0)
  {
  }

  /** Delete keeps the table invariant. */
  lemma {:induction false} DeleteKeepsGood(s: TableState, cond: Option<Condition>, i: nat, count: nat)
    requires Good(s) && i <= |s.rows|
    ensures Good(DeleteDown(s, cond, i, count).0)
    decreases i
  {
    if i > 0 {
      if Matches(cond, s.rows[i - 1]) {
        DeleteRowKeepsGood(s, i - 1);
        DeleteKeepsGood(DeleteRowState(s, i - 1), cond, i - 1, count + 1);
        DeleteGoodMatched(s, cond, i, count);
      } else {
        DeleteKeepsGood(s, cond, i - 1, count);
        DeleteGoodSkipped(s, cond, i, count);
      }
    }
  }

  /** Swap-remove at `p` leaves the rows before `p` in place and holds the rows after `p` in another order. */
  lemma SwapRemoveSplit(rows: seq<Row>, p: Position)
    requires p < |rows|
    ensures SwapRemove(rows, p)[..p] == rows[..p]
    ensures multiset(SwapRemove(rows, p)[p..]) == multiset(rows[p + 1..])
  {
    var r := SwapRemove(rows, p);
    var last := |rows| - 1;
    if p < last {
      assert r[p..] == [rows[last]] + rows[p + 1..last];
      assert rows[p + 1..] == rows[p + 1..last] + [rows[last]];
    }
  }

  /** The kept rows of a one-longer suffix. */
  lemma KeptStep(rows: seq<Row>, cond: Option<Condition>, i: nat)
    requires 0 < i <= |rows|
    ensures Kept(rows[i - 1..], cond) == (if Matches(cond, rows[i - 1]) then [] else [rows[i - 1]]) + Kept(rows[i..], cond)
  {
    assert rows[i - 1..][0] == rows[i - 1];
    assert rows[i - 1..][1..] == rows[i..];
  }

  /** The match count of a one-longer suffix. */
  lemma CountSuffixStep(rows: seq<Row>, cond: Option<Condition>, i: nat)
    requires 0 < i <= |rows|
    ensures CountMatching(rows[i - 1..], cond) == (if Matches(cond, rows[i - 1]) then 1 else 0) + CountMatching(rows[i..], cond)
  {
    assert rows[i - 1..][0] == rows[i - 1];
    assert rows[i - 1..][1..] == rows[i..];
  }

  /** The rows of a table in the middle of the Delete loop at position `i`. */
  ghost predicate DeleteLoopRows(orig: seq<Row>, rows: seq<Row>, cond: Option<Condition>, i: nat)
  {
    && i <= |orig| && i <= |rows|
    && rows[..i] == orig[..i]
    && multiset(rows[i..]) == multiset(Kept(orig[i..], cond))
  }

  /** The first `i - 1` rows are in place, so the row looked at next is the original one. */
  lemma DeleteLoopLooksAt(orig: seq<Row>, rows: seq<Row>, cond: Option<Condition>, i: nat)
    requires DeleteLoopRows(orig, rows, cond, i) && 0 < i
    ensures rows[i - 1] == orig[i - 1]
    ensures rows[..i - 1] == orig[..i - 1]
  {
    assert rows[..i][i - 1] == orig[..i][i - 1];
    assert orig[..i][..i - 1] == orig[..i - 1] && rows[..i][..i - 1] == rows[..i - 1];
  }

  /** A kept row in front of the tail joins the kept rows of the tail. */
  lemma KeptSkip(orig: seq<Row>, rows: seq<Row>, cond: Option<Condition>, i: nat)
    requires 0 < i <= |orig| && i <= |rows| && rows[i - 1] == orig[i - 1] && !Matches(cond, orig[i - 1])
    requires multiset(rows[i..]) == multiset(Kept(orig[i..], cond))
    ensures multiset(rows[i - 1..]) == multiset(Kept(orig[i - 1..], cond))
  {
    KeptStep(orig, cond, i);
    assert rows[i - 1..] == [orig[i - 1]] + rows[i..];
  }

  /** Stepping over a row that does not match keeps DeleteLoopRows. */
  lemma DeleteLoopSkip(orig: seq<Row>, rows: seq<Row>, cond: Option<Condition>, i: nat)
    requires DeleteLoopRows(orig, rows, cond, i) && 0 < i && !Matches(cond, orig[i - 1])
    ensures DeleteLoopRows(orig, rows, cond, i - 1)
  {
    DeleteLoopLooksAt(orig, rows, cond, i);
    KeptSkip(orig, rows, cond, i);
  }

  /** Swap-removing a matching row keeps DeleteLoopRows. */
  lemma DeleteLoopRemove(orig: seq<Row>, rows: seq<Row>, cond: Option<Condition>, i: nat)
    requires DeleteLoopRows(orig, rows, cond, i) && 0 < i && Matches(cond, orig[i - 1])
    ensures DeleteLoopRows(orig, SwapRemove(rows, i - 1), cond, i - 1)
  {
    DeleteLoopLooksAt(orig, rows, cond, i);
    KeptStep(orig, cond, i);
    assert Kept(orig[i - 1..], cond) == Kept(orig[i..], cond);
    SwapRemoveSplit(rows, i - 1);
  }

  /**
   * The outcome of the Delete loop at position `i` of a table whose rows
   * are the original first `i` rows followed by rows holding the kept rows
   * of the original tail: only kept rows remain, and the count is the number
   * of matching rows.
   */
  lemma {:induction false} DeleteOutcomeFrom(orig: seq<Row>, s: TableState, cond: Option<Condition>, i: nat, count: nat)
    requires DeleteLoopRows(orig, s.rows, cond, i)
    requires count == CountMatching(orig[i..], cond)
    ensures multiset(DeleteDown(s, cond, i, count).0.rows) == multiset(Kept(orig, cond))
    ensures DeleteDown(s, cond, i, count).1 == CountMatching(orig, cond)
    decreases i, 1
  {
    if i == 0 {
      assert s.rows[0..] == s.rows && orig[0..] == orig;
    } else {
      DeleteLoopLooksAt(orig, s.rows, cond, i);
      if Matches(cond, orig[i - 1]) {
        DeleteOutcomeRemoving(orig, s, cond, i, count);
      } else {
        DeleteOutcomeKeeping(orig, s, cond, i, count);
      }
    }
  }

  /** DeleteOutcomeFrom when the row at `i - 1` matches and is swap-removed. */
  lemma {:induction false} DeleteOutcomeRemoving(orig: seq<Row>, s: TableState, cond: Option<Condition>, i: nat, count: nat)
    requires DeleteLoopRows(orig, s.rows, cond, i) && 0 < i && Matches(cond, orig[i - 1])
    requires count == CountMatching(orig[i..], cond)
    ensures multiset(DeleteDown(s, cond, i, count).0.rows) == multiset(Kept(orig, cond))
    ensures DeleteDown(s, cond, i, count).1 == CountMatching(orig, cond)
    decreases i, 0
  {
    DeleteLoopLooksAt(orig, s.rows, cond, i);
    KeptStep(orig, cond, i);
    CountSuffixStep(orig, cond, i);
    DeleteLoopRemove(orig, s.rows, cond, i);
    var s1 := DeleteRowState(s, i - 1);
    DeleteOutcomeFrom(orig, s1, cond, i - 1, count + 1);
    DeleteDownMatched(s, cond, i, count);
  }

  /** DeleteOutcomeFrom when the row at `i - 1` does not match and stays. */
  lemma {:induction false} DeleteOutcomeKeeping(orig: seq<Row>, s: TableState, cond: Option<Condition>, i: nat, count: nat)
    requires DeleteLoopRows(orig, s.rows, cond, i) && 0 < i && !Matches(cond, orig[i - 1])
    requires count == CountMatching(orig[i..], cond)
    ensures multiset(DeleteDown(s, cond, i, count).0.rows) == multiset(Kept(orig, cond))
    ensures DeleteDown(s, cond, i, count).1 == CountMatching(orig, cond)
    decreases i, 0
  {
    DeleteLoopLooksAt(orig, s.rows, cond, i);
    CountSuffixStep(orig, cond, i);
    DeleteLoopSkip(orig, s.rows, cond, i);
    DeleteOutcomeFrom(orig, s, cond, i - 1, count);
    DeleteDownSkipped(s, cond, i, count);
  }

  /** Without a condition every row matches, so none is kept. */
  lemma {:induction false} KeptNone(rows: seq<Row>)
    ensures Kept(rows, None) == []
  {
    if rows != [] {
      KeptNone(rows[1..]);
    }
  }

  /**
   * Delete over the whole table leaves exactly the rows that do not match
   * (as a multiset) and returns how many matched; without a condition the
   * table is emptied.
   */
  lemma DeleteOutcome(s: TableState, cond: Option<Condition>)
    ensures var (s', n) := DeleteDown(s, cond, |s.rows|, 0);
      && multiset(s'.rows) == multiset(Kept(s.rows, cond))
      && n == CountMatching(s.rows, cond)
      && |s'.rows| == |s.rows| - n
      && (cond.None? ==> s'.rows == [])
  {
    var n := |s.rows|;
    assert s.rows[..n] == s.rows && s.rows[n..] == [];
    DeleteOutcomeFrom(s.rows, s, cond, n, 0);
    var s' := DeleteDown(s, cond, n, 0).0;
    KeptFacts(s.rows, cond);
    assert |s'.rows| == |multiset(s'.rows)| == |Kept(s.rows, cond)|;
    if cond.None? {
      KeptNone(s.rows);
    }
  }

  /** One turn of the Delete loop at position `i`: swap-remove the row when it matches. */
  method DeleteAt(t: Table, cond: Option<Condition>, i: nat, count: nat) returns (count': nat)
    requires t.Valid() && i < |t.rows|
    modifies t, t.indexes.Values
    ensures t.Valid() && t.indexes == old(t.indexes) && i <= |t.rows|
    ensures DeleteDown(t.State(), cond, i, count') == DeleteDown(old(t.State()), cond, i + 1, count)
  {
    var row := t.rows[i];
    ghost var s := t.State();
    if cond.Some? && !EvaluateCondition(row, cond.value) {
      DeleteDownSkipped(s, cond, i + 1, count);
      return count;
    }
    DeleteDownMatched(s, cond, i + 1, count);
    t.DeleteRow(i);
    count' := count + 1;
  }

  /** Delete once the table is found: backward over the positions, so swap-remove skips nothing. */
  method DeleteFrom(t: Table, cond: Option<Condition>) returns (count: nat)
    requires t.Valid()
    modifies t, t.indexes.Values
    ensures t.Valid() && t.indexes == old(t.indexes)
    ensures (t.State(), count) == DeleteDown(old(t.State()), cond, old(|t.rows|), 0)
  {
    ghost var s0 := t.State();
    count := 0;
    var i := |t.rows| - 1;
    while i >= 0
      invariant t.Valid() && t.indexes == old(t.indexes)
      invariant -1 <= i && i + 1 <= |t.rows|
      invariant DeleteDown(t.State(), cond, i + 1, count) == DeleteDown(s0, cond, |s0.rows|, 0)
    {
      count := DeleteAt(t, cond, i, count);
      i := i - 1;
    }
  }
}
