/**
 * The equality inner join of two tables.
 *
 * Each left row with a non-null join value is paired with the right rows
 * storing the same value: through the right table's index on the join column
 * when there is one (bucket order), else by a scan of the right rows
 * (ascending position). Each pair is merged into one row whose keys are
 * qualified by the table names, then optionally projected.
 *
 * `JoinRows` is what InnerJoin computes; `ScanJoin` is the reference answer
 * (every pair with equal values, left rows in order, right rows in order) and
 * `PairCount` counts those pairs. The lemmas tie the three together.
 */
module Join {
  import opened Values
  import opened Indexes
  import opened Tables
  import opened Crud

  /** JoinCondition: `left.leftColumn = right.rightColumn`. */
  datatype JoinCondition = JoinCondition(leftColumn: string, rightColumn: string)

  /** The key `table.column` of a merged row. */
  function Qualify(table: string, column: string): string
  {
    table + "." + column
  }

  /** The column of a key qualified by `table`. */
  function Unqualify(table: string, key: string): string
  {
    if |key| > |table| then key[|table| + 1..] else ""
  }

  /** Every key of the row qualified by the table name, with its value. */
  function Qualified(row: Row, table: string): Row
  {
    map k | k in (set c | c in row :: Qualify(table, c)) :: row[Unqualify(table, k)]
  }

  /** mergeRows: the left row's keys qualified by the left table, then the right row's by the right table. */
  function MergeRows(left: Row, right: Row, leftTable: string, rightTable: string): Row
  {
    Qualified(left, leftTable) + Qualified(right, rightTable)
  }

  /**
   * The keys of a merged row are `leftTable.c` for each left column and
   * `rightTable.c` for each right column; the right row is written last, so
   * on a key that both produce (a self-join, say) the right value wins.
   */
  lemma MergeRowsShape(left: Row, right: Row, leftTable: string, rightTable: string)
    ensures var r := MergeRows(left, right, leftTable, rightTable);
      && (forall k :: k in r <==>
            (exists c :: c in left && k == Qualify(leftTable, c)) || (exists c :: c in right && k == Qualify(rightTable, c)))
      && (forall c :: c in right ==> r[Qualify(rightTable, c)] == right[c])
      && (forall c :: c in left ==>
            r[Qualify(leftTable, c)] == left[c] ||
            exists c' :: c' in right && Qualify(rightTable, c') == Qualify(leftTable, c) && r[Qualify(leftTable, c)] == right[c'])
  {
    var r := MergeRows(left, right, leftTable, rightTable);
    forall c | c in left
      ensures Qualify(leftTable, c) in Qualified(left, leftTable)
      ensures Qualified(left, leftTable)[Qualify(leftTable, c)] == left[c]
    {
      assert Unqualify(leftTable, Qualify(leftTable, c)) == c;
    }
    forall c | c in right
      ensures Qualify(rightTable, c) in Qualified(right, rightTable)
      ensures Qualified(right, rightTable)[Qualify(rightTable, c)] == right[c]
    {
      assert Unqualify(rightTable, Qualify(rightTable, c)) == c;
    }
  }

  /** The positions of the right rows paired with the value `v`: the index bucket, or a scan. */
  function RightCandidates(rs: TableState, column: string, v: Value): seq<Position>
  {
    if column in rs.indexes then Lookup(rs.indexes[column], v) else Matching(rs.rows, column, v)
  }

  /** The left row merged with each right row, by right position. */
  function MergedWith(l: Row, rrows: seq<Row>, leftTable: string, rightTable: string): (r: seq<Row>)
    ensures |r| == |rrows|
    ensures forall p :: 0 <= p < |rrows| ==> r[p] == MergeRows(l, rrows[p], leftTable, rightTable)
  {
    seq(|rrows|, p requires 0 <= p < |rrows| => MergeRows(l, rrows[p], leftTable, rightTable))
  }

  /** The rows joined with `l`: for each candidate in range, in candidate order, the merged row projected. */
  function JoinCollect(l: Row, rrows: seq<Row>, candidates: seq<Position>, leftTable: string, rightTable: string,
                       columns: seq<string>): seq<Row>
  {
    if candidates == [] then []
    else
      var n := |candidates| - 1;
      var p := candidates[n];
      JoinCollect(l, rrows, candidates[..n], leftTable, rightTable, columns) +
      (if p < |rrows| then [ProjectRow(MergeRows(l, rrows[p], leftTable, rightTable), columns)] else [])
  }

  /**
   * The output of one left row: nothing when its join value is absent or
   * null; otherwise the rows joined with it over the right candidates.
   */
  function JoinLeftRow(l: Row, rs: TableState, cond: JoinCondition, leftTable: string, rightTable: string,
                       columns: seq<string>): seq<Row>
  {
    var (v, ok) := Get(l, cond.leftColumn);
    if !ok || v == Null then []
    else JoinCollect(l, rs.rows, RightCandidates(rs, cond.rightColumn, v), leftTable, rightTable, columns)
  }

  /** InnerJoin's result: the outputs of the left rows, in storage order. */
  function JoinRows(lrows: seq<Row>, rs: TableState, cond: JoinCondition, leftTable: string, rightTable: string,
                    columns: seq<string>): seq<Row>
  {
    if lrows == [] then []
    else
      var n := |lrows| - 1;
      JoinRows(lrows[..n], rs, cond, leftTable, rightTable, columns) +
      JoinLeftRow(lrows[n], rs, cond, leftTable, rightTable, columns)
  }

  // ---------------------------------------------------------------------
  // The reference answer
  // ---------------------------------------------------------------------

  /** The right rows storing `v` under `column`, each merged with `l` and projected, in storage order. */
  function ScanJoinRow(l: Row, rrows: seq<Row>, column: string, v: Value, leftTable: string, rightTable: string,
                       columns: seq<string>): seq<Row>
  {
    if rrows == [] then []
    else
      var n := |rrows| - 1;
      ScanJoinRow(l, rrows[..n], column, v, leftTable, rightTable, columns) +
      (if column in rrows[n] && rrows[n][column] == v then [ProjectRow(MergeRows(l, rrows[n], leftTable, rightTable), columns)]
       else [])
  }

  /** Every pair of rows with equal non-null join values, left rows in order, then right rows in order. */
  function ScanJoin(lrows: seq<Row>, rrows: seq<Row>, cond: JoinCondition, leftTable: string, rightTable: string,
                    columns: seq<string>): seq<Row>
  {
    if lrows == [] then []
    else
      var n := |lrows| - 1;
      var l := lrows[n];
      ScanJoin(lrows[..n], rrows, cond, leftTable, rightTable, columns) +
      (if cond.leftColumn in l && l[cond.leftColumn] != Null
       then ScanJoinRow(l, rrows, cond.rightColumn, l[cond.leftColumn], leftTable, rightTable, columns)
       else [])
  }

  /** How many right rows store `v` under `column`. */
  function RightCount(rrows: seq<Row>, column: string, v: Value): nat
  {
    if rrows == [] then 0
    else
      var n := |rrows| - 1;
      RightCount(rrows[..n], column, v) + if column in rrows[n] && rrows[n][column] == v then 1 else 0
  }

  /** How many (left, right) pairs have equal non-null join values. */
  function PairCount(lrows: seq<Row>, rrows: seq<Row>, cond: JoinCondition): nat
  {
    if lrows == [] then 0
    else
      var n := |lrows| - 1;
      var l := lrows[n];
      PairCount(lrows[..n], rrows, cond) +
      if cond.leftColumn in l && l[cond.leftColumn] != Null then RightCount(rrows, cond.rightColumn, l[cond.leftColumn]) else 0
  }

  // ---------------------------------------------------------------------
  // Lemmas
  // ---------------------------------------------------------------------

  /** What one candidate contributes: the merged row projected when it is in range, else nothing. */
  lemma EmitMerged(l: Row, rrows: seq<Row>, p: Position, leftTable: string, rightTable: string, columns: seq<string>)
    ensures Emit(MergedWith(l, rrows, leftTable, rightTable), p, columns, None) ==
            if p < |rrows| then [ProjectRow(MergeRows(l, rrows[p], leftTable, rightTable), columns)] else []
  {
  }

  /** Joining over candidates is Select's filter loop, without a condition, over the merged rows. */
  lemma {:induction false} JoinCollectIsCollect(l: Row, rrows: seq<Row>, candidates: seq<Position>, leftTable: string,
                                                rightTable: string, columns: seq<string>)
    ensures JoinCollect(l, rrows, candidates, leftTable, rightTable, columns) ==
            Collect(MergedWith(l, rrows, leftTable, rightTable), candidates, columns, None)
  {
    if candidates != [] {
      var n := |candidates| - 1;
      JoinCollectIsCollect(l, rrows, candidates[..n], leftTable, rightTable, columns);
      EmitMerged(l, rrows, candidates[n], leftTable, rightTable, columns);
    }
  }

  /** Joining over one more candidate at the end adds what that candidate contributes. */
  lemma JoinCollectSnoc(l: Row, rrows: seq<Row>, c: seq<Position>, p: Position, leftTable: string, rightTable: string,
                        columns: seq<string>)
    ensures JoinCollect(l, rrows, c + [p], leftTable, rightTable, columns) ==
            JoinCollect(l, rrows, c, leftTable, rightTable, columns) +
            (if p < |rrows| then [ProjectRow(MergeRows(l, rrows[p], leftTable, rightTable), columns)] else [])
  {
    assert (c + [p])[..|c|] == c;
  }

  /** Joining over the scan positions of the first `n` right rows: those of the first `n - 1`, then row `n - 1`. */
  lemma JoinMatchingStep(l: Row, rrows: seq<Row>, column: string, v: Value, leftTable: string, rightTable: string,
                         columns: seq<string>, n: nat)
    requires 0 < n <= |rrows|
    ensures JoinCollect(l, rrows, Matching(rrows[..n], column, v), leftTable, rightTable, columns) ==
            JoinCollect(l, rrows, Matching(rrows[..n - 1], column, v), leftTable, rightTable, columns) +
            (if column in rrows[n - 1] && rrows[n - 1][column] == v
             then [ProjectRow(MergeRows(l, rrows[n - 1], leftTable, rightTable), columns)] else [])
  {
    MatchingStep(rrows, n, column, v);
    var front := Matching(rrows[..n - 1], column, v);
    if column in rrows[n - 1] && rrows[n - 1][column] == v {
      JoinCollectSnoc(l, rrows, front, n - 1, leftTable, rightTable, columns);
    } else {
      assert Matching(rrows[..n], column, v) == front;
    }
  }

  /** The scan of the first `n` right rows: that of the first `n - 1`, then row `n - 1`. */
  lemma ScanJoinRowStep(l: Row, rrows: seq<Row>, column: string, v: Value, leftTable: string, rightTable: string,
                        columns: seq<string>, n: nat)
    requires 0 < n <= |rrows|
    ensures ScanJoinRow(l, rrows[..n], column, v, leftTable, rightTable, columns) ==
            ScanJoinRow(l, rrows[..n - 1], column, v, leftTable, rightTable, columns) +
            (if column in rrows[n - 1] && rrows[n - 1][column] == v
             then [ProjectRow(MergeRows(l, rrows[n - 1], leftTable, rightTable), columns)] else [])
  {
    assert rrows[..n][..n - 1] == rrows[..n - 1];
    assert rrows[..n][n - 1] == rrows[n - 1];
  }

  /** Joining over the scan positions of the first `n` right rows is the scan of those rows. */
  lemma {:induction false} JoinScanRow(l: Row, rrows: seq<Row>, column: string, v: Value, leftTable: string,
                                       rightTable: string, columns: seq<string>, n: nat)
    requires n <= |rrows|
    ensures JoinCollect(l, rrows, Matching(rrows[..n], column, v), leftTable, rightTable, columns) ==
            ScanJoinRow(l, rrows[..n], column, v, leftTable, rightTable, columns)
  {
    if n > 0 {
      JoinScanRow(l, rrows, column, v, leftTable, rightTable, columns, n - 1);
      JoinMatchingStep(l, rrows, column, v, leftTable, rightTable, columns, n);
      ScanJoinRowStep(l, rrows, column, v, leftTable, rightTable, columns, n);
    }
  }

  /** The scan output of one left row has one row per right row storing its value. */
  lemma {:induction false} ScanJoinRowLength(l: Row, rrows: seq<Row>, column: string, v: Value, leftTable: string,
                                             rightTable: string, columns: seq<string>)
    ensures |ScanJoinRow(l, rrows, column, v, leftTable, rightTable, columns)| == RightCount(rrows, column, v)
  {
    if rrows != [] {
      ScanJoinRowLength(l, rrows[..|rrows| - 1], column, v, leftTable, rightTable, columns);
    }
  }

  /** The reference answer has one row per pair with equal non-null join values. */
  lemma {:induction false} ScanJoinLength(lrows: seq<Row>, rrows: seq<Row>, cond: JoinCondition, leftTable: string,
                                          rightTable: string, columns: seq<string>)
    ensures |ScanJoin(lrows, rrows, cond, leftTable, rightTable, columns)| == PairCount(lrows, rrows, cond)
  {
    if lrows != [] {
      var n := |lrows| - 1;
      var l := lrows[n];
      ScanJoinLength(lrows[..n], rrows, cond, leftTable, rightTable, columns);
      if cond.leftColumn in l && l[cond.leftColumn] != Null {
        ScanJoinRowLength(l, rrows, cond.rightColumn, l[cond.leftColumn], leftTable, rightTable, columns);
      }
    }
  }

  /** Without an index on the right join column, one left row yields the scan, in right storage order. */
  lemma JoinLeftRowScan(l: Row, rs: TableState, cond: JoinCondition, leftTable: string, rightTable: string,
                        columns: seq<string>)
    requires cond.rightColumn !in rs.indexes && cond.leftColumn in l && l[cond.leftColumn] != Null
    ensures JoinLeftRow(l, rs, cond, leftTable, rightTable, columns) ==
            ScanJoinRow(l, rs.rows, cond.rightColumn, l[cond.leftColumn], leftTable, rightTable, columns)
  {
    JoinScanRow(l, rs.rows, cond.rightColumn, l[cond.leftColumn], leftTable, rightTable, columns, |rs.rows|);
    assert rs.rows[..|rs.rows|] == rs.rows;
  }

  /** Through a consistent index on the right join column, one left row yields the scan's rows in bucket order. */
  lemma JoinLeftRowIndexed(l: Row, rs: TableState, cond: JoinCondition, leftTable: string, rightTable: string,
                           columns: seq<string>)
    requires IndexOk(rs, cond.rightColumn) && cond.leftColumn in l && l[cond.leftColumn] != Null
    ensures multiset(JoinLeftRow(l, rs, cond, leftTable, rightTable, columns)) ==
            multiset(ScanJoinRow(l, rs.rows, cond.rightColumn, l[cond.leftColumn], leftTable, rightTable, columns))
  {
    var v := l[cond.leftColumn];
    var merged := MergedWith(l, rs.rows, leftTable, rightTable);
    LookupIsScan(rs.indexes[cond.rightColumn], rs.rows, cond.rightColumn, v);
    JoinCollectIsCollect(l, rs.rows, Lookup(rs.indexes[cond.rightColumn], v), leftTable, rightTable, columns);
    JoinCollectIsCollect(l, rs.rows, Matching(rs.rows, cond.rightColumn, v), leftTable, rightTable, columns);
    CollectPermutation(merged, Lookup(rs.indexes[cond.rightColumn], v), Matching(rs.rows, cond.rightColumn, v), columns, None);
    JoinScanRow(l, rs.rows, cond.rightColumn, v, leftTable, rightTable, columns, |rs.rows|);
    assert rs.rows[..|rs.rows|] == rs.rows;
  }

  /** Without an index on the right join column, InnerJoin's rows are exactly the reference answer, in order. */
  lemma {:induction false} JoinWithoutIndex(lrows: seq<Row>, rs: TableState, cond: JoinCondition, leftTable: string,
                                            rightTable: string, columns: seq<string>)
    requires cond.rightColumn !in rs.indexes
    ensures JoinRows(lrows, rs, cond, leftTable, rightTable, columns) == ScanJoin(lrows, rs.rows, cond, leftTable, rightTable, columns)
  {
    if lrows != [] {
      var n := |lrows| - 1;
      var l := lrows[n];
      JoinWithoutIndex(lrows[..n], rs, cond, leftTable, rightTable, columns);
      if cond.leftColumn in l && l[cond.leftColumn] != Null {
        JoinLeftRowScan(l, rs, cond, leftTable, rightTable, columns);
      }
    }
  }

  /**
   * On a table whose indexes are consistent, InnerJoin's rows are the
   * reference answer up to order: the index path finds the same pairs as the
   * scan.
   */
  lemma {:induction false} JoinIsScan(lrows: seq<Row>, rs: TableState, cond: JoinCondition, leftTable: string,
                                      rightTable: string, columns: seq<string>)
    requires Good(rs)
    ensures multiset(JoinRows(lrows, rs, cond, leftTable, rightTable, columns)) ==
            multiset(ScanJoin(lrows, rs.rows, cond, leftTable, rightTable, columns))
  {
    if lrows != [] {
      var n := |lrows| - 1;
      var l := lrows[n];
      JoinIsScan(lrows[..n], rs, cond, leftTable, rightTable, columns);
      if cond.leftColumn in l && l[cond.leftColumn] != Null {
        if cond.rightColumn in rs.indexes {
          assert IndexOk(rs, cond.rightColumn);
          JoinLeftRowIndexed(l, rs, cond, leftTable, rightTable, columns);
        } else {
          JoinLeftRowScan(l, rs, cond, leftTable, rightTable, columns);
        }
      }
    }
  }

  /** On a table whose indexes are consistent, InnerJoin returns one row per pair with equal non-null join values. */
  lemma JoinLength(lrows: seq<Row>, rs: TableState, cond: JoinCondition, leftTable: string, rightTable: string,
                   columns: seq<string>)
    requires Good(rs)
    ensures |JoinRows(lrows, rs, cond, leftTable, rightTable, columns)| == PairCount(lrows, rs.rows, cond)
  {
    JoinIsScan(lrows, rs, cond, leftTable, rightTable, columns);
    ScanJoinLength(lrows, rs.rows, cond, leftTable, rightTable, columns);
    assert |multiset(JoinRows(lrows, rs, cond, leftTable, rightTable, columns))| ==
           |multiset(ScanJoin(lrows, rs.rows, cond, leftTable, rightTable, columns))|;
  }

  // ---------------------------------------------------------------------
  // The loops of InnerJoin
  // ---------------------------------------------------------------------

  /** The linear scan of the right rows: every position whose row stores `v` under `column`, ascending. */
  method ScanRight(rrows: seq<Row>, column: string, v: Value) returns (positions: seq<Position>)
    ensures positions == Matching(rrows, column, v)
  {
    positions := [];
    var i := 0;
    while i < |rrows|
      invariant 0 <= i <= |rrows|
      invariant positions == Matching(rrows[..i], column, v)
    {
      MatchingStep(rrows, i + 1, column, v);
      assert rrows[..i + 1][..i] == rrows[..i];
      var (rightValue, ok) := Get(rrows[i], column);
      if ok && rightValue == v {
        positions := positions + [i];
      }
      i := i + 1;
    }
    assert rrows[..i] == rrows;
  }

  /** The joined rows of one left row: each candidate in range merged with it and projected, in candidate order. */
  method JoinCandidates(l: Row, rrows: seq<Row>, candidates: seq<Position>, leftTable: string, rightTable: string,
                        columns: seq<string>) returns (results: seq<Row>)
    ensures results == JoinCollect(l, rrows, candidates, leftTable, rightTable, columns)
  {
    results := [];
    var k := 0;
    while k < |candidates|
      invariant 0 <= k <= |candidates|
      invariant results == JoinCollect(l, rrows, candidates[..k], leftTable, rightTable, columns)
    {
      var p := candidates[k];
      assert candidates[..k + 1][..k] == candidates[..k];
      if p < |rrows| {
        var joined := MergeRows(l, rrows[p], leftTable, rightTable);
        results := results + [ProjectRow(joined, columns)];
      }
      k := k + 1;
    }
    assert candidates[..k] == candidates;
  }

  /** The output of the first `i + 1` left rows: that of the first `i`, then that of row `i`. */
  lemma JoinRowsStep(lrows: seq<Row>, i: nat, rs: TableState, cond: JoinCondition, leftTable: string, rightTable: string,
                     columns: seq<string>)
    requires i < |lrows|
    ensures JoinRows(lrows[..i + 1], rs, cond, leftTable, rightTable, columns) ==
            JoinRows(lrows[..i], rs, cond, leftTable, rightTable, columns) + JoinLeftRow(lrows[i], rs, cond, leftTable, rightTable, columns)
  {
    assert lrows[..i + 1][..i] == lrows[..i];
    assert lrows[..i + 1][i] == lrows[i];
  }

  /** One turn of InnerJoin's outer loop: the rows one left row contributes. */
  method JoinLeft(l: Row, right: Table, rightIndex: Option<Index>, cond: JoinCondition, leftTable: string,
                  rightTable: string, columns: seq<string>) returns (joined: seq<Row>)
    requires right.Tagged() && rightIndex == right.GetIndex(cond.rightColumn)
    ensures joined == JoinLeftRow(l, right.State(), cond, leftTable, rightTable, columns)
  {
    var (leftValue, ok) := Get(l, cond.leftColumn);
    if !ok || leftValue == Null {
      return [];
    }
    var candidates;
    if rightIndex.Some? {
      candidates := Lookup(rightIndex.value.data, leftValue);
    } else {
      candidates := ScanRight(right.rows, cond.rightColumn, leftValue);
    }
    joined := JoinCandidates(l, right.rows, candidates, leftTable, rightTable, columns);
  }

  /** The outer loop of InnerJoin over the left rows; neither table changes. */
  method JoinTables(left: Table, right: Table, cond: JoinCondition, leftTable: string, rightTable: string,
                    columns: seq<string>) returns (results: seq<Row>)
    requires right.Tagged()
    ensures results == JoinRows(left.rows, right.State(), cond, leftTable, rightTable, columns)
  {
    var rightIndex := right.GetIndex(cond.rightColumn);
    ghost var rs := right.State();
    results := [];
    var i := 0;
    while i < |left.rows|
      invariant 0 <= i <= |left.rows|
      invariant results == JoinRows(left.rows[..i], rs, cond, leftTable, rightTable, columns)
    {
      JoinRowsStep(left.rows, i, rs, cond, leftTable, rightTable, columns);
      var joined := JoinLeft(left.rows[i], right, rightIndex, cond, leftTable, rightTable, columns);
      results := results + joined;
      i := i + 1;
    }
    assert left.rows[..i] == left.rows;
  }
}
