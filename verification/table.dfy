/**
 * Tables: a schema, a dense sequence of rows, the primary-key column and one
 * hash index per indexed column.
 *
 * `TableState` is the value a table holds at one moment (its index objects
 * read as their data maps). The functions on `TableState` say what each
 * operation of the table does; `Good` is the invariant every operation keeps,
 * with index consistency at its centre. The class `Table` performs the same
 * operations in place and is proved against those functions.
 */
module Tables {
  import opened Values
  import opened Indexes

  /** A column's declared type: any upper-cased keyword; never enforced. */
  type ColumnType = string

  const TypeInt: ColumnType := "INT"
  const TypeString: ColumnType := "STRING"
  const TypeBool: ColumnType := "BOOL"

  datatype Column = Column(name: string, colType: ColumnType, primaryKey: bool, unique: bool, notNull: bool)

  /** A table at one moment: rows by position and index data by column. */
  datatype TableState = TableState(
    name: string,
    schema: seq<Column>,
    rows: seq<Row>,
    primaryKey: string,
    indexes: map<string, IndexData>)

  /** hasColumn: some column of the schema is named `c`. */
  function HasColumn(schema: seq<Column>, c: string): (b: bool)
    ensures b <==> exists i :: 0 <= i < |schema| && schema[i].name == c
  {
    if schema == [] then false
    else schema[0].name == c || HasColumn(schema[1..], c)
  }

  /** The name of the last column marked primary key, "" when there is none. */
  function LastPrimaryKey(schema: seq<Column>): string
  {
    if schema == [] then ""
    else
      var n := |schema| - 1;
      if schema[n].primaryKey then schema[n].name else LastPrimaryKey(schema[..n])
  }

  /**
   * NewTable's primary key: "" when no column is marked, otherwise the name
   * of a marked column after which no column is marked (a later mark wins).
   */
  lemma {:induction false} LastPrimaryKeyIsLast(schema: seq<Column>)
    ensures (forall i :: 0 <= i < |schema| ==> !schema[i].primaryKey) ==> LastPrimaryKey(schema) == ""
    ensures (exists i :: 0 <= i < |schema| && schema[i].primaryKey) ==>
              exists i :: 0 <= i < |schema| && schema[i].primaryKey && schema[i].name == LastPrimaryKey(schema) &&
                forall j :: i < j < |schema| ==> !schema[j].primaryKey
  {
    if schema != [] {
      var n := |schema| - 1;
      var front := schema[..n];
      if schema[n].primaryKey {
        assert LastPrimaryKey(schema) == schema[n].name;
      } else {
        assert LastPrimaryKey(schema) == LastPrimaryKey(front);
        assert forall i :: 0 <= i < n ==> front[i] == schema[i];
        LastPrimaryKeyIsLast(front);
        if exists i :: 0 <= i < |schema| && schema[i].primaryKey {
          var i :| 0 <= i < |schema| && schema[i].primaryKey;
          assert front[i].primaryKey;
          var w :| 0 <= w < n && front[w].primaryKey && front[w].name == LastPrimaryKey(front) &&
            forall j :: w < j < n ==> !front[j].primaryKey;
          assert forall j :: w < j < |schema| ==> !schema[j].primaryKey;
        }
      }
    }
  }

  /** The columns that get an index when the table is created: primary-key and unique ones. */
  function KeyColumns(schema: seq<Column>): set<string>
  {
    set i | 0 <= i < |schema| && (schema[i].primaryKey || schema[i].unique) :: schema[i].name
  }

  /** The index on `c` exists, is on a schema column and is consistent with the rows. */
  ghost predicate IndexOk(s: TableState, c: string)
  {
    c in s.indexes && HasColumn(s.schema, c) && Consistent(s.indexes[c], s.rows, c)
  }

  /** Every index is on a schema column and consistent with the rows. */
  ghost predicate IndexesConsistent(s: TableState)
  {
    forall c {:trigger IndexOk(s, c)} :: c in s.indexes ==> IndexOk(s, c)
  }

  /**
   * The table invariant: consistent indexes, the primary key as NewTable
   * chose it, and an index on every primary-key and unique column.
   */
  ghost predicate Good(s: TableState)
  {
    && IndexesConsistent(s)
    && s.primaryKey == LastPrimaryKey(s.schema)
    && KeyColumns(s.schema) <= s.indexes.Keys
  }

  /** NewTable: no rows, the last primary-key column, an empty index per key column. */
  function NewTableState(name: string, schema: seq<Column>): (s: TableState)
    ensures s.rows == [] && s.name == name && s.schema == schema
    ensures s.indexes.Keys == KeyColumns(schema)
  {
    TableState(name, schema, [], LastPrimaryKey(schema), map c | c in KeyColumns(schema) :: map[])
  }

  /** KeyColumns of a one-longer prefix adds the next column's name when it is a key column. */
  lemma KeyColumnsStep(schema: seq<Column>, i: nat)
    requires i < |schema|
    ensures KeyColumns(schema[..i + 1]) ==
      KeyColumns(schema[..i]) + (if schema[i].primaryKey || schema[i].unique then {schema[i].name} else {})
  {
    var front := schema[..i];
    assert forall j :: 0 <= j < i ==> schema[..i + 1][j] == front[j];
    assert schema[..i + 1][i] == schema[i];
  }

  /** LastPrimaryKey of a one-longer prefix: the next column when it is a primary key. */
  lemma LastPrimaryKeyStep(schema: seq<Column>, i: nat)
    requires i < |schema|
    ensures LastPrimaryKey(schema[..i + 1]) ==
      if schema[i].primaryKey then schema[i].name else LastPrimaryKey(schema[..i])
  {
    assert schema[..i + 1][..i] == schema[..i];
  }

  /** A new table satisfies the invariant. */
  lemma NewTableGood(name: string, schema: seq<Column>)
    ensures Good(NewTableState(name, schema))
  {
    var s := NewTableState(name, schema);
    forall c | c in s.indexes
      ensures IndexOk(s, c)
    {
      var i :| 0 <= i < |schema| && (schema[i].primaryKey || schema[i].unique) && schema[i].name == c;
    }
  }

  /** The index CreateIndex backfills: every row's value added at its position, in order. */
  function BuildIndex(rows: seq<Row>, c: string): (d: IndexData)
    ensures Consistent(d, rows, c)
    ensures forall v :: v in d ==> Ascending(d[v])
  {
    if rows == [] then map[]
    else
      var n := |rows| - 1;
      var front := BuildIndex(rows[..n], c);
      assert rows[..n] + [rows[n]] == rows;
      AddedConsistent(front, rows[..n], c, rows[n]);
      forall v | v in front
        ensures forall i :: 0 <= i < |front[v]| ==> front[v][i] < n
      {
        forall i | 0 <= i < |front[v]|
          ensures front[v][i] < n
        {
          assert front[v][i] in front[v];
        }
      }
      Added(front, ValueOf(rows[n], c), n)
  }

  /**
   * CreateIndex: an unknown column is an error and changes nothing; an
   * indexed column is left as it is; otherwise the new index is built from
   * the rows and no other index changes.
   */
  function CreateIndexState(s: TableState, c: string): (r: (TableState, Option<EngineError>))
    ensures !HasColumn(s.schema, c) ==> r == (s, Some(ColumnNotFound(s.name, c)))
    ensures HasColumn(s.schema, c) ==> r.1 == None
    ensures c in s.indexes ==> r.0 == s
    ensures r.0.indexes.Keys == if HasColumn(s.schema, c) then s.indexes.Keys + {c} else s.indexes.Keys
    ensures r.0 == s.(indexes := r.0.indexes)
    ensures forall k :: k in s.indexes ==> r.0.indexes[k] == s.indexes[k]
    ensures c in r.0.indexes && c !in s.indexes ==> r.0.indexes[c] == BuildIndex(s.rows, c)
    ensures c in r.0.indexes && c !in s.indexes ==> Consistent(r.0.indexes[c], s.rows, c)
    ensures c in r.0.indexes && c !in s.indexes ==> forall v :: v in r.0.indexes[c] ==> Ascending(r.0.indexes[c][v])
  {
    if !HasColumn(s.schema, c) then (s, Some(ColumnNotFound(s.name, c)))
    else if c in s.indexes then
      assert s.indexes[c := s.indexes[c]] == s.indexes;
      (s, None)
    else (s.(indexes := s.indexes[c := BuildIndex(s.rows, c)]), None)
  }

  /** hasPrimaryKeyValue: through the primary-key index when there is one, else by a scan. */
  function HasPrimaryKeyValue(s: TableState, v: Value): bool
  {
    if s.primaryKey == "" then false
    else if s.primaryKey in s.indexes then Has(s.indexes[s.primaryKey], v)
    else ScanHas(s.rows, s.primaryKey, v)
  }

  /** hasUniqueValue: through the column's index when there is one, else by a scan. */
  function HasUniqueValue(s: TableState, c: string, v: Value): bool
  {
    if c in s.indexes then Has(s.indexes[c], v) else ScanHas(s.rows, c, v)
  }

  /** The fallback scan: some row holds the key `c` mapped to exactly `v`. */
  function ScanHas(rows: seq<Row>, c: string, v: Value): (b: bool)
    ensures b <==> exists p :: 0 <= p < |rows| && c in rows[p] && rows[p][c] == v
  {
    if rows == [] then false
    else (c in rows[0] && rows[0][c] == v) || ScanHas(rows[1..], c, v)
  }

  /** With a consistent index, asking the index and scanning the rows agree on every non-null value. */
  lemma IndexHasIsScan(d: IndexData, rows: seq<Row>, c: string, v: Value)
    requires Consistent(d, rows, c)
    ensures Has(d, v) <==> v != Null && ScanHas(rows, c, v)
  {
    if v != Null && ScanHas(rows, c, v) {
      var p :| 0 <= p < |rows| && c in rows[p] && rows[p][c] == v;
      ConsistentBuckets(d, rows, c, v, p);
    }
    if Has(d, v) {
      var p := d[v][0];
      assert p in d[v];
      assert c in rows[p] && rows[p][c] == v;
    }
  }

  /**
   * hasPrimaryKeyValue is false without a primary key; otherwise it holds
   * exactly when some row stores the non-null `v` in the primary-key column.
   */
  lemma PrimaryKeyValueIsScan(s: TableState, v: Value)
    requires Good(s)
    ensures HasPrimaryKeyValue(s, v) <==> s.primaryKey != "" && v != Null && ScanHas(s.rows, s.primaryKey, v)
  {
    if s.primaryKey != "" {
      LastPrimaryKeyIsLast(s.schema);
      var i :| 0 <= i < |s.schema| && s.schema[i].primaryKey && s.schema[i].name == s.primaryKey;
      assert s.primaryKey in KeyColumns(s.schema);
      assert IndexOk(s, s.primaryKey);
      IndexHasIsScan(s.indexes[s.primaryKey], s.rows, s.primaryKey, v);
    }
  }

  /**
   * hasUniqueValue on a non-null value gives the same answer whether the
   * column is indexed or scanned; on Null an indexed column never collides.
   */
  lemma UniqueValueIsScan(s: TableState, c: string, v: Value)
    requires IndexesConsistent(s)
    ensures v != Null ==> (HasUniqueValue(s, c, v) <==> ScanHas(s.rows, c, v))
    ensures v == Null && c in s.indexes ==> !HasUniqueValue(s, c, v)
  {
    if c in s.indexes {
      assert IndexOk(s, c);
      IndexHasIsScan(s.indexes[c], s.rows, c, v);
    }
  }

  /** Every index adds position `p` under the value `r` holds in its column. */
  function AddedAll(m: map<string, IndexData>, r: Row, p: Position): (m': map<string, IndexData>)
    ensures m'.Keys == m.Keys
  {
    map c | c in m :: Added(m[c], ValueOf(r, c), p)
  }

  /** Every index whose column's value changed from `oldRow` to `newRow` moves `p`. */
  function UpdatedAll(m: map<string, IndexData>, oldRow: Row, newRow: Row, p: Position): (m': map<string, IndexData>)
    ensures m'.Keys == m.Keys
  {
    map c | c in m :: UpdatedIndex(m[c], oldRow, newRow, p, c)
  }

  /** Every index drops `p` from the bucket of the value `r` holds in its column. */
  function RemovedAll(m: map<string, IndexData>, r: Row, p: Position): (m': map<string, IndexData>)
    ensures m'.Keys == m.Keys
  {
    map c | c in m :: Removed(m[c], ValueOf(r, c), p)
  }

  /** Every index moves the value `r` holds in its column from position `from` to `to`. */
  function MovedAll(m: map<string, IndexData>, r: Row, from: Position, to: Position): (m': map<string, IndexData>)
    ensures m'.Keys == m.Keys
  {
    map c | c in m :: Added(Removed(m[c], ValueOf(r, c), from), ValueOf(r, c), to)
  }

  /** addRow: the row goes to the end and every index adds the new position. */
  function AddRowState(s: TableState, r: Row): (s': TableState)
    ensures s'.rows == s.rows + [r]
    ensures s'.indexes.Keys == s.indexes.Keys
    ensures forall c :: c in s.indexes ==> s'.indexes[c] == Added(s.indexes[c], ValueOf(r, c), |s.rows|)
    ensures s' == s.(rows := s'.rows, indexes := s'.indexes)
  {
    s.(rows := s.rows + [r], indexes := AddedAll(s.indexes, r, |s.rows|))
  }

  /** What updateRow does to one index: move `p` when the column's value changed. */
  function UpdatedIndex(d: IndexData, oldRow: Row, newRow: Row, p: Position, c: string): IndexData
  {
    var oldV, newV := ValueOf(oldRow, c), ValueOf(newRow, c);
    if oldV != newV then Added(Removed(d, oldV, p), newV, p) else d
  }

  /** updateRow: only row `p` is replaced; each index whose value changed moves `p`. */
  function UpdateRowState(s: TableState, p: Position, r: Row): (s': TableState)
    requires p < |s.rows|
    ensures |s'.rows| == |s.rows| && s'.rows[p] == r
    ensures forall q :: 0 <= q < |s.rows| && q != p ==> s'.rows[q] == s.rows[q]
    ensures s'.indexes.Keys == s.indexes.Keys
    ensures forall c :: c in s.indexes && ValueOf(s.rows[p], c) == ValueOf(r, c) ==> s'.indexes[c] == s.indexes[c]
    ensures s' == s.(rows := s'.rows, indexes := s'.indexes)
  {
    s.(rows := s.rows[p := r], indexes := UpdatedAll(s.indexes, s.rows[p], r, p))
  }

  /** Swap-remove: the last row takes position `p` and the sequence shrinks by one. */
  function SwapRemove(rows: seq<Row>, p: Position): (r: seq<Row>)
    requires p < |rows|
    ensures |r| == |rows| - 1
    ensures forall q :: 0 <= q < |r| && q != p ==> r[q] == rows[q]
    ensures p < |r| ==> r[p] == rows[|rows| - 1]
  {
    var last := |rows| - 1;
    assert rows == rows[..last] + [rows[last]];
    if p == last then rows[..last]
    else
      var swapped := rows[p := rows[last]];
      assert swapped == swapped[..last] + [rows[last]];
      swapped[..last]
  }

  /**
   * What deleteRow does to one index: drop `p` from the deleted row's bucket,
   * then, when a row was moved, move its value from `last` to `p`.
   */
  function DeletedIndex(d: IndexData, rows: seq<Row>, p: Position, c: string): IndexData
    requires p < |rows|
  {
    var last := |rows| - 1;
    var cleared := Removed(d, ValueOf(rows[p], c), p);
    if p == last then cleared
    else
      var moved := ValueOf(rows[last], c);
      Added(Removed(cleared, moved, last), moved, p)
  }

  /** deleteRow: a swap-remove of the rows, with every index following it. */
  function DeleteRowState(s: TableState, p: Position): (s': TableState)
    requires p < |s.rows|
    ensures s'.rows == SwapRemove(s.rows, p)
    ensures s'.indexes.Keys == s.indexes.Keys
    ensures s' == s.(rows := s'.rows, indexes := s'.indexes)
  {
    var last := |s.rows| - 1;
    var cleared := RemovedAll(s.indexes, s.rows[p], p);
    s.(rows := SwapRemove(s.rows, p),
       indexes := if p == last then cleared else MovedAll(cleared, s.rows[last], last, p))
  }

  /** Emptying row `p` and dropping `p` from its bucket keeps the index consistent. */
  lemma ClearedConsistent(d: IndexData, rows: seq<Row>, c: string, p: Position)
    requires Consistent(d, rows, c) && p < |rows|
    ensures Consistent(Removed(d, ValueOf(rows[p], c), p), rows[p := map[]], c)
  {
    MovedConsistent(d, rows, c, p, map[]);
  }

  /** Deleting the last row: drop it from its bucket, then truncate. */
  lemma DeletedLastConsistent(d: IndexData, rows: seq<Row>, c: string)
    requires Consistent(d, rows, c) && |rows| > 0
    ensures var last := |rows| - 1;
      Consistent(DeletedIndex(d, rows, last, c), SwapRemove(rows, last), c)
  {
    var last := |rows| - 1;
    ClearedConsistent(d, rows, c, last);
    var rows1 := rows[last := map[]];
    assert rows1[..last] == SwapRemove(rows, last);
    TruncatedConsistent(Removed(d, ValueOf(rows[last], c), last), rows1, c);
  }

  /**
   * Deleting a row before the last: empty `p`, empty the last row, move the
   * last row's value to `p`, truncate.
   */
  lemma DeletedMovedConsistent(d: IndexData, rows: seq<Row>, c: string, p: Position)
    requires Consistent(d, rows, c) && p < |rows| - 1
    ensures Consistent(DeletedIndex(d, rows, p, c), SwapRemove(rows, p), c)
  {
    var last := |rows| - 1;
    ClearedConsistent(d, rows, c, p);
    var d1, rows1 := Removed(d, ValueOf(rows[p], c), p), rows[p := map[]];
    var moved := ValueOf(rows[last], c);
    assert rows1[last] == rows[last];
    ClearedConsistent(d1, rows1, c, last);
    var d2, rows2 := Removed(d1, moved, last), rows1[last := map[]];
    assert ValueOf(rows2[p], c) == Null;
    MovedConsistent(d2, rows2, c, p, rows[last]);
    var rows3 := rows2[p := rows[last]];
    assert rows3[..last] == SwapRemove(rows, p);
    TruncatedConsistent(Added(d2, moved, p), rows3, c);
  }

  /** The index that deleteRow leaves behind is consistent with the swap-removed rows. */
  lemma DeletedConsistent(d: IndexData, rows: seq<Row>, c: string, p: Position)
    requires Consistent(d, rows, c) && p < |rows|
    ensures Consistent(DeletedIndex(d, rows, p, c), SwapRemove(rows, p), c)
  {
    if p == |rows| - 1 {
      DeletedLastConsistent(d, rows, c);
    } else {
      DeletedMovedConsistent(d, rows, c, p);
    }
  }

  /** Creating an index keeps the invariant. */
  lemma CreateIndexKeepsGood(s: TableState, c: string)
    requires IndexesConsistent(s)
    ensures IndexesConsistent(CreateIndexState(s, c).0)
    ensures Good(s) ==> Good(CreateIndexState(s, c).0)
  {
    var s' := CreateIndexState(s, c).0;
    forall k | k in s'.indexes
      ensures IndexOk(s', k)
    {
      if k in s.indexes {
        assert IndexOk(s, k);
      }
    }
  }

  /** addRow keeps every index consistent. */
  lemma AddRowKeepsGood(s: TableState, r: Row)
    requires Good(s)
    ensures Good(AddRowState(s, r))
  {
    var s' := AddRowState(s, r);
    forall c | c in s'.indexes
      ensures IndexOk(s', c)
    {
      assert IndexOk(s, c);
      AddedConsistent(s.indexes[c], s.rows, c, r);
    }
  }

  /** updateRow keeps every index consistent. */
  lemma UpdateRowKeepsGood(s: TableState, p: Position, r: Row)
    requires Good(s) && p < |s.rows|
    ensures Good(UpdateRowState(s, p, r))
  {
    var s' := UpdateRowState(s, p, r);
    forall c | c in s'.indexes
      ensures IndexOk(s', c)
    {
      assert IndexOk(s, c);
      if ValueOf(s.rows[p], c) != ValueOf(r, c) {
        MovedConsistent(s.indexes[c], s.rows, c, p, r);
      } else {
        SameColumnConsistent(s.indexes[c], s.rows, s'.rows, c);
      }
    }
  }

  /** One index after deleteRow, as DeletedIndex describes it. */
  lemma DeleteRowStateAt(s: TableState, p: Position, c: string)
    requires p < |s.rows| && c in s.indexes
    ensures DeleteRowState(s, p).indexes[c] == DeletedIndex(s.indexes[c], s.rows, p, c)
  {
  }

  /** deleteRow keeps every index consistent. */
  lemma DeleteRowKeepsGood(s: TableState, p: Position)
    requires Good(s) && p < |s.rows|
    ensures Good(DeleteRowState(s, p))
  {
    var s' := DeleteRowState(s, p);
    forall c | c in s'.indexes
      ensures IndexOk(s', c)
    {
      assert IndexOk(s, c);
      DeleteRowStateAt(s, p, c);
      DeletedConsistent(s.indexes[c], s.rows, c, p);
    }
  }

  /** The steps deleteRow takes in place land on DeleteRowState, which is Good. */
  lemma DeleteRowSteps(s: TableState, p: Position, rows: seq<Row>, m: map<string, IndexData>)
    requires Good(s) && p < |s.rows|
    requires var last := |s.rows| - 1;
      rows == (if p == last then s.rows else s.rows[p := s.rows[last]])[..last]
    requires var last := |s.rows| - 1; var cleared := RemovedAll(s.indexes, s.rows[p], p);
      m == if p == last then cleared else MovedAll(cleared, s.rows[last], last, p)
    ensures s.(rows := rows, indexes := m) == DeleteRowState(s, p)
    ensures Good(s.(rows := rows, indexes := m))
  {
    DeleteRowKeepsGood(s, p);
  }

  /** The in-place table. */
  class Table {
    const name: string
    const schema: seq<Column>
    var rows: seq<Row>
    var primaryKey: string
    var indexes: map<string, Index>

    /** The table as a value, each index read as its data. */
    function State(): TableState
      reads this, indexes.Values
    {
      TableState(name, schema, rows, primaryKey, Contents())
    }

    /** Every index object is tagged with the column it is stored under (so no two are shared). */
    ghost predicate Tagged()
      reads this`indexes, indexes.Values
    {
      forall c :: c in indexes ==> indexes[c].column == c
    }

    ghost predicate Valid()
      reads this, indexes.Values
    {
      Tagged() && Good(State())
    }

    /** NewTable: an index on each primary-key and unique column, in schema order. */
    constructor (name: string, schema: seq<Column>)
      ensures Valid() && fresh(indexes.Values)
      ensures State() == NewTableState(name, schema)
    {
      this.name := name;
      this.schema := schema;
      rows := [];
      primaryKey := "";
      indexes := map[];
      new;
      var i := 0;
      while i < |schema|
        invariant 0 <= i <= |schema|
        invariant Tagged() && fresh(indexes.Values) && rows == []
        invariant indexes.Keys == KeyColumns(schema[..i])
        invariant forall c :: c in indexes ==> indexes[c].data == map[]
        invariant primaryKey == LastPrimaryKey(schema[..i])
      {
        KeyColumnsStep(schema, i);
        LastPrimaryKeyStep(schema, i);
        assert HasColumn(schema, schema[i].name);
        IndexKeyColumn(schema[i]);
        i := i + 1;
      }
      assert schema[..i] == schema;
      assert Contents() == NewTableState(name, schema).indexes;
      NewTableGood(name, schema);
    }

    /** One step of NewTable's loop over the schema, on a table that has no rows yet. */
    method IndexKeyColumn(col: Column)
      requires Tagged() && rows == [] && HasColumn(schema, col.name)
      requires forall c :: c in indexes ==> indexes[c].data == map[]
      modifies this`primaryKey, this`indexes
      ensures Tagged()
      ensures indexes.Keys == old(indexes.Keys) + (if col.primaryKey || col.unique then {col.name} else {})
      ensures forall c :: c in indexes ==> indexes[c].data == map[]
      ensures primaryKey == if col.primaryKey then col.name else old(primaryKey)
      ensures fresh(indexes.Values - old(indexes.Values))
    {
      if col.primaryKey {
        primaryKey := col.name;
        var _ := CreateIndex(col.name);
      } else if col.unique {
        var _ := CreateIndex(col.name);
      }
    }

    /** CreateIndex, proved against CreateIndexState; existing index objects stay. */
    method CreateIndex(c: string) returns (err: Option<EngineError>)
      requires Tagged()
      modifies this`indexes
      ensures Tagged()
      ensures (State(), err) == CreateIndexState(old(State()), c)
      ensures indexes.Keys == if HasColumn(schema, c) then old(indexes.Keys) + {c} else old(indexes.Keys)
      ensures forall k :: k in old(indexes) ==> indexes[k] == old(indexes[k])
      ensures c in indexes && c !in old(indexes) ==> fresh(indexes[c]) && indexes[c].data == BuildIndex(rows, c)
      ensures fresh(indexes.Values - old(indexes.Values))
    {
      if !HasColumn(schema, c) {
        return Some(ColumnNotFound(name, c));
      }
      if c in indexes {
        return None;
      }
      var idx := Backfill(c);
      ghost var m0 := Contents();
      indexes := indexes[c := idx];
      err := None;
      assert Contents() == m0[c := BuildIndex(rows, c)];
    }

    /** The backfill loop of CreateIndex: a fresh index holding every row's value of `c`. */
    method Backfill(c: string) returns (idx: Index)
      ensures fresh(idx) && idx.column == c
      ensures idx.data == BuildIndex(rows, c)
    {
      idx := new Index(c);
      var k := 0;
      while k < |rows|
        invariant 0 <= k <= |rows|
        invariant idx.column == c
        invariant idx.data == BuildIndex(rows[..k], c)
        modifies idx
      {
        assert rows[..k + 1][..k] == rows[..k];
        var (v, ok) := Get(rows[k], c);
        if ok {
          idx.Add(v, k);
        }
        k := k + 1;
      }
      assert rows[..k] == rows;
    }

    /** GetIndex: the index object stored for column `c`, if any. */
    function GetIndex(c: string): (r: Option<Index>)
      reads this, indexes.Values
      requires Tagged()
      ensures r.Some? <==> c in State().indexes
      ensures r.Some? ==> r.value.column == c && r.value.data == State().indexes[c]
    {
      if c in indexes then Some(indexes[c]) else None
    }

    /** addRow: returns the position of the appended row. */
    method AddRow(row: Row) returns (p: Position)
      requires Valid()
      modifies this, indexes.Values
      ensures Valid() && indexes == old(indexes)
      ensures p == old(|rows|)
      ensures State() == AddRowState(old(State()), row)
    {
      ghost var s0 := State();
      p := |rows|;
      rows := rows + [row];
      AddToIndexes(row, p);
      assert State() == AddRowState(s0, row);
      AddRowKeepsGood(s0, row);
    }

    /** The index contents by column. */
    function Contents(): map<string, IndexData>
      reads this`indexes, indexes.Values
    {
      map c | c in indexes :: indexes[c].data
    }

    /** The loop of addRow: each index adds `p` under the row's value. */
    method AddToIndexes(row: Row, p: Position)
      requires Tagged()
      modifies indexes.Values
      ensures Contents() == AddedAll(old(Contents()), row, p)
    {
      ghost var m0 := Contents();
      var todo := indexes.Keys;
      while todo != {}
        invariant todo <= indexes.Keys
        invariant forall c :: c in indexes ==>
          indexes[c].data == if c in todo then m0[c] else Added(m0[c], ValueOf(row, c), p)
        decreases todo
      {
        var c :| c in todo;
        var (v, ok) := Get(row, c);
        if ok {
          indexes[c].Add(v, p);
        }
        todo := todo - {c};
      }
    }

    /** updateRow: replaces row `p`, moving `p` in every index whose value changed. */
    method UpdateRow(p: Position, newRow: Row)
      requires Valid() && p < |rows|
      modifies this, indexes.Values
      ensures Valid() && indexes == old(indexes)
      ensures State() == UpdateRowState(old(State()), p, newRow)
    {
      ghost var s0 := State();
      var oldRow := rows[p];
      UpdateInIndexes(oldRow, newRow, p);
      rows := rows[p := newRow];
      assert State() == UpdateRowState(s0, p, newRow);
      UpdateRowKeepsGood(s0, p, newRow);
    }

    /** The loop of updateRow: each index whose value changed moves `p`. */
    method UpdateInIndexes(oldRow: Row, newRow: Row, p: Position)
      requires Tagged()
      modifies indexes.Values
      ensures Contents() == UpdatedAll(old(Contents()), oldRow, newRow, p)
    {
      ghost var m0 := Contents();
      var todo := indexes.Keys;
      while todo != {}
        invariant todo <= indexes.Keys
        invariant forall c :: c in indexes ==>
          indexes[c].data == if c in todo then m0[c] else UpdatedIndex(m0[c], oldRow, newRow, p, c)
        decreases todo
      {
        var c :| c in todo;
        var (oldV, _) := Get(oldRow, c);
        var (newV, _) := Get(newRow, c);
        if oldV != newV {
          indexes[c].Update(oldV, newV, p);
        }
        todo := todo - {c};
      }
    }

    /** deleteRow: swap-remove of row `p`, keeping every index consistent. */
    method DeleteRow(p: Position)
      requires Valid() && p < |rows|
      modifies this, indexes.Values
      ensures Valid() && indexes == old(indexes)
      ensures State() == DeleteRowState(old(State()), p)
    {
      ghost var s0 := State();
      var row := rows[p];
      RemoveFromIndexes(row, p);
      FillAndTruncate(p);
      DeleteRowSteps(s0, p, rows, Contents());
    }

    /** The second half of deleteRow: the last row fills the gap at `p`, then the rows shrink by one. */
    method FillAndTruncate(p: Position)
      requires Tagged() && p < |rows|
      modifies this`rows, indexes.Values
      ensures var last := |old(rows)| - 1;
        rows == (if p == last then old(rows) else old(rows)[p := old(rows)[last]])[..last]
      ensures var last := |old(rows)| - 1;
        Contents() == if p == last then old(Contents()) else MovedAll(old(Contents()), old(rows)[last], last, p)
    {
      var last := |rows| - 1;
      if p != last {
        rows := rows[p := rows[last]];
        MoveInIndexes(rows[p], last, p);
      }
      rows := rows[..last];
    }

    /** The first loop of deleteRow: each index drops `p` from the deleted row's bucket. */
    method RemoveFromIndexes(row: Row, p: Position)
      requires Tagged()
      modifies indexes.Values
      ensures Contents() == RemovedAll(old(Contents()), row, p)
    {
      ghost var m0 := Contents();
      var todo := indexes.Keys;
      while todo != {}
        invariant todo <= indexes.Keys
        invariant forall c :: c in indexes ==>
          indexes[c].data == if c in todo then m0[c] else Removed(m0[c], ValueOf(row, c), p)
        decreases todo
      {
        var c :| c in todo;
        var (v, ok) := Get(row, c);
        if ok {
          indexes[c].Remove(v, p);
        }
        todo := todo - {c};
      }
    }

    /** The second loop of deleteRow: each index moves the moved row's value from `from` to `to`. */
    method MoveInIndexes(row: Row, from: Position, to: Position)
      requires Tagged()
      modifies indexes.Values
      ensures Contents() == MovedAll(old(Contents()), row, from, to)
    {
      ghost var m0 := Contents();
      var todo := indexes.Keys;
      while todo != {}
        invariant todo <= indexes.Keys
        invariant forall c :: c in indexes ==>
          indexes[c].data == if c in todo then m0[c]
                             else Added(Removed(m0[c], ValueOf(row, c), from), ValueOf(row, c), to)
        decreases todo
      {
        var c :| c in todo;
        var (v, ok) := Get(row, c);
        if ok {
          indexes[c].Remove(v, from);
          indexes[c].Add(v, to);
        }
        todo := todo - {c};
      }
    }
  }
}
