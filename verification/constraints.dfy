/**
 * The constraint checker: three ordered phases (primary key, unique,
 * not-null) over a table snapshot, each returning the first violation it
 * finds. The checker only reads the table, so every operation here is a
 * function of a `TableState`.
 */
module Constraints {
  import opened Values
  import opened Indexes
  import opened Tables

  /** Column `col` is unique (and not the primary key) and the row's present value is already taken. */
  predicate InsertClash(s: TableState, col: Column, row: Row)
  {
    col.unique && col.name != s.primaryKey && col.name in row && HasUniqueValue(s, col.name, row[col.name])
  }

  /** As InsertClash, but only when the value differs from the old row's (absent read as Null). */
  predicate UpdateClash(s: TableState, col: Column, oldRow: Row, newRow: Row)
  {
    && col.unique && col.name != s.primaryKey && col.name in newRow
    && ValueOf(oldRow, col.name) != newRow[col.name]
    && HasUniqueValue(s, col.name, newRow[col.name])
  }

  /** Column `col` is required (not-null or primary key) and the row lacks it or holds Null. */
  predicate MissingIn(col: Column, row: Row)
  {
    (col.notNull || col.primaryKey) && (col.name !in row || row[col.name] == Null)
  }

  /** Phase 1 of ValidateInsert: the primary key must be present and not already stored. */
  function InsertKeyCheck(s: TableState, row: Row): (r: Option<EngineError>)
    ensures s.primaryKey == "" ==> r == None
    ensures s.primaryKey != "" && s.primaryKey !in row ==> r == Some(MissingRequiredColumn(s.name, s.primaryKey))
    ensures s.primaryKey != "" && s.primaryKey in row ==>
      r == if HasPrimaryKeyValue(s, row[s.primaryKey])
           then Some(PrimaryKeyViolation(s.name, s.primaryKey, row[s.primaryKey])) else None
  {
    if s.primaryKey == "" then None
    else
      var (pk, hasPK) := Get(row, s.primaryKey);
      if !hasPK then Some(MissingRequiredColumn(s.name, s.primaryKey))
      else if HasPrimaryKeyValue(s, pk) then Some(PrimaryKeyViolation(s.name, s.primaryKey, pk))
      else None
  }

  /** Phase 1 of ValidateUpdate: a changed primary-key value must not be stored already. */
  function UpdateKeyCheck(s: TableState, oldRow: Row, newRow: Row): (r: Option<EngineError>)
    ensures r != None <==>
      s.primaryKey != "" && ValueOf(oldRow, s.primaryKey) != ValueOf(newRow, s.primaryKey) &&
      HasPrimaryKeyValue(s, ValueOf(newRow, s.primaryKey))
    ensures r != None ==> r == Some(PrimaryKeyViolation(s.name, s.primaryKey, ValueOf(newRow, s.primaryKey)))
  {
    if s.primaryKey == "" then None
    else
      var (oldPK, _) := Get(oldRow, s.primaryKey);
      var (newPK, _) := Get(newRow, s.primaryKey);
      if oldPK != newPK && HasPrimaryKeyValue(s, newPK) then
        Some(PrimaryKeyViolation(s.name, s.primaryKey, newPK))
      else None
  }

  /** Phase 2 of ValidateInsert over `cols` in order: the first unique clash, if any. */
  function InsertUniqueCheck(s: TableState, cols: seq<Column>, row: Row): (r: Option<EngineError>)
    ensures r.None? <==> forall i :: 0 <= i < |cols| ==> !InsertClash(s, cols[i], row)
    ensures r.Some? ==>
      exists i :: 0 <= i < |cols| && InsertClash(s, cols[i], row) &&
        (forall j :: 0 <= j < i ==> !InsertClash(s, cols[j], row)) &&
        r.value == UniqueViolation(s.name, cols[i].name, row[cols[i].name])
  {
    if cols == [] then None
    else
      var col := cols[0];
      if col.unique && col.name != s.primaryKey then
        var (value, hasValue) := Get(row, col.name);
        if hasValue && HasUniqueValue(s, col.name, value) then
          Some(UniqueViolation(s.name, col.name, value))
        else
          var rest := InsertUniqueCheck(s, cols[1..], row);
          assert forall i :: 1 <= i < |cols| ==> cols[i] == cols[1..][i - 1];
          rest
      else
        var rest := InsertUniqueCheck(s, cols[1..], row);
        assert forall i :: 1 <= i < |cols| ==> cols[i] == cols[1..][i - 1];
        rest
  }

  /** Phase 2 of ValidateUpdate over `cols` in order: the first clash on a changed unique value. */
  function UpdateUniqueCheck(s: TableState, cols: seq<Column>, oldRow: Row, newRow: Row): (r: Option<EngineError>)
    ensures r.None? <==> forall i :: 0 <= i < |cols| ==> !UpdateClash(s, cols[i], oldRow, newRow)
    ensures r.Some? ==>
      exists i :: 0 <= i < |cols| && UpdateClash(s, cols[i], oldRow, newRow) &&
        (forall j :: 0 <= j < i ==> !UpdateClash(s, cols[j], oldRow, newRow)) &&
        r.value == UniqueViolation(s.name, cols[i].name, newRow[cols[i].name])
  {
    if cols == [] then None
    else
      var col := cols[0];
      var rest := UpdateUniqueCheck(s, cols[1..], oldRow, newRow);
      assert forall i :: 1 <= i < |cols| ==> cols[i] == cols[1..][i - 1];
      if col.unique && col.name != s.primaryKey then
        var (oldValue, _) := Get(oldRow, col.name);
        var (newValue, hasNewValue) := Get(newRow, col.name);
        if hasNewValue && oldValue != newValue && HasUniqueValue(s, col.name, newValue) then
          Some(UniqueViolation(s.name, col.name, newValue))
        else rest
      else rest
  }

  /** Phase 3 over `cols` in order: the first required column the row lacks or holds as Null. */
  function NotNullCheck(table: string, cols: seq<Column>, row: Row): (r: Option<EngineError>)
    ensures r.None? <==> forall i :: 0 <= i < |cols| ==> !MissingIn(cols[i], row)
    ensures r.Some? ==>
      exists i :: 0 <= i < |cols| && MissingIn(cols[i], row) &&
        (forall j :: 0 <= j < i ==> !MissingIn(cols[j], row)) &&
        r.value == MissingRequiredColumn(table, cols[i].name)
  {
    if cols == [] then None
    else
      var col := cols[0];
      var rest := NotNullCheck(table, cols[1..], row);
      assert forall i :: 1 <= i < |cols| ==> cols[i] == cols[1..][i - 1];
      if col.notNull || col.primaryKey then
        var (value, hasValue) := Get(row, col.name);
        if !hasValue || value == Null then Some(MissingRequiredColumn(table, col.name))
        else rest
      else rest
  }

  /** ValidateInsert: the primary-key phase, then the unique phase, then the not-null phase. */
  function ValidateInsert(s: TableState, row: Row): Option<EngineError>
  {
    var pk := InsertKeyCheck(s, row);
    if pk.Some? then pk
    else
      var unique := InsertUniqueCheck(s, s.schema, row);
      if unique.Some? then unique
      else NotNullCheck(s.name, s.schema, row)
  }

  /** ValidateUpdate: the same three phases, skipping existence checks for unchanged values. */
  function ValidateUpdate(s: TableState, oldRow: Row, newRow: Row): Option<EngineError>
  {
    var pk := UpdateKeyCheck(s, oldRow, newRow);
    if pk.Some? then pk
    else
      var unique := UpdateUniqueCheck(s, s.schema, oldRow, newRow);
      if unique.Some? then unique
      else NotNullCheck(s.name, s.schema, newRow)
  }

  /** A table with a primary key rejects a row without that key before any other check. */
  lemma MissingPrimaryKeyFirst(s: TableState, row: Row)
    requires s.primaryKey != "" && s.primaryKey !in row
    ensures ValidateInsert(s, row) == Some(MissingRequiredColumn(s.name, s.primaryKey))
  {
  }

  /** A row whose non-null primary-key value some stored row already holds is a primary-key violation. */
  lemma DuplicatePrimaryKey(s: TableState, row: Row)
    requires Good(s) && s.primaryKey != "" && s.primaryKey in row && row[s.primaryKey] != Null
    requires ScanHas(s.rows, s.primaryKey, row[s.primaryKey])
    ensures ValidateInsert(s, row) == Some(PrimaryKeyViolation(s.name, s.primaryKey, row[s.primaryKey]))
  {
    PrimaryKeyValueIsScan(s, row[s.primaryKey]);
  }

  /** In a good table Null never collides: every unique column of the schema is indexed. */
  lemma NullNeverCollides(s: TableState, i: int)
    requires Good(s) && 0 <= i < |s.schema| && s.schema[i].unique
    ensures !HasUniqueValue(s, s.schema[i].name, Null)
  {
    assert s.schema[i].name in KeyColumns(s.schema);
  }

  /**
   * A primary key that is present but Null passes the primary-key phase and
   * is caught later: the result is never a primary-key violation, and it is
   * the not-null phase's answer when no unique clash comes first.
   */
  lemma NullPrimaryKeyFailsLate(s: TableState, row: Row)
    requires Good(s) && s.primaryKey != "" && s.primaryKey in row && row[s.primaryKey] == Null
    ensures ValidateInsert(s, row).Some?
    ensures !ValidateInsert(s, row).value.PrimaryKeyViolation?
    ensures InsertUniqueCheck(s, s.schema, row).None? ==>
      ValidateInsert(s, row) == NotNullCheck(s.name, s.schema, row) &&
      ValidateInsert(s, row).value.MissingRequiredColumn?
  {
    PrimaryKeyValueIsScan(s, Null);
    LastPrimaryKeyIsLast(s.schema);
    var i :| 0 <= i < |s.schema| && s.schema[i].primaryKey && s.schema[i].name == s.primaryKey &&
      forall j :: i < j < |s.schema| ==> !s.schema[j].primaryKey;
    assert MissingIn(s.schema[i], row);
  }

  /** The reference condition for an insert: every required value present, no key value taken. */
  ghost predicate InsertAllowed(s: TableState, row: Row)
  {
    && (forall i :: 0 <= i < |s.schema| ==> !MissingIn(s.schema[i], row))
    && (s.primaryKey != "" ==> !ScanHas(s.rows, s.primaryKey, ValueOf(row, s.primaryKey)))
    && (forall i :: 0 <= i < |s.schema| && s.schema[i].unique && s.schema[i].name != s.primaryKey &&
                    ValueOf(row, s.schema[i].name) != Null ==>
          !ScanHas(s.rows, s.schema[i].name, ValueOf(row, s.schema[i].name)))
  }

  /**
   * ValidateInsert accepts exactly the rows that give every not-null and
   * primary-key column a non-null value and collide with no stored row on
   * the primary key or a unique column.
   */
  lemma ValidateInsertIff(s: TableState, row: Row)
    requires Good(s)
    ensures ValidateInsert(s, row).None? <==> InsertAllowed(s, row)
  {
    var pk := s.primaryKey;
    if pk != "" {
      LastPrimaryKeyIsLast(s.schema);
      var i :| 0 <= i < |s.schema| && s.schema[i].primaryKey && s.schema[i].name == pk &&
        forall j :: i < j < |s.schema| ==> !s.schema[j].primaryKey;
      PrimaryKeyValueIsScan(s, ValueOf(row, pk));
      assert pk in row && row[pk] != Null <== !MissingIn(s.schema[i], row);
      assert NotNullCheck(s.name, s.schema, row).None? ==> !MissingIn(s.schema[i], row);
    }
    forall i | 0 <= i < |s.schema| && s.schema[i].unique && s.schema[i].name != pk
      ensures InsertClash(s, s.schema[i], row) <==>
        ValueOf(row, s.schema[i].name) != Null && ScanHas(s.rows, s.schema[i].name, ValueOf(row, s.schema[i].name))
    {
      var c := s.schema[i].name;
      NullNeverCollides(s, i);
      UniqueValueIsScan(s, c, ValueOf(row, c));
    }
  }

  /**
   * ValidateUpdate skips the key and unique existence checks when the new
   * row keeps the old row's primary-key and unique values: only the
   * not-null phase on the new row remains.
   */
  lemma UnchangedKeysOnlyNotNull(s: TableState, oldRow: Row, newRow: Row)
    requires ValueOf(oldRow, s.primaryKey) == ValueOf(newRow, s.primaryKey)
    requires forall i :: 0 <= i < |s.schema| && s.schema[i].unique ==>
      ValueOf(oldRow, s.schema[i].name) == ValueOf(newRow, s.schema[i].name)
    ensures ValidateUpdate(s, oldRow, newRow) == NotNullCheck(s.name, s.schema, newRow)
  {
    assert forall i :: 0 <= i < |s.schema| ==> !UpdateClash(s, s.schema[i], oldRow, newRow);
  }

  /** A row updated to itself passes exactly when it passes the not-null phase. */
  lemma SelfUpdate(s: TableState, row: Row)
    ensures ValidateUpdate(s, row, row) == NotNullCheck(s.name, s.schema, row)
  {
    UnchangedKeysOnlyNotNull(s, row, row);
  }
}
