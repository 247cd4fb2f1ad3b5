/**
 * The table registry and the operations the front end calls on it.
 *
 * A Database maps table names to Table objects. Registry operations change
 * the map; Insert, Select, Update, Delete and InnerJoin look the table up by
 * name (TableNotFound when it is not registered) and then run on that table
 * alone. `Repr` holds every table and index object the registry owns; no two
 * registered names share a table or an index, so changing one table leaves
 * every other table as it was.
 */
module Databases {
  import opened Values
  import opened Indexes
  import opened Tables
  import opened Crud
  import opened Join
  import opened Constraints

  class Database {
    var tables: map<string, Table>
    ghost var Repr: set<object>

    /** Every registered table is valid, owned, and shares nothing with another registered table. */
    ghost predicate Valid()
      reads this, Repr
    {
      && (forall n :: n in tables ==> tables[n] in Repr && tables[n].indexes.Values <= Repr && tables[n].Valid())
      && (forall n, m :: n in tables && m in tables && n != m ==>
            tables[n] != tables[m] && tables[n].indexes.Values !! tables[m].indexes.Values)
    }

    /** When only the table under `name` and its indexes changed, and that table is still valid, so is the registry. */
    twostate lemma OnlyOneTableChanged(name: string)
      requires old(Valid()) && name in tables && tables == old(tables) && Repr == old(Repr)
      requires tables[name].Valid() && tables[name].indexes == old(tables[name].indexes)
      requires unchanged(Repr - {tables[name]} - tables[name].indexes.Values)
      ensures Valid()
      ensures forall n :: n in tables && n != name ==> tables[n].State() == old(tables[n].State())
    {
    }

    /** NewDatabase: no tables. */
    constructor ()
      ensures Valid() && tables == map[] && Repr == {}
    {
      tables := map[];
      Repr := {};
    }

    /** CreateTable: refused for a registered name; otherwise the name maps to a fresh NewTable. */
    method CreateTable(name: string, schema: seq<Column>) returns (err: Option<EngineError>)
      requires Valid()
      modifies this
      ensures Valid() && fresh(Repr - old(Repr))
      ensures name in old(tables) ==> err == Some(TableAlreadyExists(name)) && tables == old(tables)
      ensures name !in old(tables) ==>
        && err.None? && name in tables && fresh(tables[name])
        && tables == old(tables)[name := tables[name]]
        && tables[name].State() == NewTableState(name, schema)
    {
      if name in tables {
        return Some(TableAlreadyExists(name));
      }
      var t := new Table(name, schema);
      assert ({t} + t.indexes.Values) !! Repr;
      tables := tables[name := t];
      Repr := Repr + {t} + t.indexes.Values;
      err := None;
    }

    /** GetTable: the registered table, or TableNotFound. */
    method GetTable(name: string) returns (r: Result<Table, EngineError>)
      ensures name in tables ==> r == Ok(tables[name])
      ensures name !in tables ==> r == Err(TableNotFound(name))
    {
      if name !in tables {
        return Err(TableNotFound(name));
      }
      r := Ok(tables[name]);
    }

    /** DropTable: TableNotFound for an unregistered name; otherwise exactly that name is removed. */
    method DropTable(name: string) returns (err: Option<EngineError>)
      requires Valid()
      modifies this`tables
      ensures Valid()
      ensures name !in old(tables) ==> err == Some(TableNotFound(name)) && tables == old(tables)
      ensures name in old(tables) ==> err.None? && tables == old(tables) - {name}
    {
      if name !in tables {
        return Some(TableNotFound(name));
      }
      tables := tables - {name};
      err := None;
    }

    /** ListTables: every registered name exactly once, in no particular order. */
    method ListTables() returns (names: seq<string>)
      ensures forall n :: n in names <==> n in tables
      ensures forall i, j :: 0 <= i < j < |names| ==> names[i] != names[j]
    {
      names := [];
      var todo := tables.Keys;
      while todo != {}
        invariant todo <= tables.Keys
        invariant forall n :: n in names <==> n in tables && n !in todo
        invariant forall i, j :: 0 <= i < j < |names| ==> names[i] != names[j]
        decreases todo
      {
        var n :| n in todo;
        names := names + [n];
        todo := todo - {n};
      }
    }

    /** TableExists: exactly when GetTable finds the table. */
    method TableExists(name: string) returns (b: bool)
      ensures b <==> name in tables
    {
      b := name in tables;
    }

    /** Insert: TableNotFound, or the validation error with nothing changed, or one row appended. */
    method Insert(name: string, row: Row) returns (err: Option<EngineError>)
      requires Valid()
      modifies Repr
      ensures Valid() && tables == old(tables)
      ensures name !in tables ==> err == Some(TableNotFound(name))
      ensures name in tables ==>
        && err == ValidateInsert(old(tables[name].State()), row)
        && tables[name].State() == if err.None? then AddRowState(old(tables[name].State()), row) else old(tables[name].State())
      ensures forall n :: n in tables && n != name ==> tables[n].State() == old(tables[n].State())
    {
      var r := GetTable(name);
      if r.Err? {
        return Some(r.error);
      }
      err := InsertInto(r.value, row);
      OnlyOneTableChanged(name);
    }

    /** Select: TableNotFound, or Select's result on the table; nothing changes. */
    method Select(name: string, columns: seq<string>, cond: Option<Condition>) returns (r: Result<seq<Row>, EngineError>)
      requires Valid()
      ensures name !in tables ==> r == Err(TableNotFound(name))
      ensures name in tables ==> r == Ok(SelectResult(tables[name].State(), columns, cond))
    {
      var t := GetTable(name);
      if t.Err? {
        return Err(t.error);
      }
      var results := SelectFrom(t.value, columns, cond);
      r := Ok(results);
    }

    /** Update: TableNotFound with a zero count, or the Update loop on the table. */
    method Update(name: string, updates: Row, cond: Option<Condition>) returns (count: nat, err: Option<EngineError>)
      requires Valid()
      modifies Repr
      ensures Valid() && tables == old(tables)
      ensures name !in tables ==> count == 0 && err == Some(TableNotFound(name))
      ensures name in tables ==> (tables[name].State(), count, err) == UpdateFrom(old(tables[name].State()), updates, cond, 0, 0)
      ensures forall n :: n in tables && n != name ==> tables[n].State() == old(tables[n].State())
    {
      var r := GetTable(name);
      if r.Err? {
        return 0, Some(r.error);
      }
      count, err := UpdateIn(r.value, updates, cond);
      OnlyOneTableChanged(name);
    }

    /** Delete: TableNotFound with a zero count, or the backward Delete loop on the table. */
    method Delete(name: string, cond: Option<Condition>) returns (count: nat, err: Option<EngineError>)
      requires Valid()
      modifies Repr
      ensures Valid() && tables == old(tables)
      ensures name !in tables ==> count == 0 && err == Some(TableNotFound(name))
      ensures name in tables ==>
        err.None? && (tables[name].State(), count) == DeleteDown(old(tables[name].State()), cond, old(|tables[name].rows|), 0)
      ensures forall n :: n in tables && n != name ==> tables[n].State() == old(tables[n].State())
    {
      var r := GetTable(name);
      if r.Err? {
        return 0, Some(r.error);
      }
      count := DeleteFrom(r.value, cond);
      OnlyOneTableChanged(name);
      err := None;
    }

    /**
     * InnerJoin: the left table, then the right table, must be registered;
     * then the left join column, then the right one, must be in its schema.
     * Otherwise the joined rows; neither table changes.
     */
    method InnerJoin(leftTable: string, rightTable: string, cond: JoinCondition, selectColumns: seq<string>)
      returns (r: Result<seq<Row>, EngineError>)
      requires Valid()
      ensures leftTable !in tables ==> r == Err(TableNotFound(leftTable))
      ensures leftTable in tables && rightTable !in tables ==> r == Err(TableNotFound(rightTable))
      ensures leftTable in tables && rightTable in tables ==>
        var left, right := tables[leftTable], tables[rightTable];
        && (!HasColumn(left.schema, cond.leftColumn) ==> r == Err(ColumnNotFound(leftTable, cond.leftColumn)))
        && (HasColumn(left.schema, cond.leftColumn) && !HasColumn(right.schema, cond.rightColumn) ==>
              r == Err(ColumnNotFound(rightTable, cond.rightColumn)))
        && (HasColumn(left.schema, cond.leftColumn) && HasColumn(right.schema, cond.rightColumn) ==>
              r == Ok(JoinRows(left.rows, right.State(), cond, leftTable, rightTable, selectColumns)))
    {
      var lt := GetTable(leftTable);
      if lt.Err? {
        return Err(lt.error);
      }
      var rt := GetTable(rightTable);
      if rt.Err? {
        return Err(rt.error);
      }
      var left, right := lt.value, rt.value;
      if !HasColumn(left.schema, cond.leftColumn) {
        return Err(ColumnNotFound(leftTable, cond.leftColumn));
      }
      if !HasColumn(right.schema, cond.rightColumn) {
        return Err(ColumnNotFound(rightTable, cond.rightColumn));
      }
      var results := JoinTables(left, right, cond, leftTable, rightTable, selectColumns);
      r := Ok(results);
    }
  }
}
