/**
 * The commands the parser builds, and the tag each one reports.
 *
 * A column list that is empty stands for "every column": the parser only
 * produces it for `SELECT *`, since an explicit list always names at least
 * one column. A join is a SELECT as far as its tag goes.
 */
module Ast {
  import opened Values
  import Tables
  import Crud

  datatype CommandType = CmdCreateTable | CmdInsert | CmdSelect | CmdUpdate | CmdDelete | CmdUnknown

  datatype Command =
    | CreateTableCommand(tableName: string, schema: seq<Tables.Column>)
    | InsertCommand(tableName: string, values: Row)
    | SelectCommand(tableName: string, columns: seq<string>, condition: Option<Crud.Condition>)
    | UpdateCommand(tableName: string, updates: Row, condition: Option<Crud.Condition>)
    | DeleteCommand(tableName: string, condition: Option<Crud.Condition>)
    | JoinCommand(leftTable: string, rightTable: string, leftColumn: string, rightColumn: string, selectColumns: seq<string>)

  /** The tag of a command: never CmdUnknown, and CmdSelect for both plain selects and joins. */
  function Type(c: Command): (t: CommandType)
    ensures t != CmdUnknown
    ensures t == CmdSelect <==> c.SelectCommand? || c.JoinCommand?
    ensures t == CmdCreateTable <==> c.CreateTableCommand?
    ensures t == CmdInsert <==> c.InsertCommand?
    ensures t == CmdUpdate <==> c.UpdateCommand?
    ensures t == CmdDelete <==> c.DeleteCommand?
  {
    match c
    case CreateTableCommand(_, _) => CmdCreateTable
    case InsertCommand(_, _) => CmdInsert
    case SelectCommand(_, _, _) => CmdSelect
    case UpdateCommand(_, _, _) => CmdUpdate
    case DeleteCommand(_, _) => CmdDelete
    case JoinCommand(_, _, _, _, _) => CmdSelect
  }
}
