# godb core, modelled in Dafny

godb is a small in-memory relational database written in Go. A `Database`
keeps named `Table`s. Each table has a schema of columns, a slice of rows
(maps from column name to value) and one hash `Index` per indexed column.
An index maps a value to the row positions that hold it. On top of the
tables sit:

- the constraint checker, which enforces the primary key, UNIQUE and
  NOT NULL columns;
- the CRUD operations Insert, Select, Update and Delete, plus an inner
  join;
- a SQL front end: a tokenizer and a recursive-descent parser that turns
  one statement into a command.

This project models that core.

- **Values and rows** (`values.dfy`). A row is a `map<string, Value>`, and a
  value is an int, a string, a bool or Null. `Get`, `Set` and `Copy` are the
  row helpers.
- **Indexes** (`index.dfy`). The index is a class whose `data` map the
  methods reassign. `Added`, `Removed` and `Lookup` are the functions that
  specify it. `Consistent` states what it means for an index to agree with
  the rows of its table. The lemmas prove that appending a row, moving a
  position and truncating the rows each keep an index consistent.
- **Tables** (`table.dfy`). The table is a class over `rows` and `indexes`.
  Each method is proved against a value-level function on `TableState`
  (`AddRowState`, `UpdateRowState`, `DeleteRowState`, `CreateIndexState`).
  Every one of them keeps the table invariant `Good`: all indexes are
  consistent, and every primary-key and unique column is indexed.
  Deleting a row is a swap-remove: the last row moves into the gap.
- **Constraints** (`constraints.dfy`). Insert and update validation have
  three phases: the primary key, then unique columns, then not-null
  columns. The first error wins. `ValidateInsertIff` gives a
  phase-independent reading of when an insert is accepted.
- **CRUD** (`crud.dfy`).
  - The condition evaluator and the value comparator.
  - Select, on its index path and its scan path. The index path returns the
    scan's rows, possibly in another order.
  - The forward Update loop, which stops at the first failing row and
    leaves the earlier rows updated.
  - The backward Delete loop, which leaves exactly the non-matching rows.
- **Join** (`join.dfy`). `InnerJoin` and `mergeRows`, proved equal (up to
  order, when an index is used) to a nested-loop reference join.
- **Registry** (`database.dfy`). The `Database` class, its table-name map,
  and the front-end entry points that look a table up and then run on it
  alone.
- **Tokenizer** (`tokenizer.dfy`). The index-walking scanner as a method
  `Tokenize`, proved equal to the recursive specification `Tokens`. Lemmas
  cover how quotes, numbers, words and skipped characters lex.
- **AST and parser** (`ast.dfy`, `parser.dfy`).
  - The command datatypes and their tags.
  - The `Parser` class: a token slice and a cursor. Each parse method is
    proved to end in the `Step` (result and new cursor) that a specification
    function `…At(tokens, p)` gives for the old cursor.
  - Lemmas about those functions: number reading and its 64-bit range,
    SET and INSERT row building, dotted column names, the dispatch on the
    first keyword, and one worked SELECT.

Go's `nil` is `Null`. Go's `map` iteration order is unspecified, so loops
over maps are modelled as loops whose result does not depend on order: every
index is updated independently, and `Assign` writes pairs in order.

## Model

| member | source | states |
|---|---|---|
| Values.Get | engine/row.go:17-20 | the stored value and `true` exactly when the column is a key; otherwise `false` |
| Values.Set | engine/row.go:23-25 | afterwards the column holds the value and every other column is unchanged |
| Values.Copy | engine/row.go:8-14 | the copy has exactly the same keys and values |
| Indexes.Added | engine/index.go:19-24 | a Null value is not indexed; otherwise the position is appended to the value's bucket and no other bucket changes |
| Indexes.Removed | engine/index.go:27-50 | every occurrence of the position leaves the bucket, the others keep their order, and an emptied bucket is deleted; Null or an absent value changes nothing |
| Indexes.HasIffLookupNonEmpty | engine/index.go:53-73 | with no empty bucket stored, Has holds exactly when Lookup finds at least one position |
| Indexes.UpdateMovesPosition | engine/index.go:61-64 | Update is Remove then Add: the position leaves the old value's bucket and is in the new value's bucket when that value is non-null |
| Indexes.Matching | engine/index.go:53-58 | the reference scan: exactly the ascending positions whose row stores the value |
| Indexes.ConsistentBuckets | engine/index.go:19-24 | under the index invariant, a position is in a value's bucket exactly when its row stores that non-null value |
| Indexes.AddedConsistent | engine/table.go:136-148 | appending a row and adding its position keeps the index consistent |
| Indexes.MovedConsistent | engine/table.go:151-164 | replacing a row and moving its position between buckets keeps the index consistent |
| Indexes.LookupIsScan | engine/index.go:53-58 | under consistency, Lookup of a non-null value is a permutation of the scan's positions |
| Indexes.Index.constructor | engine/index.go:11-16 | a new index on the column has no buckets |
| Indexes.Index.Add | engine/index.go:19-24 | the data becomes `Added` of the old data |
| Indexes.Index.Remove | engine/index.go:27-50 | the filtering loop leaves the data as `Removed` of the old data |
| Indexes.Index.Update | engine/index.go:61-64 | the data becomes Remove, then Add, of the old data |
| Tables.HasColumn | engine/table.go:90-97 | true exactly when some schema column has the name |
| Tables.LastPrimaryKeyIsLast | engine/table.go:22-25 | the primary key is "" when no column is marked; otherwise it is a marked column after which none is marked |
| Tables.NewTableState | engine/table.go:13-32 | a new table has the given name and schema, no rows, and an index on exactly the primary-key and unique columns |
| Tables.NewTableGood | engine/table.go:13-32 | a new table satisfies the table invariant |
| Tables.BuildIndex | engine/table.go:67-78 | the backfilled index is consistent with the rows |
| Tables.CreateIndexState | engine/table.go:55-81 | an unknown column gives ColumnNotFound and no change; an indexed column changes nothing; otherwise only the new, backfilled index is added |
| Tables.ScanHas | engine/table.go:100-133 | the fallback scan holds exactly when some row stores the value under the column |
| Tables.IndexHasIsScan | engine/table.go:100-133 | with a consistent index, asking the index and scanning the rows agree on every non-null value |
| Tables.PrimaryKeyValueIsScan | engine/table.go:100-117 | without a primary key the answer is false; otherwise it is true exactly when a row stores the non-null value under the key |
| Tables.UniqueValueIsScan | engine/table.go:120-133 | the indexed and scanned answers agree on non-null values, and an indexed column never reports Null |
| Tables.AddRowState | engine/table.go:136-148 | the row is appended and every index adds the new position under the row's value |
| Tables.UpdateRowState | engine/table.go:151-164 | only the row at the position is replaced; an index whose column value did not change is untouched; nothing else changes |
| Tables.SwapRemove | engine/table.go:177-191 | one row fewer; the rows before the position stay put, and the last row fills the gap |
| Tables.DeleteRowState | engine/table.go:167-192 | the rows are swap-removed, the same columns stay indexed, and nothing else changes |
| Tables.DeletedConsistent | engine/table.go:167-192 | the index deleteRow leaves is consistent with the swap-removed rows |
| Tables.CreateIndexKeepsGood | engine/table.go:55-81 | CreateIndex keeps the table invariant |
| Tables.AddRowKeepsGood | engine/table.go:136-148 | addRow keeps the table invariant |
| Tables.UpdateRowKeepsGood | engine/table.go:151-164 | updateRow keeps the table invariant |
| Tables.DeleteRowKeepsGood | engine/table.go:167-192 | deleteRow keeps the table invariant |
| Tables.Table.constructor | engine/table.go:13-32 | the new table is valid and its state is `NewTableState` |
| Tables.Table.IndexKeyColumn | engine/table.go:22-29 | a primary-key or unique column gains an empty index and nothing else does; a primary-key column becomes the table's primary key |
| Tables.Table.CreateIndex | engine/table.go:55-81 | the new state and error are `CreateIndexState`; existing index objects are kept |
| Tables.Table.Backfill | engine/table.go:67-78 | a fresh index holding the value of every row, added in row order |
| Tables.Table.GetIndex | engine/table.go:84-87 | the stored index for the column, whose data is the state's index, or none |
| Tables.Table.AddRow | engine/table.go:136-148 | returns the old row count; the state becomes `AddRowState` and stays valid |
| Tables.Table.AddToIndexes | engine/table.go:141-145 | each index adds the position under the row's value |
| Tables.Table.UpdateRow | engine/table.go:151-164 | the state becomes `UpdateRowState` and stays valid |
| Tables.Table.UpdateInIndexes | engine/table.go:155-161 | each index whose column value changed moves the position |
| Tables.Table.DeleteRow | engine/table.go:167-192 | the state becomes `DeleteRowState` and stays valid |
| Tables.Table.RemoveFromIndexes | engine/table.go:171-175 | each index drops the position from the deleted row's bucket |
| Tables.Table.MoveInIndexes | engine/table.go:183-188 | each index moves the moved row's value from the last position to the gap |
| Tables.Table.FillAndTruncate | engine/table.go:177-191 | the last row fills the gap and the rows shrink by one |
| Constraints.InsertKeyCheck | engine/constraints.go:34-50 | a missing primary key is MissingRequiredColumn; a stored key value is PrimaryKeyViolation; otherwise no error |
| Constraints.UpdateKeyCheck | engine/constraints.go:86-100 | an error exactly when the primary-key value changed to one already stored, and then it is PrimaryKeyViolation |
| Constraints.InsertUniqueCheck | engine/constraints.go:54-65 | no error exactly when no unique column clashes; otherwise UniqueViolation on the first clashing column |
| Constraints.UpdateUniqueCheck | engine/constraints.go:103-115 | as InsertUniqueCheck, counting only unique values that changed |
| Constraints.NotNullCheck | engine/constraints.go:68-78 | no error exactly when every required column is present and non-null; otherwise the first one missing |
| Constraints.MissingPrimaryKeyFirst | engine/constraints.go:34-41 | a row without the primary key is rejected for it before any other check |
| Constraints.DuplicatePrimaryKey | engine/constraints.go:44-50 | a row whose non-null key value is already stored is a PrimaryKeyViolation |
| Constraints.NullNeverCollides | engine/constraints.go:54-65 | on a good table, Null never clashes on a unique column |
| Constraints.NullPrimaryKeyFailsLate | engine/constraints.go:34-78 | a present Null primary key passes the key phase and is rejected later, never as a key violation |
| Constraints.ValidateInsertIff | engine/constraints.go:32-81 | on a good table, insert validation accepts exactly the rows whose required values are all present and non-null and that collide on no key or unique value |
| Constraints.UnchangedKeysOnlyNotNull | engine/constraints.go:84-131 | an update that keeps the key and unique values is checked only by the not-null phase |
| Constraints.SelfUpdate | engine/constraints.go:84-131 | updating a row to itself passes exactly when the row passes the not-null phase |
| Crud.CompareValues | engine/crud.go:168-190 | -1, 0 or 1; 0 for every pair that is not two ints or two strings |
| Crud.CompareAntisymmetric | engine/crud.go:168-190 | swapping the arguments negates the result; on two ints or two strings, 0 means equal |
| Crud.CompareTransitive | engine/crud.go:168-190 | the ordering is transitive |
| Crud.LexTrichotomy | engine/crud.go:179-186 | Go's string `<` is a strict total order: exactly one of less, equal and greater |
| Crud.EvaluateBasics | engine/crud.go:143-165 | a missing column or an unknown operator is false; `=` compares kind and value; `!=` is its negation |
| Crud.EvaluateUnorderable | engine/crud.go:143-165 | on values the comparator cannot order, `>=` and `<=` hold and `>` and `<` do not |
| Crud.EvaluateOrderable | engine/crud.go:143-165 | on two ints or two strings, exactly one of `<`, `=` and `>` holds |
| Crud.ProjectRow | engine/crud.go:194-206 | an empty list gives the whole row; otherwise exactly the listed columns the row has, with their values |
| Crud.ScanSelect | engine/crud.go:55-73 | the reference answer, no longer than the table |
| Crud.SelectWithoutIndex | engine/crud.go:47-73 | without a usable index, Select returns the matching rows, projected, in storage order |
| Crud.SelectIndexIsScan | engine/crud.go:39-73 | through a consistent index, `=` on a non-null value returns the scan's rows, possibly in another order |
| Crud.SelectNullThroughIndex | engine/crud.go:39-45 | `= NULL` on an indexed column returns nothing, because the index never stores Null |
| Crud.ScanFindsNull | engine/crud.go:47-73 | the scan does find rows that store Null |
| Crud.CollectPermutation | engine/crud.go:57-73 | the filter loop's output, as a multiset, depends only on the multiset of candidates |
| Crud.SelectCandidates | engine/crud.go:35-53 | the candidates are the index bucket for `=` on an indexed column, else every position |
| Crud.SelectFilter | engine/crud.go:55-73 | each candidate in range whose row passes is projected, in candidate order |
| Crud.SelectFrom | engine/crud.go:29-76 | the result is `SelectResult` of the table state; nothing changes |
| Crud.InsertInto | engine/crud.go:11-26 | the error is the insert validation's; on success the row is appended with its indexes updated, otherwise nothing changes |
| Crud.Overlay | engine/crud.go:97-101 | each updated column reads its new value, and every other column reads as before |
| Crud.OverlayRow | engine/crud.go:97-101 | the copy-then-Set loop builds exactly `Overlay` |
| Crud.UpdateKeepsGood | engine/crud.go:79-114 | Update keeps the table invariant, whether it finishes or stops early |
| Crud.UpdateOutcome | engine/crud.go:79-114 | either every matching row passed ValidateUpdate and was written, in order, and the count is the number of matches; or the first matching row whose overlay fails ValidateUpdate stops it, with exactly the earlier matches validated and written, later rows untouched, their count returned and that row's verdict as the error |
| Crud.AppliedRows | engine/crud.go:89-111 | writing every matching row's overlay in turn, through `updateRow`, leaves the same rows as overlaying exactly the matching rows below that position and keeping the rest |
| Crud.UpdateAt | engine/crud.go:89-111 | one loop turn advances the `UpdateFrom` specification by one position, or ends it with the error |
| Crud.UpdateIn | engine/crud.go:85-113 | the final state, count and error are `UpdateFrom` from position 0; the table stays valid |
| Crud.KeptFacts | engine/crud.go:126-137 | the kept rows are input rows that do not match, and with the matching ones they account for every row |
| Crud.DeleteKeepsGood | engine/crud.go:117-140 | Delete keeps the table invariant |
| Crud.SwapRemoveSplit | engine/crud.go:125-137 | a swap-remove leaves the rows before the position in place and permutes the ones after it, so the backward loop skips nothing |
| Crud.DeleteOutcome | engine/crud.go:117-140 | the rows left are exactly the non-matching ones (as a multiset); the count is the number of matches; no condition empties the table |
| Crud.DeleteAt | engine/crud.go:126-137 | one loop turn advances the `DeleteDown` specification by one position |
| Crud.DeleteFrom | engine/crud.go:123-139 | the final state and count are `DeleteDown` over every position; the table stays valid |
| Join.MergeRowsShape | engine/join.go:93-109 | the keys are the left columns qualified by the left table and the right columns by the right table; the right row wins a clash |
| Join.JoinWithoutIndex | engine/join.go:56-86 | without an index on the right column, the join is the nested-loop reference join, in order |
| Join.JoinIsScan | engine/join.go:39-89 | with a consistent index, the join has the reference join's rows, possibly in another order |
| Join.JoinLength | engine/join.go:39-89 | one output row per pair of rows with equal non-null join values |
| Join.JoinLeftRowIndexed | engine/join.go:53-55 | through the index, one left row yields the scan's rows in bucket order |
| Join.ScanRight | engine/join.go:58-63 | the linear scan finds the ascending positions of the right rows storing the value |
| Join.JoinCandidates | engine/join.go:67-86 | each candidate in range is merged and projected, in candidate order |
| Join.JoinLeft | engine/join.go:46-86 | one outer-loop turn: nothing for an absent or Null join value, otherwise the joined rows over the index or the scan |
| Join.JoinTables | engine/join.go:44-87 | the outer loop over the left rows yields `JoinRows`; neither table changes |
| Databases.Database.constructor | engine/database.go:12-16 | a new database has no tables |
| Databases.Database.CreateTable | engine/database.go:19-30 | a registered name gives TableAlreadyExists and no change; otherwise exactly that name maps to a fresh new table |
| Databases.Database.GetTable | engine/database.go:33-43 | the registered table, or TableNotFound |
| Databases.Database.DropTable | engine/database.go:46-56 | an unregistered name gives TableNotFound; otherwise exactly that name is removed |
| Databases.Database.ListTables | engine/database.go:59-68 | every registered name exactly once |
| Databases.Database.TableExists | engine/database.go:71-77 | true exactly when the name is registered |
| Databases.Database.Insert | engine/crud.go:11-26 | TableNotFound, or the insert on that table with every other table unchanged |
| Databases.Database.Select | engine/crud.go:29-76 | TableNotFound, or `SelectResult` on the table's state |
| Databases.Database.Update | engine/crud.go:79-114 | TableNotFound with count 0, or the Update loop on that table alone |
| Databases.Database.Delete | engine/crud.go:117-140 | TableNotFound with count 0, or the Delete loop on that table alone |
| Databases.Database.InnerJoin | engine/join.go:12-90 | the first missing table or join column is reported in source order; otherwise `JoinRows`; nothing changes |
| Tokenizer.TrimSpace | parser/tokenizer.go:32 | empty exactly when the input is all whitespace; otherwise it starts and ends with a non-space |
| Tokenizer.TrimSpaceIdempotent | parser/tokenizer.go:32 | trimming twice is trimming once |
| Tokenizer.UpperIdempotent | parser/tokenizer.go:120 | upper-casing twice is upper-casing once |
| Tokenizer.TokenAt | parser/tokenizer.go:35-134 | one scanner step always makes progress and never passes one beyond the end |
| Tokenizer.ScanAt | parser/tokenizer.go:35-134 | one pass of the loop emits the token `TokenAt` specifies and continues where it says |
| Tokenizer.Tokenize | parser/tokenizer.go:30-138 | the loop's tokens are `Tokens(input)`: the tokens of the trimmed input, then EOF |
| Tokenizer.TokensEndWithEOF | parser/tokenizer.go:136-137 | the sequence ends in exactly one EOF with empty text, and every earlier token is well formed |
| Tokenizer.LexFromWellFormed | parser/tokenizer.go:43-130 | every token emitted has its kind's shape: operators are one of the eight spellings the scanner emits (`=`, `!`, `>`, `<`, `==`, `!=`, `>=`, `<=`), numbers are digits, words start with a letter or `_` |
| Tokenizer.ScanQuoted | parser/tokenizer.go:43-56 | the loop ends where `TokenAt` says, with its string token |
| Tokenizer.ScanDigits | parser/tokenizer.go:98-108 | the loop ends where `TokenAt` says, with its number token |
| Tokenizer.ScanWord | parser/tokenizer.go:111-130 | the loop ends where `TokenAt` says, with its word token |
| Tokenizer.ScanOther | parser/tokenizer.go:73-133 | commas, `*`, parentheses, numbers, words and skipped characters give the token and position `TokenAt` specifies |
| Tokenizer.LexFromLength | parser/tokenizer.go:35-134 | no character yields more than one token |
| Tokenizer.LexSkips | parser/tokenizer.go:36-133 | whitespace and unrecognised characters yield nothing |
| Tokenizer.LexQuoted | parser/tokenizer.go:43-56 | a quoted string is the text up to the next identical quote, with the quotes excluded |
| Tokenizer.LexUnterminated | parser/tokenizer.go:43-56 | an unterminated quote takes the rest of the input, and nothing follows it |
| Tokenizer.LexNumber | parser/tokenizer.go:98-108 | a number is the whole run of digits |
| Tokenizer.LexNoNegativeNumbers | parser/tokenizer.go:98-133 | a `-` is skipped, so a negative literal lexes as its unsigned number |
| Tokenizer.LexWord | parser/tokenizer.go:111-130 | a word is the whole run of word characters, kept in its own case, and a keyword exactly when its upper-cased form is reserved |
| Ast.Type | parser/ast.go:8-85 | never CmdUnknown; Select for selects and joins, and the matching tag for each other command |
| Parsing.MatchInside | parser/parser.go:473-486 | a matched kind other than EOF is a real token at the cursor |
| Parsing.AtoiDigits | parser/parser.go:522-527 | any unsigned digit string, leading zeros included, reads as the number it spells, and fails exactly above 2^63 - 1 |
| Parsing.AtoiDecimal | parser/parser.go:522-527 | the shortest decimal spelling of n reads back as n, and fails exactly above 2^63 - 1 |
| Parsing.AtoiNegative | parser/parser.go:522-527 | with a minus sign before the shortest spelling, reading succeeds down to -2^63 and fails below it |
| Parsing.ExpectNumber | parser/parser.go:522-527 | a number token holding the shortest spelling of n becomes the integer n, or InvalidNumber beyond the 64-bit range |
| Parsing.IdentifierListAt | parser/parser.go:373-391 | a successful list has at least one identifier |
| Parsing.ValueListAt | parser/parser.go:394-412 | a successful list has at least one value |
| Parsing.ModifiersAt | parser/parser.go:111-129 | the cursor never moves back; the name and type are kept; flags are only set; PRIMARY KEY implies NOT NULL |
| Parsing.ModifierPrimaryKey | parser/parser.go:112-118 | `PRIMARY KEY` makes the column a primary key and NOT NULL |
| Parsing.ModifierUnique | parser/parser.go:119-121 | `UNIQUE` makes the column unique |
| Parsing.ModifierNotNull | parser/parser.go:122-128 | `NOT NULL` makes the column NOT NULL |
| Parsing.ModifierNone | parser/parser.go:111 | without PRIMARY, UNIQUE or NOT the column is unchanged and nothing is consumed |
| Parsing.ModifiersOnlyFromKeywords | parser/parser.go:111-129 | a flag is set only if the column already had it or its keywords occur in the consumed tokens (PRIMARY KEY for the key, UNIQUE for unique, PRIMARY KEY or NOT NULL for NOT NULL) |
| Parsing.ColumnDefAt | parser/parser.go:93-131 | a parsed column is named by the identifier, typed by the upper-cased keyword after it, with the flags the modifiers that follow set; its type is upper-case, and it is NOT NULL when it is a primary key |
| Parsing.ColumnDefsShape | parser/parser.go:89-141 | every column of a definition list has an upper-case type and is NOT NULL when it is a primary key |
| Parsing.OperatorRoundTrip | parser/parser.go:453-457 | the condition keeps exactly the operator text written; only the six known spellings are understood |
| Parsing.ConditionText | engine/crud.go:142-165 | a parsed condition holds of a row exactly when the row has the column and the value compares as the operator text says; any other text matches no row |
| Parsing.ConditionAt | parser/parser.go:447-469 | a condition is an identifier, an operator token and a value, three tokens in all |
| Parsing.WhereAt | parser/parser.go:279-287 | without WHERE, no condition and no token consumed; with one, the keyword and three more tokens |
| Parsing.SetPairAt | parser/parser.go:419-434 | a pair is an identifier, `=` and a value |
| Parsing.AssignKeys | parser/parser.go:415-444 | the SET row's columns are exactly the columns the pairs name |
| Parsing.AssignLastWins | parser/parser.go:415-444 | each column holds the value of the last pair that names it |
| Parsing.RowFromListsMeaning | parser/parser.go:191-203 | an INSERT row exists exactly when a non-empty column list meets as many values; no list gives the columns-required error; the row's columns are the listed ones |
| Parsing.RowFromListsPositional | parser/parser.go:191-203 | a column listed once holds the value in the same position |
| Parsing.ColumnListAt | parser/parser.go:158-170 | without `(` the list is empty and nothing is consumed; with it, at least one column |
| Parsing.Split | parser/parser.go:543 | at least one piece, none containing the separator |
| Parsing.SplitJoin | parser/parser.go:543 | the pieces joined with the separator give back the input |
| Parsing.ExtractQualified | parser/parser.go:542-548 | `table.column` gives back the column, and a name without a dot is kept whole |
| Parsing.ExtractColumnNameShape | parser/parser.go:542-548 | the result is the whole name or a piece of it without a dot |
| Parsing.CreateTableAt | parser/parser.go:54-86 | a successful parse is a CREATE TABLE command named by the identifier after TABLE, whose schema is the definitions inside the parentheses, stopping on the closing one |
| Parsing.InsertAt | parser/parser.go:144-209 | a successful parse is an INSERT command into the identifier after INTO, whose row pairs the column list with the VALUES list, stopping on the closing parenthesis |
| Parsing.SelectStar | parser/parser.go:363-370 | the empty (all columns) list comes from `*` and from nothing else |
| Parsing.JoinAt | parser/parser.go:233-277 | a successful join is seven tokens `INNER JOIN right ON a = b`; it keeps the left table and the selected columns, names the right table, and joins on `a` and `b` without their table prefixes |
| Parsing.SelectAt | parser/parser.go:212-294 | a successful SELECT reads the column list, FROM and the table; it is a join exactly when INNER follows the table, and otherwise selects those columns from that table under the WHERE condition |
| Parsing.UpdateStatementAt | parser/parser.go:297-330 | a successful parse is an UPDATE of the identifier after UPDATE, with the SET clause's row and the WHERE condition that follows it |
| Parsing.DeleteStatementAt | parser/parser.go:333-360 | a successful parse is a DELETE from the identifier after FROM, with the WHERE condition that follows it |
| Parsing.ParseDispatch | parser/parser.go:26-51 | success only from a keyword, with the tag that keyword announces; a non-keyword or an unknown keyword is the matching error at the first token |
| Parsing.ParseBlank | parser/parser.go:26-33 | blank input is an expected-keyword error naming the empty EOF text |
| Parsing.CreateUsersId | tests/parser/parser_test.go:8-48 | `id INT PRIMARY KEY` is the INT primary key, NOT NULL |
| Parsing.CreateUsersName | tests/parser/parser_test.go:8-48 | `name STRING NOT NULL` is a NOT NULL STRING column |
| Parsing.CreateUsersEmail | tests/parser/parser_test.go:8-48 | `email STRING UNIQUE` is a UNIQUE STRING column |
| Parsing.CreateUsersColumns | tests/parser/parser_test.go:8-48 | the three definitions parse to the id, name and email columns, stopping on the closing parenthesis |
| Parsing.CreateTableExample | tests/parser/parser_test.go:8-48 | `CREATE TABLE users (id INT PRIMARY KEY, name STRING NOT NULL, email STRING UNIQUE)` parses to the table users with those three columns |
| Parsing.SelectExample | tests/parser/parser_test.go:81-118 | `SELECT name, email FROM users WHERE id = 1` parses to two columns and the condition `id = 1` |
| Parsing.BuildRow | parser/parser.go:191-203 | the loop builds exactly `RowFromLists` |
| Parsing.Parser.constructor | parser/parser.go:17-23 | the tokens of the input, cursor at 0 |
| Parsing.Parser.Advance | parser/parser.go:480-482 | the cursor moves one token on |
| Parsing.Parser.ExpectIdentifier | parser/parser.go:496-503 | result and cursor as `ExpectIdentifierAt` |
| Parsing.Parser.ExpectKeyword | parser/parser.go:505-512 | result and cursor as `ExpectKeywordAt` |
| Parsing.Parser.ExpectValue | parser/parser.go:514-539 | result and cursor as `ExpectValueAt` |
| Parsing.Parser.ParseColumnDefinition | parser/parser.go:93-131 | result and cursor as `ColumnDefAt` |
| Parsing.Parser.ParseSetPair | parser/parser.go:419-434 | result and cursor as `SetPairAt` |
| Parsing.Parser.ParseWhere | parser/parser.go:279-287 | result and cursor as `WhereAt` |
| Parsing.Parser.ParseColumnList | parser/parser.go:158-170 | result and cursor as `ColumnListAt` |
| Parsing.Parser.ParseJoin | parser/parser.go:233-277 | result and cursor as `JoinAt` |
| Parsing.Parser.ParseModifiers | parser/parser.go:111-129 | the loop ends where `ModifiersAt` says, with its column |
| Parsing.Parser.ParseColumnDefinitions | parser/parser.go:89-141 | result and cursor as `ColumnDefsAt` |
| Parsing.Parser.ParseIdentifierList | parser/parser.go:373-391 | result and cursor as `IdentifierListAt` |
| Parsing.Parser.ParseValueList | parser/parser.go:394-412 | result and cursor as `ValueListAt` |
| Parsing.Parser.ParseSetClause | parser/parser.go:415-444 | result and cursor as `SetClauseAt` |
| Parsing.Parser.ParseCondition | parser/parser.go:447-469 | result and cursor as `ConditionAt` |
| Parsing.Parser.ParseSelectColumns | parser/parser.go:363-370 | result and cursor as `SelectColumnsAt` |
| Parsing.Parser.ParseCreateTable | parser/parser.go:54-86 | result and cursor as `CreateTableAt` |
| Parsing.Parser.ParseInsert | parser/parser.go:144-209 | result and cursor as `InsertAt` |
| Parsing.Parser.ParseSelect | parser/parser.go:212-294 | result and cursor as `SelectAt` |
| Parsing.Parser.ParseUpdate | parser/parser.go:297-330 | result and cursor as `UpdateStatementAt` |
| Parsing.Parser.ParseDelete | parser/parser.go:333-360 | result and cursor as `DeleteStatementAt` |
| Parsing.Parser.Parse | parser/parser.go:26-51 | result and cursor as `ParseAt` |

## Left out

- Locks. The Go `Database` guards its table map with a read-write mutex.
  The model is sequential, so concurrency is not modelled.
- The REPL, the web server and their DTOs: they are I/O around the core.
- Error message strings (`Error()` methods): errors are datatype values.
- `ErrInvalidValue`, `ErrNoRowsAffected` and `ErrMultiplePrimaryKeys` are
  declared but never raised by the core, so the model has no path to them.
- Column types are never enforced by the Go engine. The model keeps the
  type text and checks nothing against it.
- Go map iteration order. Loops over maps (updates in Update, indexes in
  addRow, updateRow and deleteRow, keys in mergeRows) are modelled by their
  order-independent effect. ListTables returns the names in some order.
- Aliasing of rows. Go rows are maps shared by reference. Insert stores the
  caller's own map in the table (engine/crud.go:24, engine/table.go:138),
  and `Table.Rows()` hands out the live slice (engine/table.go:45-47). So in
  Go a caller that changes a row after inserting it, or one taken from
  `Rows()`, changes the stored row without touching any index. Here a row
  is a value, so that cannot happen. The index consistency results
  (`AddRowKeepsGood`, `UpdateRowKeepsGood`, `DeleteRowKeepsGood`,
  `CreateIndexKeepsGood` and the Insert, Update and Delete contracts built
  on them) hold only for callers that do not change a row after handing it
  to Insert or reading it through `Rows()`. Select itself returns copies
  (engine/crud.go:194-206), as the model does.
- Integer width. Go's `int` in `Value` is 64 bits; `Int` here is unbounded.
  No engine operation does arithmetic on values, and the parser only makes
  integers in the 64-bit range (`Atoi`), so nothing observable is lost.
- Character classes are ASCII. `unicode.IsSpace`, `unicode.IsLetter` and
  `unicode.IsDigit` are applied to single bytes in Go. Bytes above 0x7F
  (such as 0x85 and 0xA0, which IsSpace accepts) are treated as
  unrecognised characters. `strings.ToUpper` and `strings.EqualFold` are
  ASCII upper-casing.
- The Go parser returns a typed-nil `Command` next to an error; here the
  error is the whole result.
- Parsing.ParseAt: the `EmptyInput` branch cannot be reached from a new
  parser, because the token sequence always ends with EOF
  (`TokensEndWithEOF`). No lemma states that it is unreachable.
- The operator texts `==` and `!` are not among the six the evaluator
  knows, so `OperatorOf` keeps them as `Other` and every condition using
  them is false.
- The SELECT column list is `*` whenever the first token's text is `*`,
  whatever its kind, so a quoted `'*'` also selects all columns.
- Several methods are carved out of one longer Go function so that each
  loop has its own contract:
  - `ScanAt`/`ScanOther` in the tokenizer;
  - `ParseModifiers`, `ParseColumnDefinition`, `ParseSetPair`,
    `ParseWhere`, `ParseColumnList` and `ParseJoin` in the parser;
  - `BuildRow`.
  Each one does the same steps as the inline code it replaces.
- Conditions are built only by the parser, through `OperatorOf`, so a
  condition's operator is `Other` only for text other than the six known
  spellings (`OperatorRoundTrip`, `ConditionText`). The datatype itself
  would allow `Other("=")`, which no parse produces.
