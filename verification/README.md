# Table controller: request validation and SQL-text building

This project models, in Dafny, the logic of the table controller of a generic
table-management HTTP API (`server/controllers/tableController.ts`). Its
handlers turn request bodies into SQL text for a database driver. The model
covers the three handlers that do real work on the request:

- `createTable` rejects a request without a body ("No data"). It then tests
  the collection name against `[a-z0-9-]+` ("Invalid data" otherwise). Next
  it walks the columns from the last index down. Unnamed columns are spliced
  out of the list. A named column whose name has a character outside
  `[a-zA-Z0-9_]`, or whose type is not `text`, `number` or `boolean`, gives
  "Invalid data". Finally it writes
  `CREATE TABLE <name> (id SERIAL PRIMARY KEY, <defs>)`. The definitions are
  `name VARCHAR|INTEGER|BOOLEAN`, joined with `", "`.
- `createRow` writes `INSERT INTO <table> (<keys>) VALUES ($1, ..., $n) RETURNING *`.
  It binds the body's values in key order.
- `updateRow` rejects a missing body with `{ success: false, msg: "No data included" }`.
  Note the key `msg`, not `message`. Otherwise it writes
  `UPDATE <table> SET k1 = $1, ..., kn = $n WHERE id = <id> RETURNING *;`.

Every handler is a pure function. It returns either a 400 error body or a
`Query`: the SQL text plus the positional parameter values that the handler
would hand to the driver.

Modules:

- `Options` (`options.dfy`) holds the `Option` type.
- `Text` (`text.dfy`) holds the `", "`-joined lists and the loop shape that
  builds them, the inverse `SplitList`, and the decimal `$n` placeholders
  with their parser.
- `Columns` (`columns.dfy`) holds the character classes, the reverse-splice
  validation loop and its filter-then-validate reference, and the
  column-definition text with its parser.
- `TableController` (`table_controller.dfy`) holds the three handlers, the
  statement parsers for `CREATE TABLE`, `INSERT` and `UPDATE`, and the
  pairing lemmas for row writes.

Most properties are stated as round-trip lemmas against inverse functions.
The `CREATE TABLE` statement parses back to the collection name and the
surviving columns. The `INSERT` statement parses back to the table, the keys
and `$1, ..., $n` in the same order. The `UPDATE` statement parses back to
the table, the `k_i = $i` items and the row id. The list texts split back
into their items, and each placeholder parses back to its parameter number.
The reverse loop with `splice` is proved equal to a forward filter followed
by validation.

One edge case is modelled as written. If no column survives (none was sent,
or all were unnamed), the definition list is empty. The statement is then
`CREATE TABLE <name> (id SERIAL PRIMARY KEY, )`, with a dangling separator
(`CreateTableWithoutColumns`). In the same way, a row body with no keys gives
`INSERT INTO <table> () VALUES () RETURNING *` (`CreateRowWithoutKeys`) and
`UPDATE <table> SET  WHERE id = <id> RETURNING *;`, with an empty `SET`
clause (`UpdateRowWithoutKeys`). The statement parsers read an empty list as
no items. For `INSERT`, the text `()` is also what one empty key writes, so
the column list is read as empty exactly when the `VALUES` list is.

## Model

| member | source | states |
|---|---|---|
| `Columns.HasCharOutside` | server/controllers/tableController.ts:69-69 | the negated-class regular-expression test succeeds exactly when some character of the string lies outside the class |
| `Columns.CollectionNameRejectedIff` | server/controllers/tableController.ts:69-75 | a collection name is rejected exactly when it is empty or has a character outside `a-z`, `0-9`, `-` |
| `Columns.CollectionNameRejected` | server/controllers/tableController.ts:69-69 | the collection-name rejection condition: some character outside `a-z`, `0-9`, `-`, or an empty name |
| `Columns.KeepNamed` | server/controllers/tableController.ts:81-85 | the pruned column list is no longer than the input and every column in it has a non-empty name |
| `Columns.KeepNamedIsFilter` | server/controllers/tableController.ts:78-85 | pruning distributes over concatenation, keeps a lone named column and drops a lone unnamed one, so it is the order-preserving filter on named columns |
| `Columns.KeepNamedMembers` | server/controllers/tableController.ts:81-85 | a column survives pruning exactly when it is in the input and has a name |
| `Columns.ValidateColumns` | server/controllers/tableController.ts:78-97 | when validation passes, every surviving column has a non-empty `[a-zA-Z0-9_]` name and a known data type |
| `Columns.ColumnRejected` | server/controllers/tableController.ts:89-90 | the rejection condition for a named column: some character outside `a-zA-Z0-9_`, or a data type that is not `text`, `number` or `boolean` |
| `Columns.ValidateColumnsRejectsIff` | server/controllers/tableController.ts:87-96 | validation rejects exactly when some column with a non-empty name has an outside character or an unknown data type; otherwise the result is the named columns |
| `Columns.KeepNamedStep` | server/controllers/tableController.ts:79-84 | one loop step: splicing out unnamed column `i` leaves the prefix before `i` followed by the pruned suffix, and a named column stays in place |
| `Columns.ValidateColumnsInPlace` | server/controllers/tableController.ts:78-97 | the reverse loop with in-place splicing returns the same outcome as the forward filter-then-validate reference, on every input |
| `Columns.SqlTypeRoundTrip` | server/controllers/tableController.ts:102-112 | `text`, `number` and `boolean` map to distinct SQL types that read back to them; only other types write nothing |
| `Columns.ColumnDefRoundTrip` | server/controllers/tableController.ts:101-112 | the definition `name TYPE` of a well-formed column reads back as that column |
| `Columns.ColumnDefsRoundTrip` | server/controllers/tableController.ts:100-112 | the definitions of a list of well-formed columns read back, item by item, as that list |
| `Columns.ColumnInfoRoundTrip` | server/controllers/tableController.ts:99-115 | the comma-joined definition list of well-formed columns splits and parses back to exactly those columns, in order |
| `Columns.ColumnInfoSeparators` | server/controllers/tableController.ts:99-115 | `n >= 1` definitions carry exactly `n - 1` commas and the text ends with the last definition (no trailing separator) |
| `Columns.SqlType` | server/controllers/tableController.ts:102-112 | the SQL type written for a data type: `VARCHAR`, `INTEGER` or `BOOLEAN`, and nothing for any other type (the switch has no default) |
| `Columns.ColumnInfo` | server/controllers/tableController.ts:99-115 | the definition list: one `name TYPE` per surviving column, joined with `", "` |
| `Columns.ColumnDef` | server/controllers/tableController.ts:101-112 | the definition of one column: its name, a space, then the SQL type of its data type |
| `Text.Join` | server/controllers/tableController.ts:172-175 | items joined with `", "`, with no separator before the first or after the last item |
| `Text.JoinLacks` | server/controllers/tableController.ts:172-181 | a character in no item and not in `", "` does not occur in the joined list |
| `Text.JoinLoop` | server/controllers/tableController.ts:171-181 | the append-item-then-separator-unless-last loop builds exactly the `", "`-joined list of its items |
| `Text.JoinSnoc` | server/controllers/tableController.ts:172-175 | appending an item to a non-empty list appends one separator and the item |
| `Text.JoinSeparatorCount` | server/controllers/tableController.ts:114-114 | joining `n >= 1` comma-free items yields `n - 1` commas and ends with the last item |
| `Text.SplitJoin` | server/controllers/tableController.ts:172-175 | a joined non-empty list of comma-free items splits back into exactly those items |
| `Text.SplitItemsJoin` | server/controllers/tableController.ts:171-181 | a joined list of non-empty comma-free items, the empty list included, splits back into exactly those items |
| `Text.ParseNatToString` | server/controllers/tableController.ts:179-179 | the decimal numeral written for `n` reads back as `n` |
| `Text.PlaceholderRoundTrip` | server/controllers/tableController.ts:179-179 | the placeholder `$n` names parameter `n` |
| `Text.PlaceholderInjective` | server/controllers/tableController.ts:179-179 | distinct parameter numbers get distinct placeholders |
| `Text.Placeholder` | server/controllers/tableController.ts:179-179 | the placeholder `$n` of parameter `n`: a dollar sign, then the decimal numeral of `n` |
| `TableController.CreateTable` | server/controllers/tableController.ts:55-117 | no body gives `400 { success: false, message: "No data" }`; any rejection of a present body is exactly `400 { success: false, message: "Invalid data" }`, and an invalid collection name is rejected; a statement is issued exactly when the name is valid and every named column passes; the statement binds no values |
| `TableController.CreateTableSql` | server/controllers/tableController.ts:117-117 | `CREATE TABLE <name> (id SERIAL PRIMARY KEY, <defs>)` |
| `TableController.CutCreateTableText` | server/controllers/tableController.ts:117-117 | a `CREATE TABLE` text is cut back into its table name and definition list when the name has no space |
| `TableController.CreateTableSqlRoundTrip` | server/controllers/tableController.ts:99-117 | the statement for a valid collection name and well-formed columns parses back to that name and those columns |
| `TableController.CreateTableRoundTrip` | server/controllers/tableController.ts:99-117 | the issued `CREATE TABLE` statement parses back to the requested collection name and exactly the named columns, in request order |
| `TableController.CreateTableWithoutColumns` | server/controllers/tableController.ts:99-117 | with no named column, the statement is `CREATE TABLE <name> (id SERIAL PRIMARY KEY, )` |
| `TableController.CreateRow` | server/controllers/tableController.ts:168-186 | the `INSERT` binds one value per entry, the `i`-th value being entry `i`'s value |
| `TableController.InsertColumnList` | server/controllers/tableController.ts:171-175 | the keys joined with `", "` in key order |
| `TableController.PlaceholderList` | server/controllers/tableController.ts:177-181 | `$1` to `$n` joined with `", "` |
| `TableController.Placeholders` | server/controllers/tableController.ts:178-181 | exactly `n` placeholders, the `i`-th being `$(i+1)` |
| `TableController.InsertSql` | server/controllers/tableController.ts:183-183 | `INSERT INTO <table> (<keys>) VALUES (<placeholders>) RETURNING *` |
| `TableController.PlaceholdersLack` | server/controllers/tableController.ts:177-181 | a placeholder contains only `$` and digits, so no comma, space or parenthesis |
| `TableController.CutInsertText` | server/controllers/tableController.ts:183-183 | an `INSERT` text is cut back into its table, column list and placeholder list when the table has no space and the placeholders no `(` |
| `TableController.InsertSqlRoundTrip` | server/controllers/tableController.ts:171-183 | the `INSERT` text parses back to the table, the keys in order and `$1, ..., $n` in the same order; with no entries it reads back as no keys and no placeholders |
| `TableController.InsertRoundTrip` | server/controllers/tableController.ts:171-186 | the issued `INSERT` parses back to the table, the keys in order and `$1, ..., $n` in the same order, so key `i` sits at the position of parameter `i + 1`; the empty body reads back as no keys and no placeholders |
| `TableController.CreateRowWithoutKeys` | server/controllers/tableController.ts:171-186 | an empty body gives `INSERT INTO <table> () VALUES () RETURNING *` and binds nothing |
| `TableController.InsertPairing` | server/controllers/tableController.ts:171-186 | the placeholder list of `n >= 1` entries splits into `n` items with `n - 1` commas, item `i` names parameter `i + 1`, which is bound to entry `i`'s value; comma-free keys split back from the column list |
| `TableController.SetClause` | server/controllers/tableController.ts:212-216 | the items `k_i = $i` joined with `", "` in key order |
| `TableController.SetItems` | server/controllers/tableController.ts:213-216 | one item per entry, in key order: key `i`, then ` = `, then `$(i+1)` |
| `TableController.SetItemsCommaFree` | server/controllers/tableController.ts:212-216 | with comma-free keys, no SET item contains a comma |
| `TableController.SetItemShape` | server/controllers/tableController.ts:214-214 | SET item `i` is key `i`, then ` = `, then the placeholder that names parameter `i + 1` |
| `TableController.UpdateSql` | server/controllers/tableController.ts:218-218 | `UPDATE <table> SET <items> WHERE id = <id> RETURNING *;` |
| `TableController.UpdateRow` | server/controllers/tableController.ts:194-221 | a missing body gives, and is the only thing that gives, exactly `400 { success: false, msg: "No data included" }`; otherwise one bound value per entry, in key order |
| `TableController.CutUpdateText` | server/controllers/tableController.ts:218-218 | an `UPDATE` text is cut back into its table, SET clause and row id when the table and id have no space |
| `TableController.UpdateSqlRoundTrip` | server/controllers/tableController.ts:212-218 | the `UPDATE` text parses back to the table, the items `k_i = $(i+1)` in key order, and the row id; with no entries it reads back as no items |
| `TableController.UpdateRoundTrip` | server/controllers/tableController.ts:212-221 | the issued `UPDATE` parses back to the table, the items `k_i = $(i+1)` in key order, and the row id; the empty body reads back as no items |
| `TableController.UpdateRowWithoutKeys` | server/controllers/tableController.ts:212-221 | an empty body gives `UPDATE <table> SET  WHERE id = <id> RETURNING *;` with an empty `SET` clause and binds nothing |
| `TableController.UpdatePairing` | server/controllers/tableController.ts:212-218 | for comma-free keys the SET clause splits into `n` items with `n - 1` commas; item `i` is key `i`, ` = `, then the placeholder of parameter `i + 1`, bound to entry `i`'s value |

## Left out

- `runQuery` and its results are left out, because they belong to a foreign database driver. A handler's outcome is the SQL text and the bound values. The 500 responses and the log-only `catch` blocks around driver calls are left out for the same reason.
- `getAllTables`, `getTableByName`, `deleteTableByName`, `getRow` and `deleteRow` are left out. `getAllTables` runs a fixed catalog query with no parameter. Each of the others interpolates a path parameter into a fixed string and calls the driver. None of them does validation or builds an SQL list.
- The request context is not modelled: `ctx`, `next()`, the staging of results in `ctx.state`, and `async`/`await`. These are framework plumbing. The success path of `createTable` ends at the statement; staging `collectionName` is not modelled.
- JSON parsing is not modelled. A `createTable` body is modelled as already holding a string `collectionName` and a list of columns with string names and types. Several malformed bodies make the source throw a `TypeError`: a missing or `null` field, a `columns` value that is not an array, and a column entry that is not an object. A `columns` value such as a number, `true` or `{}` has no numeric `length`, so the validation loop is skipped and `columns.forEach` throws. The empty string `""` has length 0, so the loop never runs and `columns.forEach` throws too. A non-empty string `columns` value, or an entry that is a number or a string, has no `columnName`, and reading its `length` throws. Other fields of the wrong JSON type do not throw, and the source treats them in several ways. For example, a numeric `collectionName` has no `length` and gets "Invalid data". A numeric `columnName` is spliced out as if unnamed. An array name is coerced to text by the regular-expression test. Row bodies are modelled as a sequence of key/value pairs in `Object.keys` order. Values are abstract strings.
- `createRow` has no body check in the source. A missing body there depends on the framework's body parser, so the model always takes a payload.
- Identifier quoting and SQL injection are not modelled. The source does no escaping, and the model copies table names, keys and the row id into the text unchanged.
- Characters are Dafny `char` values. JavaScript strings are UTF-16 code units; this matters only outside ASCII, where every character already fails both name tests.
- `TableController.InsertPairing`: the round trip of the column list assumes that no key contains a comma. Keys are unvalidated JSON keys, and a key with a comma makes the column list ambiguous. It also assumes at least one entry, because a count of `n - 1` commas means nothing for `n = 0`; `InsertRoundTrip` and `CreateRowWithoutKeys` cover the empty body.
- `TableController.UpdatePairing`: assumes that no key contains a comma, for the same reason, and at least one entry; `UpdateRoundTrip` and `UpdateRowWithoutKeys` cover the empty body.
- `TableController.InsertSqlRoundTrip`: assumes comma-free keys and a table name without spaces. The source inserts both unchecked, and with such characters the statement text no longer determines its parts.
- `TableController.InsertRoundTrip`: assumes the same as `InsertSqlRoundTrip`.
- `TableController.UpdateSqlRoundTrip`: assumes comma-free keys and a table name and row id without spaces, for the same reason.
- `TableController.UpdateRoundTrip`: assumes the same as `UpdateSqlRoundTrip`.
