/**
  The three table-controller handlers that build SQL text from a request:
  `createTable`, `createRow` and `updateRow`. Each handler is a pure function
  from the request to its outcome: a 400 response body, or the SQL text and
  the bound parameter values that would be handed to the database driver.
*/
module TableController {
  import opened Options
  import opened Text
  import opened Columns

  /** A JSON error body `{ success: false, <key>: <text> }`. */
  datatype ErrorBody = ErrorBody(success: bool, key: string, text: string)

  /** The SQL text and the positional parameter values of one driver call. */
  datatype Query = Query(sql: string, params: seq<string>)

  /** What a handler produces: an error response, or a statement to run. */
  datatype Response =
    | Reject(status: nat, body: ErrorBody)
    | Run(query: Query)

  const NoData: Response := Reject(400, ErrorBody(false, "message", "No data"))
  const InvalidData: Response := Reject(400, ErrorBody(false, "message", "Invalid data"))
  /** `updateRow` reports a missing body under the key `msg`, not `message`. */
  const NoDataIncluded: Response := Reject(400, ErrorBody(false, "msg", "No data included"))

  // ---- createTable ----

  /** The request of `createTable`: no body, or the collection name and its columns. */
  datatype CreateTableRequest =
    | NoBody
    | TableBody(collectionName: string, columns: seq<Column>)

  const CreatePrefix: string := "CREATE TABLE "
  const IdColumn: string := " (id SERIAL PRIMARY KEY, "

  function CreateTableSql(name: string, columns: seq<Column>): string
  {
    CreatePrefix + name + IdColumn + ColumnInfo(columns) + ")"
  }

  /** No column of the request has a name that fails the column test. */
  predicate NamedColumnsPass(columns: seq<Column>)
  {
    forall j :: 0 <= j < |columns| && |columns[j].columnName| > 0 ==> !ColumnRejected(columns[j])
  }

  /**
    `createTable`: a missing body answers "No data"; a rejected collection
    name or a rejected named column answers "Invalid data"; otherwise the
    `CREATE TABLE` statement for the named columns, with no bound values.
  */
  function CreateTable(req: CreateTableRequest): (r: Response)
    ensures req.NoBody? ==> r == Reject(400, ErrorBody(false, "message", "No data"))
    ensures req.TableBody? && r.Reject? ==> r == Reject(400, ErrorBody(false, "message", "Invalid data"))
    ensures req.TableBody? && !ValidCollectionName(req.collectionName) ==> r.Reject?
    ensures r.Run? <==> req.TableBody? && ValidCollectionName(req.collectionName) && NamedColumnsPass(req.columns)
    ensures r.Run? ==> r.query.params == []
  {
    match req
    case NoBody => NoData
    case TableBody(name, columns) =>
      CollectionNameRejectedIff(name);
      ValidateColumnsRejectsIff(columns);
      if CollectionNameRejected(name) then InvalidData
      else
        match ValidateColumns(columns)
        case None => InvalidData
        case Some(kept) => Run(Query(CreateTableSql(name, kept), []))
  }

  /**
    Cuts a `CREATE TABLE` statement into its table name and its
    definition-list text. The name is the text up to the first space.
  */
  function CutCreateTable(sql: string): Option<(string, string)>
  {
    if |sql| < |CreatePrefix| + 1 || sql[..|CreatePrefix|] != CreatePrefix || sql[|sql| - 1] != ')' then None
    else CutCreateBody(sql[|CreatePrefix|..|sql| - 1])
  }

  /** The cut of the text between `CREATE TABLE ` and the closing `)`. */
  function CutCreateBody(rest: string): Option<(string, string)>
  {
    var k := IndexOf(rest, ' ');
    var tail := rest[k..];
    if |tail| < |IdColumn| || tail[..|IdColumn|] != IdColumn then None
    else Some((rest[..k], tail[|IdColumn|..]))
  }

  /** Reads a `CREATE TABLE` statement back into its table name and columns. */
  function ParseCreateTable(sql: string): Option<(string, seq<Column>)>
  {
    match CutCreateTable(sql)
    case None => None
    case Some((name, info)) =>
      match ParseColumnInfo(info)
      case None => None
      case Some(cs) => Some((name, cs))
  }

  /** The cut recovers the name and the definition text of any statement whose name has no space. */
  lemma CutCreateTableText(name: string, info: string)
    requires Lacks(name, ' ')
    ensures CutCreateTable(CreatePrefix + name + IdColumn + info + ")") == Some((name, info))
  {
    var rest := name + IdColumn + info;
    var sql := CreatePrefix + rest + ")";
    assert sql == CreatePrefix + name + IdColumn + info + ")";
    Peel(CreatePrefix, rest, ")");
    assert sql[|CreatePrefix|..|sql| - 1] == rest;
    CutCreateBodyText(name, info);
    assert CutCreateTable(sql) == CutCreateBody(rest);
  }

  lemma CutCreateBodyText(name: string, info: string)
    requires Lacks(name, ' ')
    ensures CutCreateBody(name + IdColumn + info) == Some((name, info))
  {
    assert name + IdColumn + info == name + (IdColumn + info);
    IndexOfAfter(name, IdColumn + info, ' ');
    Peel(name, IdColumn, info);
  }

  /** The statement text for a valid name and well-formed columns reads back as both. */
  lemma CreateTableSqlRoundTrip(name: string, columns: seq<Column>)
    requires ValidCollectionName(name)
    requires forall j :: 0 <= j < |columns| ==> WellFormedColumn(columns[j])
    ensures ParseCreateTable(CreateTableSql(name, columns)) == Some((name, columns))
  {
    assert Lacks(name, ' ') by {
      forall i | 0 <= i < |name| ensures name[i] != ' ' {
        assert InClass(CollectionNameChars, name[i]);
      }
    }
    CutCreateTableText(name, ColumnInfo(columns));
    ColumnInfoRoundTrip(columns);
  }

  /**
    Round trip of `createTable`: the statement it issues reads back as the
    requested collection name and exactly the named columns, in request order.
  */
  lemma CreateTableRoundTrip(req: CreateTableRequest)
    requires req.TableBody? && ValidCollectionName(req.collectionName) && NamedColumnsPass(req.columns)
    ensures CreateTable(req).Run?
    ensures ParseCreateTable(CreateTable(req).query.sql) == Some((req.collectionName, KeepNamed(req.columns)))
  {
    ValidateColumnsRejectsIff(req.columns);
    CreateTableSqlRoundTrip(req.collectionName, KeepNamed(req.columns));
  }

  /**
    When every column is unnamed (or there are none), the definition list is
    empty and the statement ends in a dangling separator.
  */
  lemma CreateTableWithoutColumns(name: string, columns: seq<Column>)
    requires ValidCollectionName(name)
    requires forall j :: 0 <= j < |columns| ==> |columns[j].columnName| == 0
    ensures CreateTable(TableBody(name, columns)) == Run(Query("CREATE TABLE " + name + " (id SERIAL PRIMARY KEY, )", []))
  {
    CollectionNameRejectedIff(name);
    if KeepNamed(columns) != [] {
      KeepNamedMembers(columns, KeepNamed(columns)[0]);
    }
    assert ColumnDefs([]) == [];
  }

  // ---- createRow and updateRow ----

  /** A JSON row body as its key/value entries, in key order. */
  type Payload = seq<(string, string)>

  function Keys(payload: Payload): (keys: seq<string>)
    ensures |keys| == |payload|
  {
    seq(|payload|, i requires 0 <= i < |payload| => payload[i].0)
  }

  function Values(payload: Payload): (values: seq<string>)
    ensures |values| == |payload|
  {
    seq(|payload|, i requires 0 <= i < |payload| => payload[i].1)
  }

  /** `$1`, ..., `$n`. */
  function Placeholders(n: nat): (phs: seq<string>)
    ensures |phs| == n
  {
    seq(n, i requires 0 <= i < n => Placeholder(i + 1))
  }

  function InsertColumnList(payload: Payload): string
  {
    Join(Keys(payload))
  }

  function PlaceholderList(n: nat): string
  {
    Join(Placeholders(n))
  }

  const InsertPrefix: string := "INSERT INTO "
  const ValuesInfix: string := ") VALUES ("
  const InsertSuffix: string := ") RETURNING *"

  function InsertSql(table: string, payload: Payload): string
  {
    InsertPrefix + table + " (" + InsertColumnList(payload) + ValuesInfix + PlaceholderList(|payload|) + InsertSuffix
  }

  /** `createRow`: the `INSERT` statement, binding the values in key order. */
  function CreateRow(table: string, payload: Payload): (q: Query)
    ensures |q.params| == |payload|
    ensures forall i :: 0 <= i < |payload| ==> q.params[i] == payload[i].1
  {
    Query(InsertSql(table, payload), Values(payload))
  }

  /** No placeholder contains a character other than `$` and digits. */
  lemma PlaceholdersLack(n: nat, c: char)
    requires c != '$' && !IsDigit(c)
    ensures Free(Placeholders(n), c)
  {
  }

  /**
    Cuts an `INSERT` statement into its table, its column-list text and its
    placeholder-list text. The table is the text up to the first space; the
    placeholder list is the text after the last `(`.
  */
  function CutInsert(sql: string): Option<(string, string, string)>
  {
    if |sql| < |InsertPrefix| + |InsertSuffix| || sql[..|InsertPrefix|] != InsertPrefix
       || sql[|sql| - |InsertSuffix|..] != InsertSuffix then None
    else CutInsertBody(sql[|InsertPrefix|..|sql| - |InsertSuffix|])
  }

  /** The cut of the text between `INSERT INTO ` and `) RETURNING *`. */
  function CutInsertBody(body: string): Option<(string, string, string)>
  {
    var k := IndexOf(body, ' ');
    var j := LastIndexOf(body, '(');
    var head := body[..j + 1];
    if k + 2 + |ValuesInfix| > |head| || head[k..k + 2] != " (" || head[|head| - |ValuesInfix|..] != ValuesInfix then None
    else Some((body[..k], head[k + 2..|head| - |ValuesInfix|], body[j + 1..]))
  }

  /**
    Reads an `INSERT` statement back into its table, its columns and its
    placeholders. An empty `()` column list is read as no column exactly when
    the `VALUES` list is empty too: one empty key also writes `()`.
  */
  function ParseInsert(sql: string): Option<(string, seq<string>, seq<string>)>
  {
    match CutInsert(sql)
    case None => None
    case Some((table, cols, phs)) =>
      var values := SplitItems(phs);
      Some((table, if values == [] then [] else SplitList(cols), values))
  }

  /** The cut recovers the three parts of any statement whose table has no space and whose placeholders have no `(`. */
  lemma CutInsertText(table: string, cols: string, phs: string)
    requires Lacks(table, ' ') && Lacks(phs, '(')
    ensures CutInsert(InsertPrefix + table + " (" + cols + ValuesInfix + phs + InsertSuffix) == Some((table, cols, phs))
  {
    var body := table + " (" + cols + ValuesInfix + phs;
    var sql := InsertPrefix + body + InsertSuffix;
    assert sql == InsertPrefix + table + " (" + cols + ValuesInfix + phs + InsertSuffix;
    Peel(InsertPrefix, body, InsertSuffix);
    assert sql[|InsertPrefix|..|sql| - |InsertSuffix|] == body;
    CutInsertBodyText(table, cols, phs);
    assert CutInsert(sql) == CutInsertBody(body);
  }

  lemma CutInsertBodyText(table: string, cols: string, phs: string)
    requires Lacks(table, ' ') && Lacks(phs, '(')
    ensures CutInsertBody(table + " (" + cols + ValuesInfix + phs) == Some((table, cols, phs))
  {
    var head := table + " (" + cols + ValuesInfix;
    var body := head + phs;
    assert body == table + (" (" + cols + ValuesInfix + phs);
    IndexOfAfter(table, " (" + cols + ValuesInfix + phs, ' ');
    var pre := table + " (" + cols + ") VALUES ";
    assert ValuesInfix == ") VALUES " + ['('];
    assert head == pre + ['('];
    LastIndexOfBefore(pre, '(', phs);
    assert body[..|pre| + 1] == head;
    assert body[|pre| + 1..] == phs;
    Peel(table, " (", cols + ValuesInfix);
    Peel(table + " (", cols, ValuesInfix);
    assert body[..|table|] == table;
  }

  /**
    The `INSERT` text for comma-free keys and a table name without spaces
    reads back as the table, the keys in order, and `$1`, ..., `$n` in the
    same order; with no entries it reads back as no columns and no values.
  */
  lemma InsertSqlRoundTrip(table: string, payload: Payload)
    requires Free(Keys(payload), ',')
    requires Lacks(table, ' ')
    ensures ParseInsert(InsertSql(table, payload)) == Some((table, Keys(payload), Placeholders(|payload|)))
  {
    var n := |payload|;
    var cols := InsertColumnList(payload);
    var phs := PlaceholderList(n);
    PlaceholderListText(n);
    CutInsertText(table, cols, phs);
    assert CutInsert(InsertSql(table, payload)) == Some((table, cols, phs));
    if n > 0 {
      SplitJoin(Keys(payload));
    }
  }

  /** The placeholder list has no `(` and splits back into `$1`, ..., `$n`, the empty list included. */
  lemma PlaceholderListText(n: nat)
    ensures Lacks(PlaceholderList(n), '(')
    ensures SplitItems(PlaceholderList(n)) == Placeholders(n)
  {
    PlaceholdersLack(n, '(');
    JoinLacks(Placeholders(n), '(');
    PlaceholdersLack(n, ',');
    SplitItemsJoin(Placeholders(n));
  }

  /**
    Round trip of `createRow`: under the same conditions, the statement it
    issues reads back as the table, the keys in order, and `$1`, ..., `$n` in
    the same order, so that key `i` sits at the position of the placeholder
    of parameter `i + 1`, which is bound to entry `i`'s value.
  */
  lemma InsertRoundTrip(table: string, payload: Payload)
    requires Free(Keys(payload), ',')
    requires Lacks(table, ' ')
    ensures ParseInsert(CreateRow(table, payload).sql) == Some((table, Keys(payload), Placeholders(|payload|)))
  {
    InsertSqlRoundTrip(table, payload);
  }

  /** An empty body gives empty column and `VALUES` lists and binds nothing. */
  lemma CreateRowWithoutKeys(table: string)
    ensures CreateRow(table, []) == Query("INSERT INTO " + table + " () VALUES () RETURNING *", [])
  {
    assert Keys([]) == [] && Placeholders(0) == [];
  }

  /**
    Positional pairing of `createRow`: for `n >= 1` entries the placeholder
    list has exactly `n` items with `n - 1` separators, item `i` names
    parameter `i + 1`, and that parameter is bound to entry `i`'s value;
    when no key contains a comma, the column list reads back as the keys.
  */
  lemma InsertPairing(table: string, payload: Payload)
    requires |payload| > 0
    ensures var items := SplitList(PlaceholderList(|payload|));
            && |items| == |payload|
            && forall i :: 0 <= i < |payload| ==>
                 && ParsePlaceholder(items[i]) == Some(i + 1)
                 && CreateRow(table, payload).params[i] == payload[i].1
    ensures Count(PlaceholderList(|payload|), ',') == |payload| - 1
    ensures Free(Keys(payload), ',') ==> SplitList(InsertColumnList(payload)) == Keys(payload)
  {
    var n := |payload|;
    PlaceholdersLack(n, ',');
    SplitJoin(Placeholders(n));
    JoinSeparatorCount(Placeholders(n));
    forall i | 0 <= i < n ensures ParsePlaceholder(Placeholders(n)[i]) == Some(i + 1) {
      PlaceholderRoundTrip(i + 1);
    }
    if Free(Keys(payload), ',') {
      SplitJoin(Keys(payload));
    }
  }

  /** `k = $i` for each entry. */
  function SetItems(payload: Payload): (items: seq<string>)
    ensures |items| == |payload|
  {
    seq(|payload|, i requires 0 <= i < |payload| => payload[i].0 + " = " + Placeholder(i + 1))
  }

  function SetClause(payload: Payload): string
  {
    Join(SetItems(payload))
  }

  const UpdatePrefix: string := "UPDATE "
  const SetInfix: string := " SET "
  const WhereInfix: string := " WHERE id = "
  const UpdateSuffix: string := " RETURNING *;"

  function UpdateSql(table: string, id: string, payload: Payload): string
  {
    UpdatePrefix + table + SetInfix + SetClause(payload) + WhereInfix + id + UpdateSuffix
  }

  /**
    `updateRow`: a missing body answers "No data included" under the key
    `msg`; otherwise the `UPDATE` statement, binding the values in key order
    and writing the row id into the text.
  */
  function UpdateRow(table: string, id: string, body: Option<Payload>): (r: Response)
    ensures body.None? <==> r.Reject?
    ensures r.Reject? ==> r == Reject(400, ErrorBody(false, "msg", "No data included"))
    ensures r.Run? ==> |r.query.params| == |body.value|
    ensures r.Run? ==> forall i :: 0 <= i < |body.value| ==> r.query.params[i] == body.value[i].1
  {
    match body
    case None => NoDataIncluded
    case Some(payload) => Run(Query(UpdateSql(table, id, payload), Values(payload)))
  }

  /** With comma-free keys, no SET item contains a comma. */
  lemma SetItemsCommaFree(payload: Payload)
    requires Free(Keys(payload), ',')
    ensures Free(SetItems(payload), ',')
  {
    var n := |payload|;
    var items := SetItems(payload);
    PlaceholdersLack(n, ',');
    forall i, j | 0 <= i < n && 0 <= j < |items[i]| ensures items[i][j] != ',' {
      var k := payload[i].0;
      assert items[i] == k + " = " + Placeholder(i + 1);
      if j < |k| {
        assert items[i][j] == Keys(payload)[i][j];
      } else if j >= |k| + 3 {
        assert items[i][j] == Placeholders(n)[i][j - |k| - 3];
      }
    }
  }

  /**
    Cuts an `UPDATE` statement into its table, its SET-clause text and the
    row id. The table is the text up to the first space; the id is the text
    after the last space.
  */
  function CutUpdate(sql: string): Option<(string, string, string)>
  {
    if |sql| < |UpdatePrefix| + |UpdateSuffix| || sql[..|UpdatePrefix|] != UpdatePrefix
       || sql[|sql| - |UpdateSuffix|..] != UpdateSuffix then None
    else CutUpdateBody(sql[|UpdatePrefix|..|sql| - |UpdateSuffix|])
  }

  /** The cut of the text between `UPDATE ` and ` RETURNING *;`. */
  function CutUpdateBody(body: string): Option<(string, string, string)>
  {
    var k := IndexOf(body, ' ');
    var j := LastIndexOf(body, ' ');
    var head := body[..j + 1];
    if k + |SetInfix| + |WhereInfix| > |head| || head[k..k + |SetInfix|] != SetInfix
       || head[|head| - |WhereInfix|..] != WhereInfix then None
    else Some((body[..k], head[k + |SetInfix|..|head| - |WhereInfix|], body[j + 1..]))
  }

  /** Reads an `UPDATE` statement back into its table, its SET items and the row id. */
  function ParseUpdate(sql: string): Option<(string, seq<string>, string)>
  {
    match CutUpdate(sql)
    case None => None
    case Some((table, clause, id)) => Some((table, SplitItems(clause), id))
  }

  /** The cut recovers the three parts of any statement whose table and id have no space. */
  lemma CutUpdateText(table: string, clause: string, id: string)
    requires Lacks(table, ' ') && Lacks(id, ' ')
    ensures CutUpdate(UpdatePrefix + table + SetInfix + clause + WhereInfix + id + UpdateSuffix) == Some((table, clause, id))
  {
    var body := table + SetInfix + clause + WhereInfix + id;
    var sql := UpdatePrefix + body + UpdateSuffix;
    assert sql == UpdatePrefix + table + SetInfix + clause + WhereInfix + id + UpdateSuffix;
    Peel(UpdatePrefix, body, UpdateSuffix);
    assert sql[|UpdatePrefix|..|sql| - |UpdateSuffix|] == body;
    CutUpdateBodyText(table, clause, id);
    assert CutUpdate(sql) == CutUpdateBody(body);
  }

  lemma CutUpdateBodyText(table: string, clause: string, id: string)
    requires Lacks(table, ' ') && Lacks(id, ' ')
    ensures CutUpdateBody(table + SetInfix + clause + WhereInfix + id) == Some((table, clause, id))
  {
    var head := table + SetInfix + clause + WhereInfix;
    var body := head + id;
    assert body == table + (SetInfix + clause + WhereInfix + id);
    IndexOfAfter(table, SetInfix + clause + WhereInfix + id, ' ');
    var pre := table + SetInfix + clause + " WHERE id =";
    assert WhereInfix == " WHERE id =" + [' '];
    assert head == pre + [' '];
    LastIndexOfBefore(pre, ' ', id);
    assert body[..|pre| + 1] == head;
    assert body[|pre| + 1..] == id;
    Peel(table, SetInfix, clause + WhereInfix);
    Peel(table + SetInfix, clause, WhereInfix);
    assert body[..|table|] == table;
  }

  /**
    The `UPDATE` text for comma-free keys, and a table name and row id without
    spaces, reads back as the table, the SET items `k_i = $(i+1)` in key
    order, and the row id; the empty body included.
  */
  lemma UpdateSqlRoundTrip(table: string, id: string, payload: Payload)
    requires Free(Keys(payload), ',')
    requires Lacks(table, ' ') && Lacks(id, ' ')
    ensures ParseUpdate(UpdateSql(table, id, payload)) == Some((table, SetItems(payload), id))
  {
    CutUpdateText(table, SetClause(payload), id);
    SetItemsCommaFree(payload);
    forall i | 0 <= i < |payload| ensures |SetItems(payload)[i]| > 0 {
      SetItemShape(payload, i);
    }
    SplitItemsJoin(SetItems(payload));
  }

  /**
    Round trip of `updateRow`: under the same conditions, the statement it
    issues for a present body reads back as the table, the SET items in key
    order, and the row id.
  */
  lemma UpdateRoundTrip(table: string, id: string, payload: Payload)
    requires Free(Keys(payload), ',')
    requires Lacks(table, ' ') && Lacks(id, ' ')
    ensures UpdateRow(table, id, Some(payload)).Run?
    ensures ParseUpdate(UpdateRow(table, id, Some(payload)).query.sql) == Some((table, SetItems(payload), id))
  {
    UpdateSqlRoundTrip(table, id, payload);
  }

  /** An empty body gives an empty SET clause and binds nothing. */
  lemma UpdateRowWithoutKeys(table: string, id: string)
    ensures UpdateRow(table, id, Some([])) == Run(Query("UPDATE " + table + " SET  WHERE id = " + id + " RETURNING *;", []))
  {
    assert SetItems([]) == [] && Values([]) == [];
  }

  /**
    Positional pairing of `updateRow`: when no key contains a comma, the SET
    clause of `n >= 1` entries splits into exactly `n` items with `n - 1`
    separators, and item `i` is key `i`, then ` = `, then the placeholder of
    parameter `i + 1`, which is bound to entry `i`'s value.
  */
  lemma UpdatePairing(table: string, id: string, payload: Payload)
    requires |payload| > 0
    requires Free(Keys(payload), ',')
    ensures var items := SplitList(SetClause(payload));
            && |items| == |payload|
            && Count(SetClause(payload), ',') == |payload| - 1
            && forall i :: 0 <= i < |payload| ==>
                 var k := payload[i].0;
                 && |items[i]| > |k| + 3
                 && items[i][..|k|] == k
                 && items[i][|k|..|k| + 3] == " = "
                 && ParsePlaceholder(items[i][|k| + 3..]) == Some(i + 1)
                 && UpdateRow(table, id, Some(payload)).query.params[i] == payload[i].1
  {
    var items := SetItems(payload);
    SetItemsCommaFree(payload);
    SplitJoin(items);
    JoinSeparatorCount(items);
    forall i | 0 <= i < |payload|
      ensures var k := payload[i].0;
              && |items[i]| > |k| + 3
              && items[i][..|k|] == k
              && items[i][|k|..|k| + 3] == " = "
              && ParsePlaceholder(items[i][|k| + 3..]) == Some(i + 1)
    {
      SetItemShape(payload, i);
    }
  }

  /** SET item `i` is key `i`, then ` = `, then the placeholder of parameter `i + 1`. */
  lemma SetItemShape(payload: Payload, i: nat)
    requires i < |payload|
    ensures var item := SetItems(payload)[i];
            var k := payload[i].0;
            && |item| > |k| + 3
            && item[..|k|] == k
            && item[|k|..|k| + 3] == " = "
            && ParsePlaceholder(item[|k| + 3..]) == Some(i + 1)
  {
    var k := payload[i].0;
    Peel(k, " = ", Placeholder(i + 1));
    PlaceholderRoundTrip(i + 1);
  }
}
