/**
  The part of `createTable` that works on the request's data: the character
  tests on the collection and column names, the reverse loop that prunes
  unnamed columns while validating the rest, and the column-definition text
  of the `CREATE TABLE` statement.
*/
module Columns {
  import opened Options
  import opened Text

  /** One entry of the request's `columns` array. */
  datatype Column = Column(columnName: string, dataType: string)

  /** The two character classes the controller tests names against. */
  datatype CharClass =
    | CollectionNameChars   // a-z, 0-9 and '-'
    | ColumnNameChars       // a-z, A-Z, 0-9 and '_'

  predicate InClass(cls: CharClass, c: char)
  {
    match cls
    case CollectionNameChars => 'a' <= c <= 'z' || '0' <= c <= '9' || c == '-'
    case ColumnNameChars => 'a' <= c <= 'z' || 'A' <= c <= 'Z' || '0' <= c <= '9' || c == '_'
  }

  /**
    The negated-class regular-expression test (`/[^...]/.test(s)`): a scan of
    `s` that succeeds at the first character outside `cls`.
  */
  function HasCharOutside(cls: CharClass, s: string): (found: bool)
    ensures found <==> exists i :: 0 <= i < |s| && !InClass(cls, s[i])
    decreases |s|
  {
    if |s| == 0 then false
    else if !InClass(cls, s[0]) then true
    else
      OutsideInTail(cls, s);
      HasCharOutside(cls, s[1..])
  }

  /** Past an in-class first character, a character outside the class can only lie in the tail. */
  lemma OutsideInTail(cls: CharClass, s: string)
    requires |s| > 0 && InClass(cls, s[0])
    ensures (exists i :: 0 <= i < |s| && !InClass(cls, s[i])) <==> (exists i :: 0 <= i < |s[1..]| && !InClass(cls, s[1..][i]))
  {
    if i :| 0 <= i < |s| && !InClass(cls, s[i]) {
      assert s[1..][i - 1] == s[i];
    }
    if i :| 0 <= i < |s[1..]| && !InClass(cls, s[1..][i]) {
      assert s[i + 1] == s[1..][i];
    }
  }

  /** The data types a column may declare, in the order the controller lists them. */
  const DataTypes: seq<string> := ["text", "number", "boolean"]

  predicate KnownDataType(t: string)
  {
    t in DataTypes
  }

  /** A collection name the controller rejects: an outside character, or no name at all. */
  predicate CollectionNameRejected(name: string)
  {
    HasCharOutside(CollectionNameChars, name) || |name| == 0
  }

  /** A named column the controller rejects: an outside character or an unknown type. */
  predicate ColumnRejected(c: Column)
  {
    HasCharOutside(ColumnNameChars, c.columnName) || !KnownDataType(c.dataType)
  }

  /** Reference description of an acceptable collection name: `[a-z0-9-]+`. */
  predicate ValidCollectionName(name: string)
  {
    |name| > 0 && forall i :: 0 <= i < |name| ==> InClass(CollectionNameChars, name[i])
  }

  /** Reference description of a column that may reach the SQL text. */
  predicate WellFormedColumn(c: Column)
  {
    && |c.columnName| > 0
    && (forall i :: 0 <= i < |c.columnName| ==> InClass(ColumnNameChars, c.columnName[i]))
    && KnownDataType(c.dataType)
  }

  /** The collection-name test rejects exactly the names outside `[a-z0-9-]+`. */
  lemma CollectionNameRejectedIff(name: string)
    ensures CollectionNameRejected(name) <==> !ValidCollectionName(name)
  {
  }

  /** The columns that carry a name, in their original relative order. */
  function KeepNamed(columns: seq<Column>): (kept: seq<Column>)
    ensures |kept| <= |columns|
    ensures forall j :: 0 <= j < |kept| ==> |kept[j].columnName| > 0
    decreases |columns|
  {
    if |columns| == 0 then []
    else if |columns[0].columnName| == 0 then KeepNamed(columns[1..])
    else [columns[0]] + KeepNamed(columns[1..])
  }

  /**
    `KeepNamed` is the filter on named columns: it distributes over
    concatenation, keeps a single named column and drops a single unnamed one.
    These equations determine the result, order included.
  */
  lemma KeepNamedIsFilter(a: seq<Column>, b: seq<Column>)
    ensures KeepNamed(a + b) == KeepNamed(a) + KeepNamed(b)
    ensures forall c :: KeepNamed([c]) == (if |c.columnName| > 0 then [c] else [])
  {
    KeepNamedAppend(a, b);
    forall c ensures KeepNamed([c]) == (if |c.columnName| > 0 then [c] else []) {
      assert [c][1..] == [];
    }
  }

  lemma {:induction false} KeepNamedAppend(a: seq<Column>, b: seq<Column>)
    ensures KeepNamed(a + b) == KeepNamed(a) + KeepNamed(b)
    decreases |a|
  {
    if |a| == 0 {
      assert a + b == b;
    } else {
      assert (a + b)[0] == a[0];
      assert (a + b)[1..] == a[1..] + b;
      KeepNamedAppend(a[1..], b);
    }
  }

  /** A column survives the filter exactly when it is in the input and has a name. */
  lemma {:induction false} KeepNamedMembers(columns: seq<Column>, c: Column)
    ensures c in KeepNamed(columns) <==> c in columns && |c.columnName| > 0
    decreases |columns|
  {
    if |columns| > 0 {
      KeepNamedMembers(columns[1..], c);
      assert columns == [columns[0]] + columns[1..];
    }
  }

  /**
    Reference validation: drop the unnamed columns, then reject if any
    remaining one fails the column test; otherwise the remaining columns.
  */
  function ValidateColumns(columns: seq<Column>): (r: Option<seq<Column>>)
    ensures r.Some? ==> forall j :: 0 <= j < |r.value| ==> WellFormedColumn(r.value[j])
  {
    var kept := KeepNamed(columns);
    if exists j :: 0 <= j < |kept| && ColumnRejected(kept[j]) then None
    else Some(kept)
  }

  /**
    Validation fails exactly when some column WITH a name has an outside
    character or an unknown type; unnamed columns never cause a rejection.
  */
  lemma ValidateColumnsRejectsIff(columns: seq<Column>)
    ensures ValidateColumns(columns).None?
        <==> exists j :: 0 <= j < |columns| && |columns[j].columnName| > 0 && ColumnRejected(columns[j])
    ensures ValidateColumns(columns).Some? ==> ValidateColumns(columns).value == KeepNamed(columns)
  {
    var kept := KeepNamed(columns);
    if exists j :: 0 <= j < |kept| && ColumnRejected(kept[j]) {
      var j :| 0 <= j < |kept| && ColumnRejected(kept[j]);
      KeepNamedMembers(columns, kept[j]);
      var k :| 0 <= k < |columns| && columns[k] == kept[j];
      assert |columns[k].columnName| > 0 && ColumnRejected(columns[k]);
    }
    if exists j :: 0 <= j < |columns| && |columns[j].columnName| > 0 && ColumnRejected(columns[j]) {
      var j :| 0 <= j < |columns| && |columns[j].columnName| > 0 && ColumnRejected(columns[j]);
      KeepNamedMembers(columns, columns[j]);
      var k :| 0 <= k < |kept| && kept[k] == columns[j];
      assert ColumnRejected(kept[k]);
    }
  }

  /**
    The controller's loop: walk the columns from the last index down,
    splicing out each unnamed column and returning a rejection at the first
    named column that fails the test. It agrees with the forward
    filter-then-validate reference on every input.
  */
  method ValidateColumnsInPlace(columns: seq<Column>) returns (r: Option<seq<Column>>)
    ensures r == ValidateColumns(columns)
  {
    var working := columns;
    var i := |columns| - 1;
    while i >= 0
      invariant -1 <= i < |columns|
      invariant working == columns[..i + 1] + KeepNamed(columns[i + 1..])
      invariant forall j :: i < j < |columns| && |columns[j].columnName| > 0 ==> !ColumnRejected(columns[j])
    {
      var c := working[i];
      KeepNamedStep(columns, i);
      if |c.columnName| == 0 {
        working := working[..i] + working[i + 1..];
        i := i - 1;
        continue;
      }
      if ColumnRejected(c) {
        ValidateColumnsRejectsIff(columns);
        return None;
      }
      i := i - 1;
    }
    assert columns[..0] == [] && columns[0..] == columns;
    assert working == KeepNamed(columns);
    ValidateColumnsRejectsIff(columns);
    return Some(working);
  }

  /** One step of the reverse loop: column `i` is spliced out or kept in place. */
  lemma KeepNamedStep(columns: seq<Column>, i: int)
    requires 0 <= i < |columns|
    ensures (columns[..i + 1] + KeepNamed(columns[i + 1..]))[i] == columns[i]
    ensures |columns[i].columnName| == 0 ==>
      var w := columns[..i + 1] + KeepNamed(columns[i + 1..]);
      w[..i] + w[i + 1..] == columns[..i] + KeepNamed(columns[i..])
    ensures |columns[i].columnName| > 0 ==>
      columns[..i + 1] + KeepNamed(columns[i + 1..]) == columns[..i] + KeepNamed(columns[i..])
  {
  }

  // ---- Column-definition text ----

  /** The SQL type written for a data type; an unknown type falls through the switch and writes nothing. */
  function SqlType(dataType: string): string
  {
    if dataType == "text" then "VARCHAR"
    else if dataType == "number" then "INTEGER"
    else if dataType == "boolean" then "BOOLEAN"
    else ""
  }

  /** The data type a SQL type name was written for. */
  function DataTypeOf(sqlType: string): Option<string>
  {
    if sqlType == "VARCHAR" then Some("text")
    else if sqlType == "INTEGER" then Some("number")
    else if sqlType == "BOOLEAN" then Some("boolean")
    else None
  }

  /** Each known data type maps to its own SQL type, and only unknown types write nothing. */
  lemma SqlTypeRoundTrip(dataType: string)
    ensures KnownDataType(dataType) ==> DataTypeOf(SqlType(dataType)) == Some(dataType)
    ensures !KnownDataType(dataType) <==> SqlType(dataType) == ""
  {
  }

  /** `name TYPE` for one column. */
  function ColumnDef(c: Column): string
  {
    c.columnName + " " + SqlType(c.dataType)
  }

  function ColumnDefs(columns: seq<Column>): seq<string>
  {
    seq(|columns|, i requires 0 <= i < |columns| => ColumnDef(columns[i]))
  }

  /** The column-definition list placed after `id SERIAL PRIMARY KEY, `. */
  function ColumnInfo(columns: seq<Column>): string
  {
    Join(ColumnDefs(columns))
  }

  /** Reads one `name TYPE` definition back into a column. */
  function ParseColumnDef(d: string): Option<Column>
  {
    var k := IndexOf(d, ' ');
    if k == 0 || k == |d| then None
    else
      match DataTypeOf(d[k + 1..])
      case None => None
      case Some(t) => Some(Column(d[..k], t))
  }

  function ParseColumnDefs(ds: seq<string>): Option<seq<Column>>
    decreases |ds|
  {
    if |ds| == 0 then Some([])
    else
      match ParseColumnDef(ds[0])
      case None => None
      case Some(c) =>
        match ParseColumnDefs(ds[1..])
        case None => None
        case Some(cs) => Some([c] + cs)
  }

  /** Reads a column-definition list back into columns. */
  function ParseColumnInfo(info: string): Option<seq<Column>>
  {
    ParseColumnDefs(SplitItems(info))
  }

  /** A well-formed column's definition reads back as that column. */
  lemma ColumnDefRoundTrip(c: Column)
    requires WellFormedColumn(c)
    ensures ParseColumnDef(ColumnDef(c)) == Some(c)
  {
    var d := ColumnDef(c);
    var k := |c.columnName|;
    IndexOfAfter(c.columnName, " " + SqlType(c.dataType), ' ');
    assert d == c.columnName + (" " + SqlType(c.dataType));
    assert d[..k] == c.columnName;
    assert d[k + 1..] == SqlType(c.dataType);
    SqlTypeRoundTrip(c.dataType);
  }

  lemma {:induction false} ColumnDefsRoundTrip(columns: seq<Column>)
    requires forall j :: 0 <= j < |columns| ==> WellFormedColumn(columns[j])
    ensures ParseColumnDefs(ColumnDefs(columns)) == Some(columns)
    decreases |columns|
  {
    if |columns| > 0 {
      ColumnDefRoundTrip(columns[0]);
      assert ColumnDefs(columns)[1..] == ColumnDefs(columns[1..]);
      ColumnDefsRoundTrip(columns[1..]);
      assert [columns[0]] + columns[1..] == columns;
    }
  }

  /** No definition of a well-formed column contains a comma. */
  lemma ColumnDefsCommaFree(columns: seq<Column>)
    requires forall j :: 0 <= j < |columns| ==> WellFormedColumn(columns[j])
    ensures Free(ColumnDefs(columns), ',')
    ensures forall j :: 0 <= j < |columns| ==> |ColumnDefs(columns)[j]| > 0
  {
  }

  /**
    Round trip of the column-definition text: the definitions written for
    well-formed columns read back as exactly those columns, in order.
  */
  lemma ColumnInfoRoundTrip(columns: seq<Column>)
    requires forall j :: 0 <= j < |columns| ==> WellFormedColumn(columns[j])
    ensures ParseColumnInfo(ColumnInfo(columns)) == Some(columns)
  {
    ColumnDefsCommaFree(columns);
    SplitItemsJoin(ColumnDefs(columns));
    ColumnDefsRoundTrip(columns);
  }

  /**
    `n >= 1` well-formed columns give `n - 1` separating commas in the
    definition list, which ends with the last column's definition.
  */
  lemma ColumnInfoSeparators(columns: seq<Column>)
    requires |columns| > 0
    requires forall j :: 0 <= j < |columns| ==> WellFormedColumn(columns[j])
    ensures Count(ColumnInfo(columns), ',') == |columns| - 1
    ensures var info := ColumnInfo(columns);
            var last := ColumnDef(columns[|columns| - 1]);
            |info| >= |last| && info[|info| - |last|..] == last
  {
    ColumnDefsCommaFree(columns);
    JoinSeparatorCount(ColumnDefs(columns));
  }
}
