/** `create_and_insert_table` (import_data.py lines 24-67): copies a data
    frame into a freshly recreated MySQL table whose column types are
    inferred from the frame's dtypes, one INSERT per row. Infinities and
    missing values become NULL, a `date_modified` column is coerced to
    timestamps, rows MySQL refuses are skipped, and the survivors are
    committed together. */
module Loader {
  import opened Values
  import opened Frames
  import opened Sql
  import opened Database

  /** The one column the loader treats by name. */
  const DateColumn := "date_modified"

  // ---------------------------------------------------------------------
  // What the prepared frame holds (lines 25-34)

  /** The columns kept: all of them unless some are excluded (an empty or
      absent exclusion list is falsy in Python and excludes nothing). */
  function KeptColumns(names: seq<string>, exclude: seq<string>): (r: seq<string>)
    ensures forall n :: n in r <==> n in names && n !in exclude
    ensures |exclude| == 0 ==> r == names
  {
    if |exclude| == 0 then names
    else
      WithoutMembers(names, exclude);
      Without(names, exclude)
  }

  function KeptDtypes(names: seq<string>, dtypes: seq<Dtype>, exclude: seq<string>): (r: seq<Dtype>)
    requires |dtypes| == |names|
    ensures |r| == |KeptColumns(names, exclude)|
  {
    if |exclude| == 0 then dtypes
    else
      var kept := Without(names, exclude);
      WithoutMembers(names, exclude);
      seq(|kept|, k requires 0 <= k < |kept| => dtypes[IndexOf(names, kept[k])])
  }

  function KeptRows(names: seq<string>, rows: seq<seq<Value>>, exclude: seq<string>): (r: seq<seq<Value>>)
    requires Aligned(|names|, rows)
    ensures |r| == |rows| && Aligned(|KeptColumns(names, exclude)|, r)
  {
    if |exclude| == 0 then rows
    else
      WithoutMembers(names, exclude);
      SelectRows(names, rows, Without(names, exclude))
  }

  /** `replace([np.inf, -np.inf], None)` on one cell. */
  function ReplaceInf(v: Value): (r: Value)
    ensures !r.PosInf? && !r.NegInf?
    ensures r == v || r == Null
    ensures !v.PosInf? && !v.NegInf? ==> r == v
  {
    if v.PosInf? || v.NegInf? then Null else v
  }

  /** `pd.to_datetime(v, errors='coerce')`: a missing or unreadable value
      becomes NaT, which is missing and is written here as `Null`. How text
      reads as a date is the oracle `parseDate`. */
  function ToDatetime(parseDate: Value -> Option<int>, v: Value): (r: Value)
    ensures r.Null? || r.Timestamp?
    ensures IsNa(v) ==> r.Null?
  {
    if IsNa(v) then Null
    else match parseDate(v)
      case None => Null
      case Some(t) => Timestamp(t)
  }

  function PreparedCell(name: string, v: Value, parseDate: Value -> Option<int>): Value
  {
    var c := NaToNull(ReplaceInf(v));
    if name == DateColumn then ToDatetime(parseDate, c) else c
  }

  /** The cells of the frame once cleaned and date-coerced. */
  function PreparedRows(kept: seq<string>, rows: seq<seq<Value>>, parseDate: Value -> Option<int>): (r: seq<seq<Value>>)
    requires Aligned(|kept|, rows)
    ensures |r| == |rows| && Aligned(|kept|, r)
  {
    seq(|rows|, i requires 0 <= i < |rows| =>
      seq(|kept|, k requires 0 <= k < |kept| => PreparedCell(kept[k], rows[i][k], parseDate)))
  }

  /** The dtypes once `date_modified` holds datetimes. */
  function PreparedDtypes(kept: seq<string>, dtypes: seq<Dtype>): (r: seq<Dtype>)
    requires |dtypes| == |kept|
    ensures |r| == |kept|
  {
    seq(|kept|, k requires 0 <= k < |kept| => if kept[k] == DateColumn then Datetime64 else dtypes[k])
  }

  // ---------------------------------------------------------------------
  // The inferred schema (lines 40-53)

  /** The column type chosen for a column of this name and dtype. */
  function SqlTypeFor(name: string, dtype: Dtype): (r: SqlType)
    ensures IsInferable(r)
    ensures r == DATETIME <==> name == DateColumn || dtype == Datetime64
  {
    if name == DateColumn then DATETIME
    else if dtype == Datetime64 then DATETIME
    else if dtype == Object then TEXT
    else if dtype == Float64 then FLOAT
    else if dtype == Int64 then INT
    else TEXT
  }

  function InferredSchema(names: seq<string>, dtypes: seq<Dtype>): (r: seq<ColumnDef>)
    requires |dtypes| == |names|
    ensures |r| == |names| && Names(r) == names
  {
    seq(|names|, k requires 0 <= k < |names| => ColumnDef(names[k], SqlTypeFor(names[k], dtypes[k])))
  }

  // ---------------------------------------------------------------------
  // What the table ends up holding (lines 59-67)

  /** The rows MySQL takes, in the order they were sent. */
  function Accepted(schema: seq<ColumnDef>, rows: seq<seq<Value>>,
                    rejects: (seq<ColumnDef>, seq<Value>) -> bool): (r: seq<seq<Value>>)
    ensures |r| <= |rows|
  {
    if |rows| == 0 then []
    else
      var last := rows[|rows| - 1];
      Accepted(schema, rows[..|rows| - 1], rejects) + (if rejects(schema, last) then [] else [last])
  }

  /** Column names the statements can carry: none holds a backtick. */
  predicate Quotable(names: seq<string>)
  {
    forall k :: 0 <= k < |names| ==> IsQuotable(names[k])
  }

  /** Column names that make a table: quotable, and accepted by MySQL. */
  predicate Loadable(names: seq<string>)
  {
    Quotable(names) && ValidColumnNames(names)
  }

  /** The table a load of this frame leaves behind. */
  function Loaded(names: seq<string>, dtypes: seq<Dtype>, rows: seq<seq<Value>>, exclude: seq<string>,
                  parseDate: Value -> Option<int>, rejects: (seq<ColumnDef>, seq<Value>) -> bool): (r: Table)
    requires |dtypes| == |names| && Aligned(|names|, rows)
    ensures Names(r.schema) == KeptColumns(names, exclude) && |r.rows| <= |rows|
  {
    var kept := KeptColumns(names, exclude);
    var schema := InferredSchema(kept, PreparedDtypes(kept, KeptDtypes(names, dtypes, exclude)));
    Table(schema, Accepted(schema, PreparedRows(kept, KeptRows(names, rows, exclude), parseDate), rejects))
  }

  // ---------------------------------------------------------------------
  // The loader

  /** Lines 25-34: selects the kept columns (a copy) or works on the
      caller's frame itself, replaces infinities in place, takes the
      `where` copy, and coerces `date_modified`. Without an exclusion list
      the caller's frame keeps the in-place replacement. */
  method Prepare(df: DataFrame, exclude: seq<string>, parseDate: Value -> Option<int>) returns (frame: DataFrame)
    requires df.Valid()
    modifies df
    ensures fresh(frame) && frame.Valid() && df.Valid()
    ensures frame.names == KeptColumns(old(df.names), exclude)
    ensures frame.dtypes == PreparedDtypes(frame.names, KeptDtypes(old(df.names), old(df.dtypes), exclude))
    ensures frame.rows == PreparedRows(frame.names, KeptRows(old(df.names), old(df.rows), exclude), parseDate)
    ensures df.names == old(df.names) && df.dtypes == old(df.dtypes)
    ensures df.rows == if |exclude| == 0 then MapRows(old(df.rows), ReplaceInf) else old(df.rows)
  {
    var view := df;
    if |exclude| > 0 {
      WithoutMembers(df.names, exclude);
      WithoutDistinct(df.names, exclude);
      view := df.Select(Without(df.names, exclude));
    }
    ghost var kept, keptRows := view.names, view.rows;
    assert kept == KeptColumns(old(df.names), exclude);
    assert keptRows == KeptRows(old(df.names), old(df.rows), exclude);
    assert view.dtypes == KeptDtypes(old(df.names), old(df.dtypes), exclude);
    view.Replace(ReplaceInf);
    frame := view.Where(NaToNull);
    ghost var cleaned, cleanedTypes := frame.rows, frame.dtypes;
    if DateColumn in frame.names {
      var column := frame.Column(DateColumn);
      var coerced := seq(|column|, i requires 0 <= i < |column| => ToDatetime(parseDate, column[i]));
      frame.SetColumn(DateColumn, Datetime64, coerced);
    }
    PreparedRowsSteps(kept, keptRows, cleaned, frame.rows, parseDate);
    PreparedDtypesSteps(kept, cleanedTypes, frame.dtypes);
  }

  /** Lines 40-53: one `` `name` TYPE `` text per column, in column order. */
  method ColumnDefinitions(names: seq<string>, dtypes: seq<Dtype>) returns (columns: seq<string>)
    requires |dtypes| == |names|
    ensures |columns| == |names|
    ensures forall k :: 0 <= k < |names| ==> columns[k] == ColumnText(InferredSchema(names, dtypes)[k])
  {
    columns := [];
    for k := 0 to |names|
      invariant |columns| == k
      invariant forall m :: 0 <= m < k ==> columns[m] == ColumnText(ColumnDef(names[m], SqlTypeFor(names[m], dtypes[m])))
    {
      columns := columns + [ColumnText(ColumnDef(names[k], SqlTypeFor(names[k], dtypes[k])))];
    }
  }

  /** Lines 59-66: one INSERT per row, each missing value sent as NULL; a
      refused row is reported and skipped, and nothing is committed yet.
      When the table has exactly these columns, it gains the rows MySQL
      takes, in order; in any case no other table changes. */
  method InsertRows(db: Connection, table: string, names: seq<string>, rows: seq<seq<Value>>)
    requires db.Valid() && IsIdent(table) && Aligned(|names|, rows)
    modifies db
    ensures db.Valid() && db.durable == old(db.durable)
    ensures db.tables - {table} == old(db.tables) - {table}
    ensures table in old(db.tables) && Names(old(db.tables)[table].schema) == names
            && (forall k :: 0 <= k < |names| ==> '`' !in names[k]) ==>
      var t := old(db.tables)[table];
      db.tables == old(db.tables)[table := Table(t.schema, t.rows + Accepted(t.schema, MapRows(rows, NaToNull), db.rejects))]
  {
    ghost var matches := table in db.tables && Names(db.tables[table].schema) == names
                         && (forall k :: 0 <= k < |names| ==> '`' !in names[k]);
    ghost var sent := MapRows(rows, NaToNull);
    ghost var start := db.tables;
    if matches {
      assert sent[..0] == [];
      assert start[table].rows + [] == start[table].rows;
    }
    var columnList := ColumnList(names);
    var i := 0;
    while i < |rows|
      invariant 0 <= i <= |rows|
      invariant db.Valid() && db.durable == old(db.durable)
      invariant db.tables - {table} == start - {table}
      invariant matches ==>
        db.tables == start[table := Table(start[table].schema, start[table].rows + Accepted(start[table].schema, sent[..i], db.rejects))]
    {
      var row := rows[i];
      var values := seq(|row|, k requires 0 <= k < |row| => NaToNull(row[k]));
      assert values == sent[i];
      ghost var current := db.tables;
      InsertRow(db, table, names, columnList, values);
      if matches {
        InsertRowsStep(start, current, db.tables, table, sent, i, db.rejects);
      }
      i := i + 1;
    }
    assert sent[..|rows|] == sent;
  }

  /** Lines 62-66 for one row: the INSERT is sent and an error is caught
      (and reported); nothing is committed. */
  method InsertRow(db: Connection, table: string, names: seq<string>, columnList: string, values: seq<Value>)
    requires db.Valid() && IsIdent(table) && columnList == ColumnList(names)
    modifies db
    ensures db.Valid() && db.durable == old(db.durable)
    ensures db.tables - {table} == old(db.tables) - {table}
    ensures table in old(db.tables) && Names(old(db.tables)[table].schema) == names && |values| == |names|
            && (forall k :: 0 <= k < |names| ==> '`' !in names[k]) ==>
      db.tables == if db.rejects(old(db.tables)[table].schema, values) then old(db.tables)
                   else old(db.tables)[table := Table(old(db.tables)[table].schema, old(db.tables)[table].rows + [values])]
  {
    InsertOutcome(db.tables, table, names, values, db.rejects);
    var _ := db.ExecuteSql(InsertSql(table, columnList, |values|), values);
  }

  /** What one INSERT statement of `InsertRows` does: it touches no other
      table, and when the table has exactly these columns it appends the
      row unless MySQL refuses it. */
  lemma InsertOutcome(tables: map<string, Table>, table: string, names: seq<string>, values: seq<Value>,
                      rejects: (seq<ColumnDef>, seq<Value>) -> bool)
    requires IsIdent(table)
    ensures Parse(InsertSql(table, ColumnList(names), |values|)).None?
         || (&& Parse(InsertSql(table, ColumnList(names), |values|)).value.Insert?
             && (|| Apply(tables, Parse(InsertSql(table, ColumnList(names), |values|)).value, values, rejects).None?
                 || Apply(tables, Parse(InsertSql(table, ColumnList(names), |values|)).value, values, rejects).value - {table}
                    == tables - {table}))
    ensures table in tables && Names(tables[table].schema) == names && |values| == |names|
            && (forall k :: 0 <= k < |names| ==> '`' !in names[k]) ==>
      && Parse(InsertSql(table, ColumnList(names), |values|)) == Some(Insert(table, names, |values|))
      && Apply(tables, Insert(table, names, |values|), values, rejects)
         == if rejects(tables[table].schema, values) then None
            else Some(tables[table := Table(tables[table].schema, tables[table].rows + [values])])
  {
    var p := Parse(InsertSql(table, ColumnList(names), |values|));
    InsertSqlTable(table, ColumnList(names), |values|);
    if p.Some? {
      InsertTouchesOnlyTable(tables, p.value, values, rejects);
    }
    if forall k :: 0 <= k < |names| ==> '`' !in names[k] {
      ParseInsertSql(table, names, |values|);
    }
  }

  lemma InsertTouchesOnlyTable(tables: map<string, Table>, stmt: Stmt, values: seq<Value>,
                               rejects: (seq<ColumnDef>, seq<Value>) -> bool)
    requires stmt.Insert?
    ensures Apply(tables, stmt, values, rejects).None?
         || Apply(tables, stmt, values, rejects).value - {stmt.table} == tables - {stmt.table}
  {
    var t := stmt.table;
    if Accepts(tables, t, stmt.columns, stmt.placeholders, values, rejects) {
      assert tables[t := Table(tables[t].schema, tables[t].rows + [values])] - {t} == tables - {t};
    }
  }

  /** Lines 37-56: drops the table, then creates it again with the
      inferred schema. Both statements commit implicitly. `ok` is false
      where the source raises: a table name MySQL cannot read (nothing
      happens), or a CREATE MySQL refuses (no columns) after the drop. */
  method RecreateTable(db: Connection, table: string, names: seq<string>, dtypes: seq<Dtype>) returns (ok: bool)
    requires db.Valid() && Distinct(names) && |dtypes| == |names|
    modifies db
    ensures db.Valid()
    ensures ok ==> IsIdent(table) && table in db.tables
    ensures !IsIdent(table) ==> !ok && db.tables == old(db.tables) && db.durable == old(db.durable)
    ensures IsIdent(table) ==> db.durable == db.tables && db.tables - {table} == old(db.tables) - {table}
    ensures IsIdent(table) && Quotable(names) && !ValidColumnNames(names) ==>
      !ok && db.tables == old(db.tables) - {table}
    ensures IsIdent(table) && Loadable(names) ==>
      ok && db.tables == old(db.tables)[table := Table(InferredSchema(names, dtypes), [])]
  {
    ok := DropTable(db, table);
    if !ok {
      return;
    }
    var columns := ColumnDefinitions(names, dtypes);
    ok := CreateEmptyTable(db, table, columns, names, dtypes);
  }

  /** The CREATE statement of `RecreateTable`, sent once the table is gone:
      it creates the table empty with the inferred schema, and fails when
      the frame has no columns; DDL commits either way. */
  method CreateEmptyTable(db: Connection, table: string, columns: seq<string>, names: seq<string>, dtypes: seq<Dtype>)
    returns (ok: bool)
    requires db.Valid() && db.durable == db.tables
    requires IsIdent(table) && table !in db.tables && Distinct(names) && |dtypes| == |names|
    requires |columns| == |names|
    requires forall k :: 0 <= k < |names| ==> columns[k] == ColumnText(InferredSchema(names, dtypes)[k])
    modifies db
    ensures db.Valid() && db.durable == db.tables
    ensures ok ==> table in db.tables
    ensures db.tables - {table} == old(db.tables) - {table}
    ensures Quotable(names) && !ValidColumnNames(names) ==> !ok && db.tables == old(db.tables)
    ensures Loadable(names) ==> ok && db.tables == old(db.tables)[table := Table(InferredSchema(names, dtypes), [])]
  {
    CreateOutcome(db.tables, table, columns, names, dtypes, db.rejects);
    ok := db.ExecuteSql(CreateSql(table, columns), []);
  }

  /** The DROP statement of `RecreateTable`: it removes the table, if there
      is one, and commits; a name MySQL cannot read is a syntax error that
      changes nothing. */
  method DropTable(db: Connection, table: string) returns (ok: bool)
    requires db.Valid()
    modifies db
    ensures db.Valid() && ok == IsIdent(table)
    ensures !ok ==> db.tables == old(db.tables) && db.durable == old(db.durable)
    ensures ok ==> db.tables == old(db.tables) - {table} && db.durable == db.tables
  {
    if IsIdent(table) {
      ParseDropSql(table);
    } else {
      ParseDropSqlRejects(table);
    }
    ok := db.ExecuteSql(DropSql(table), []);
  }

  /** What the CREATE statement of `RecreateTable` does to tables that no
      longer hold the table. */
  lemma CreateOutcome(tables: map<string, Table>, table: string, columns: seq<string>, names: seq<string>,
                      dtypes: seq<Dtype>, rejects: (seq<ColumnDef>, seq<Value>) -> bool)
    requires IsIdent(table) && table !in tables && Distinct(names) && |dtypes| == |names|
    requires |columns| == |names|
    requires forall k :: 0 <= k < |names| ==> columns[k] == ColumnText(InferredSchema(names, dtypes)[k])
    ensures Parse(CreateSql(table, columns)).None?
         || (&& Parse(CreateSql(table, columns)).value.CreateTable?
             && Parse(CreateSql(table, columns)).value.table == table
             && (|| Apply(tables, Parse(CreateSql(table, columns)).value, [], rejects).None?
                 || Apply(tables, Parse(CreateSql(table, columns)).value, [], rejects).value - {table} == tables - {table}))
    ensures Quotable(names) && !ValidColumnNames(names) ==>
      Parse(CreateSql(table, columns)).Some? && Apply(tables, Parse(CreateSql(table, columns)).value, [], rejects).None?
    ensures Loadable(names) ==>
      && Parse(CreateSql(table, columns)).Some?
      && Apply(tables, Parse(CreateSql(table, columns)).value, [], rejects) == Some(tables[table := Table(InferredSchema(names, dtypes), [])])
  {
    var p := Parse(CreateSql(table, columns));
    CreateSqlTable(table, columns);
    if p.Some? {
      CreateTouchesOnlyTable(tables, p.value, rejects);
    }
    if Quotable(names) {
      var schema := InferredSchema(names, dtypes);
      CreateParsed(table, columns, names, dtypes);
      CreateFresh(tables, table, schema, rejects);
      assert Names(schema) == names;
    }
  }

  /** The CREATE statement of a frame whose columns are all quotable reads
      back as the inferred schema, whether MySQL then accepts it or not. */
  lemma CreateParsed(table: string, columns: seq<string>, names: seq<string>, dtypes: seq<Dtype>)
    requires IsIdent(table) && |dtypes| == |names| && |columns| == |names|
    requires forall k :: 0 <= k < |names| ==> columns[k] == ColumnText(InferredSchema(names, dtypes)[k])
    requires Quotable(names)
    ensures Parse(CreateSql(table, columns)) == Some(CreateTable(table, true, InferredSchema(names, dtypes)))
  {
    var schema := InferredSchema(names, dtypes);
    forall k | 0 <= k < |schema|
      ensures '`' !in schema[k].name && IsInferable(schema[k].sqlType)
    {
      assert schema[k] == ColumnDef(names[k], SqlTypeFor(names[k], dtypes[k]));
      assert IsQuotable(names[k]);
    }
    ParseCreateSql(table, columns, schema);
  }

  lemma CreateTouchesOnlyTable(tables: map<string, Table>, stmt: Stmt, rejects: (seq<ColumnDef>, seq<Value>) -> bool)
    requires stmt.CreateTable?
    ensures Apply(tables, stmt, [], rejects).None? || Apply(tables, stmt, [], rejects).value - {stmt.table} == tables - {stmt.table}
  {
    if stmt.table !in tables && IsValidSchema(stmt.schema) {
      assert tables[stmt.table := Table(stmt.schema, [])] - {stmt.table} == tables - {stmt.table};
    }
  }

  lemma CreateFresh(tables: map<string, Table>, table: string, schema: seq<ColumnDef>,
                    rejects: (seq<ColumnDef>, seq<Value>) -> bool)
    requires table !in tables
    ensures Apply(tables, CreateTable(table, true, schema), [], rejects)
         == if IsValidSchema(schema) then Some(tables[table := Table(schema, [])]) else None
  {
  }

  /** The whole of `create_and_insert_table`. `ok` is false where the
      function raises: a table name MySQL cannot read leaves everything as it
      was, and a frame with no columns left drops the table and fails to
      recreate it. Otherwise the table is recreated with the inferred schema
      and holds the prepared rows MySQL takes, in frame order, all committed;
      no other table is touched. */
  method CreateAndInsertTable(db: Connection, df: DataFrame, table: string, exclude: seq<string>,
                              parseDate: Value -> Option<int>) returns (ok: bool)
    requires db.Valid() && df.Valid()
    modifies db, df
    ensures db.Valid() && df.Valid()
    ensures df.names == old(df.names) && df.dtypes == old(df.dtypes)
    ensures df.rows == if |exclude| == 0 then MapRows(old(df.rows), ReplaceInf) else old(df.rows)
    ensures !IsIdent(table) ==> !ok && db.tables == old(db.tables) && db.durable == old(db.durable)
    ensures IsIdent(table) ==> db.durable == db.tables && db.tables - {table} == old(db.tables) - {table}
    ensures IsIdent(table) && Quotable(KeptColumns(old(df.names), exclude))
                           && !ValidColumnNames(KeptColumns(old(df.names), exclude)) ==>
      !ok && db.tables == old(db.tables) - {table}
    ensures IsIdent(table) && Loadable(KeptColumns(old(df.names), exclude)) ==>
      ok && db.tables == old(db.tables)[table := Loaded(old(df.names), old(df.dtypes), old(df.rows), exclude, parseDate, db.rejects)]
  {
    var frame := Prepare(df, exclude, parseDate);
    ghost var keptRows := KeptRows(old(df.names), old(df.rows), exclude);
    ok := RecreateTable(db, table, frame.names, frame.dtypes);
    if !ok {
      return;
    }
    ghost var created := db.tables;
    InsertRows(db, table, frame.names, frame.rows);
    PreparedRowsAreSent(frame.names, keptRows, parseDate);
    db.Commit();
    if Loadable(frame.names) {
      LoadedSteps(old(df.names), old(df.dtypes), old(df.rows), exclude, parseDate, db.rejects,
                  frame.names, frame.dtypes, frame.rows, old(db.tables), created, db.tables, table);
    }
  }

  // ---------------------------------------------------------------------
  // Proof steps

  lemma LoadedSteps(names: seq<string>, dtypes: seq<Dtype>, rows: seq<seq<Value>>, exclude: seq<string>,
                    parseDate: Value -> Option<int>, rejects: (seq<ColumnDef>, seq<Value>) -> bool,
                    kept: seq<string>, keptTypes: seq<Dtype>, prepared: seq<seq<Value>>,
                    before: map<string, Table>, created: map<string, Table>, after: map<string, Table>, table: string)
    requires |dtypes| == |names| && Aligned(|names|, rows)
    requires kept == KeptColumns(names, exclude)
    requires keptTypes == PreparedDtypes(kept, KeptDtypes(names, dtypes, exclude))
    requires prepared == PreparedRows(kept, KeptRows(names, rows, exclude), parseDate)
    requires MapRows(prepared, NaToNull) == prepared
    requires created == before[table := Table(InferredSchema(kept, keptTypes), [])]
    requires after == created[table := Table(created[table].schema, created[table].rows
                                              + Accepted(created[table].schema, MapRows(prepared, NaToNull), rejects))]
    ensures after == before[table := Loaded(names, dtypes, rows, exclude, parseDate, rejects)]
  {
    var schema := InferredSchema(kept, keptTypes);
    assert created[table] == Table(schema, []);
    assert [] + Accepted(schema, prepared, rejects) == Accepted(schema, prepared, rejects);
  }

  /** One row once `date_modified`, if present, has been coerced. */
  predicate DateCoerced(kept: seq<string>, cleaned: seq<Value>, final: seq<Value>, parseDate: Value -> Option<int>)
    requires |cleaned| == |kept|
  {
    if DateColumn in kept then
      var j := IndexOf(kept, DateColumn);
      final == cleaned[j := ToDatetime(parseDate, cleaned[j])]
    else final == cleaned
  }

  lemma PreparedRowsSteps(kept: seq<string>, rows: seq<seq<Value>>, cleaned: seq<seq<Value>>,
                          final: seq<seq<Value>>, parseDate: Value -> Option<int>)
    requires Distinct(kept) && Aligned(|kept|, rows)
    requires cleaned == MapRows(MapRows(rows, ReplaceInf), NaToNull)
    requires |final| == |rows|
    requires forall i :: 0 <= i < |rows| ==> DateCoerced(kept, cleaned[i], final[i], parseDate)
    ensures final == PreparedRows(kept, rows, parseDate)
  {
    var prepared := PreparedRows(kept, rows, parseDate);
    forall i | 0 <= i < |rows|
      ensures final[i] == prepared[i]
    {
      PreparedRowStep(kept, rows[i], cleaned[i], final[i], parseDate);
    }
  }

  lemma PreparedRowStep(kept: seq<string>, row: seq<Value>, cleaned: seq<Value>,
                        final: seq<Value>, parseDate: Value -> Option<int>)
    requires Distinct(kept) && |row| == |kept|
    requires |cleaned| == |row| && forall k :: 0 <= k < |row| ==> cleaned[k] == NaToNull(ReplaceInf(row[k]))
    requires DateCoerced(kept, cleaned, final, parseDate)
    ensures final == seq(|kept|, k requires 0 <= k < |kept| => PreparedCell(kept[k], row[k], parseDate))
  {
    forall k | 0 <= k < |kept|
      ensures final[k] == PreparedCell(kept[k], row[k], parseDate)
    {
      if DateColumn in kept && k != IndexOf(kept, DateColumn) {
        assert kept[k] != DateColumn;
      }
    }
  }

  lemma PreparedDtypesSteps(kept: seq<string>, cleaned: seq<Dtype>, final: seq<Dtype>)
    requires Distinct(kept) && |cleaned| == |kept|
    requires DateColumn !in kept ==> final == cleaned
    requires DateColumn in kept ==> final == cleaned[IndexOf(kept, DateColumn) := Datetime64]
    ensures final == PreparedDtypes(kept, cleaned)
  {
    forall k | 0 <= k < |kept|
      ensures final[k] == PreparedDtypes(kept, cleaned)[k]
    {
      if DateColumn in kept && k != IndexOf(kept, DateColumn) {
        assert kept[k] != DateColumn;
      }
    }
  }

  /** No prepared cell is missing-as-NaN, so the per-row `None if pd.isna`
      rewrite sends the prepared rows unchanged. */
  lemma PreparedRowsAreSent(kept: seq<string>, rows: seq<seq<Value>>, parseDate: Value -> Option<int>)
    requires Aligned(|kept|, rows)
    ensures MapRows(PreparedRows(kept, rows, parseDate), NaToNull) == PreparedRows(kept, rows, parseDate)
  {
    var prepared := PreparedRows(kept, rows, parseDate);
    var sent := MapRows(prepared, NaToNull);
    forall i | 0 <= i < |rows|
      ensures sent[i] == prepared[i]
    {
      assert forall k :: 0 <= k < |kept| ==> sent[i][k] == prepared[i][k];
    }
  }

  // ---------------------------------------------------------------------
  // Properties

  /** Every prepared cell is storable: none is NaN or an infinity. Outside
      `date_modified` a finite value is kept as it was and a non-finite one
      becomes NULL; in `date_modified` every cell is a timestamp or NULL. */
  lemma PreparedCells(kept: seq<string>, rows: seq<seq<Value>>, parseDate: Value -> Option<int>, i: nat, k: nat)
    requires Aligned(|kept|, rows) && i < |rows| && k < |kept|
    ensures !IsNonFinite(PreparedRows(kept, rows, parseDate)[i][k])
    ensures kept[k] != DateColumn ==>
      PreparedRows(kept, rows, parseDate)[i][k] == (if IsNonFinite(rows[i][k]) then Null else rows[i][k])
    ensures kept[k] == DateColumn ==>
      PreparedRows(kept, rows, parseDate)[i][k].Null? || PreparedRows(kept, rows, parseDate)[i][k].Timestamp?
  {
  }

  /** The inference never produces VARCHAR, and a column is DATETIME exactly
      when it is `date_modified` or holds datetimes, FLOAT exactly when it
      is another float64 column, INT exactly when it is another int64
      column, and TEXT otherwise. */
  lemma InferredTypes(names: seq<string>, dtypes: seq<Dtype>, k: nat)
    requires |dtypes| == |names| && k < |names|
    ensures IsInferable(InferredSchema(names, dtypes)[k].sqlType)
    ensures InferredSchema(names, dtypes)[k].sqlType == DATETIME <==> names[k] == DateColumn || dtypes[k] == Datetime64
    ensures InferredSchema(names, dtypes)[k].sqlType == FLOAT <==> names[k] != DateColumn && dtypes[k] == Float64
    ensures InferredSchema(names, dtypes)[k].sqlType == INT <==> names[k] != DateColumn && dtypes[k] == Int64
    ensures InferredSchema(names, dtypes)[k].sqlType == TEXT <==>
      names[k] != DateColumn && (dtypes[k] == Object || dtypes[k] == Other)
  {
  }

  /** In the loaded table `date_modified` is a DATETIME column and holds only
      timestamps and NULLs. */
  lemma LoadedDateColumn(names: seq<string>, dtypes: seq<Dtype>, rows: seq<seq<Value>>, exclude: seq<string>,
                         parseDate: Value -> Option<int>, rejects: (seq<ColumnDef>, seq<Value>) -> bool, k: nat)
    requires |dtypes| == |names| && Aligned(|names|, rows)
    requires k < |KeptColumns(names, exclude)| && KeptColumns(names, exclude)[k] == DateColumn
    ensures Loaded(names, dtypes, rows, exclude, parseDate, rejects).schema[k].sqlType == DATETIME
    ensures forall r: seq<Value> :: r in Loaded(names, dtypes, rows, exclude, parseDate, rejects).rows ==>
      k < |r| && (r[k].Null? || r[k].Timestamp?)
  {
    var kept := KeptColumns(names, exclude);
    var prepared := PreparedRows(kept, KeptRows(names, rows, exclude), parseDate);
    var schema := Loaded(names, dtypes, rows, exclude, parseDate, rejects).schema;
    AcceptedMembers(schema, prepared, rejects);
    forall r: seq<Value> | r in prepared
      ensures k < |r| && (r[k].Null? || r[k].Timestamp?)
    {
      var i :| 0 <= i < |prepared| && prepared[i] == r;
      PreparedCells(kept, KeptRows(names, rows, exclude), parseDate, i, k);
    }
  }

  /** Sending one more row extends the stored rows by that row, unless
      MySQL refuses it. */
  /** One pass of the loop of `InsertRows`: the row is appended to what
      the earlier rows left, unless MySQL refuses it. */
  lemma InsertRowsStep(start: map<string, Table>, current: map<string, Table>, next: map<string, Table>,
                       table: string, sent: seq<seq<Value>>, i: nat, rejects: (seq<ColumnDef>, seq<Value>) -> bool)
    requires table in start && i < |sent|
    requires current == start[table := Table(start[table].schema,
                                             start[table].rows + Accepted(start[table].schema, sent[..i], rejects))]
    requires next == if rejects(current[table].schema, sent[i]) then current
                     else current[table := Table(current[table].schema, current[table].rows + [sent[i]])]
    ensures next == start[table := Table(start[table].schema,
                                         start[table].rows + Accepted(start[table].schema, sent[..i + 1], rejects))]
  {
    var schema, stored := start[table].schema, start[table].rows;
    AcceptedStep(schema, sent, i, rejects);
    var after := Table(schema, stored + Accepted(schema, sent[..i + 1], rejects));
    if rejects(schema, sent[i]) {
      assert after == current[table];
    } else {
      assert after == Table(schema, current[table].rows + [sent[i]]);
      assert current[table := after] == start[table := after];
    }
  }

  lemma AcceptedStep(schema: seq<ColumnDef>, rows: seq<seq<Value>>, i: nat,
                     rejects: (seq<ColumnDef>, seq<Value>) -> bool)
    requires i < |rows|
    ensures Accepted(schema, rows[..i + 1], rejects)
         == Accepted(schema, rows[..i], rejects) + (if rejects(schema, rows[i]) then [] else [rows[i]])
  {
    assert rows[..i + 1][..i] == rows[..i];
  }

  /** A row is stored exactly when it was sent and MySQL takes it. */
  lemma {:induction false} AcceptedMembers(schema: seq<ColumnDef>, rows: seq<seq<Value>>,
                                           rejects: (seq<ColumnDef>, seq<Value>) -> bool)
    ensures forall r :: r in Accepted(schema, rows, rejects) <==> r in rows && !rejects(schema, r)
  {
    if |rows| > 0 {
      var init := rows[..|rows| - 1];
      AcceptedMembers(schema, init, rejects);
      assert rows == init + [rows[|rows| - 1]];
    }
  }

  /** When MySQL refuses nothing, every row is stored, in order. */
  lemma {:induction false} AcceptedAll(schema: seq<ColumnDef>, rows: seq<seq<Value>>,
                                       rejects: (seq<ColumnDef>, seq<Value>) -> bool)
    requires forall i :: 0 <= i < |rows| ==> !rejects(schema, rows[i])
    ensures Accepted(schema, rows, rejects) == rows
  {
    if |rows| > 0 {
      AcceptedAll(schema, rows[..|rows| - 1], rejects);
      assert rows == rows[..|rows| - 1] + [rows[|rows| - 1]];
    }
  }

  /** Stored rows keep the order they had in the frame: the result is the
      frame's rows with the refused ones taken out, so a row refused at the
      end changes nothing before it, and refusals never reorder. */
  lemma {:induction false} AcceptedSplits(schema: seq<ColumnDef>, a: seq<seq<Value>>, b: seq<seq<Value>>,
                                          rejects: (seq<ColumnDef>, seq<Value>) -> bool)
    ensures Accepted(schema, a + b, rejects) == Accepted(schema, a, rejects) + Accepted(schema, b, rejects)
    decreases |b|
  {
    if |b| > 0 {
      var init := b[..|b| - 1];
      AcceptedSplits(schema, a, init, rejects);
      assert (a + b)[..|a + b| - 1] == a + init;
      assert (a + b)[|a + b| - 1] == b[|b| - 1];
    } else {
      assert a + b == a;
    }
  }
}
