/** The MySQL database the scripts talk to, reduced to what they rely on:
    named tables with a schema and rows, statements that create, drop and
    fill them, and transactions. `tables` is what the session sees, including
    inserts not yet committed; `durable` is what has been committed. As in
    MySQL, a DROP or CREATE commits implicitly, so only inserts can be
    pending. Which rows MySQL refuses (type coercion, encoding) is an oracle,
    `rejects`, fixed for the life of the connection. */
module Database {
  import opened Values
  import opened Sql
  import Frames

  datatype Table = Table(schema: seq<ColumnDef>, rows: seq<seq<Value>>)

  /** MySQL compares column names without regard to letter case. */
  function FoldCase(c: char): char
  {
    if 'A' <= c <= 'Z' then (c as int - 'A' as int + 'a' as int) as char else c
  }

  function Folded(name: string): seq<char>
  {
    if |name| == 0 then [] else [FoldCase(name[0])] + Folded(name[1..])
  }

  /** Names that fold the same character by character fold the same. */
  lemma {:induction false} FoldedAlike(a: string, b: string)
    requires |a| == |b| && forall i :: 0 <= i < |a| ==> FoldCase(a[i]) == FoldCase(b[i])
    ensures Folded(a) == Folded(b)
  {
    if |a| > 0 {
      FoldedAlike(a[1..], b[1..]);
    }
  }

  /** A name without capital letters is its own folding. */
  lemma {:induction false} FoldedLower(name: string)
    requires IsLower(name)
    ensures Folded(name) == name
  {
    if |name| > 0 {
      FoldedLower(name[1..]);
      assert name == [name[0]] + name[1..];
    }
  }

  /** The column names MySQL accepts in a CREATE TABLE: at least one, each
      of 1 to 64 characters, and no two that are equal ignoring letter case. */
  predicate ValidColumnNames(names: seq<string>)
  {
    && |names| > 0
    && (forall k :: 0 <= k < |names| ==> 0 < |names[k]| <= MaxNameLength)
    && NoCaseClash(names)
  }

  /** No name equals a later one ignoring letter case. */
  predicate NoCaseClash(names: seq<string>)
  {
    |names| == 0 || ((forall j :: 1 <= j < |names| ==> Folded(names[0]) != Folded(names[j])) && NoCaseClash(names[1..]))
  }

  /** MySQL refuses a table whose column names it does not accept. */
  predicate IsValidSchema(schema: seq<ColumnDef>)
  {
    ValidColumnNames(Names(schema))
  }

  /** Names MySQL accepts are in particular distinct. */
  lemma ValidNamesDistinct(names: seq<string>)
    requires ValidColumnNames(names)
    ensures Distinct(names)
  {
    NoClashDistinct(names);
  }

  lemma {:induction false} NoClashDistinct(names: seq<string>)
    requires NoCaseClash(names)
    ensures Distinct(names)
  {
    if |names| > 0 {
      NoClashDistinct(names[1..]);
      forall i, j | 0 <= i < j < |names|
        ensures names[i] != names[j]
      {
        if i > 0 {
          assert names[i] == names[1..][i - 1] && names[j] == names[1..][j - 1];
        }
      }
    }
  }

  /** Two names that differ only in letter case clash: MySQL refuses the
      pair. */
  lemma CaseClash(a: string, b: string)
    requires |a| == |b| && 0 < |a| <= MaxNameLength
    requires forall i :: 0 <= i < |a| ==> FoldCase(a[i]) == FoldCase(b[i])
    ensures !ValidColumnNames([a, b])
  {
    var names := [a, b];
    assert names[0] == a && names[1] == b;
    FoldedAlike(a, b);
  }

  /** Distinct names without capital letters, each of 1 to 64 characters,
      are accepted. */
  lemma LowerNamesValid(names: seq<string>)
    requires |names| > 0 && Distinct(names)
    requires forall n :: n in names ==> 0 < |n| <= MaxNameLength && IsLower(n)
    ensures ValidColumnNames(names)
  {
    forall k | 0 <= k < |names|
      ensures 0 < |names[k]| <= MaxNameLength
    {
      assert names[k] in names;
    }
    LowerNoClash(names);
  }

  lemma {:induction false} LowerNoClash(names: seq<string>)
    requires Distinct(names) && forall n :: n in names ==> IsLower(n)
    ensures NoCaseClash(names)
  {
    if |names| > 0 {
      assert names[0] in names;
      FoldedLower(names[0]);
      forall j | 1 <= j < |names|
        ensures Folded(names[0]) != Folded(names[j])
      {
        assert names[j] in names;
        FoldedLower(names[j]);
      }
      assert forall n :: n in names[1..] ==> n in names;
      LowerNoClash(names[1..]);
    }
  }

  /** No capital letter: a code point outside 'A'..'Z'. */
  predicate IsLower(name: string)
  {
    forall i :: 0 <= i < |name| ==> name[i] as int < 'A' as int || name[i] as int > 'Z' as int
  }

  /** Every stored table has a valid schema and rows as wide as it. */
  predicate WellFormed(tables: map<string, Table>)
  {
    forall t :: t in tables ==>
      IsValidSchema(tables[t].schema) && Frames.Aligned(|tables[t].schema|, tables[t].rows)
  }

  /** Whether one INSERT with these parameters goes through: the table
      exists, the statement lists all its columns in order with one value
      each, the connector has one parameter per placeholder, and MySQL takes
      the row. */
  predicate Accepts(tables: map<string, Table>, table: string, columns: seq<string>, n: nat,
                    params: seq<Value>, rejects: (seq<ColumnDef>, seq<Value>) -> bool)
  {
    && table in tables
    && columns == Names(tables[table].schema)
    && n == |columns|
    && |params| == n
    && !rejects(tables[table].schema, params)
  }

  /** The tables after executing `stmt` with `params`; `None` when MySQL (or
      the connector, for a wrong parameter count) raises an error, in which
      case the statement has no effect. */
  function Apply(tables: map<string, Table>, stmt: Stmt, params: seq<Value>,
                 rejects: (seq<ColumnDef>, seq<Value>) -> bool): (r: Option<map<string, Table>>)
  {
    match stmt
    case DropIfExists(t) =>
      if |params| > 0 then None else Some(tables - {t})
    case CreateTable(t, ifNotExists, schema) =>
      if |params| > 0 then None
      else if t in tables then (if ifNotExists then Some(tables) else None)
      else if !IsValidSchema(schema) then None
      else Some(tables[t := Table(schema, [])])
    case Insert(t, columns, n) =>
      if !Accepts(tables, t, columns, n, params, rejects) then None
      else Some(tables[t := Table(tables[t].schema, tables[t].rows + [params])])
  }

  /** `executemany` of an INSERT: the connector sends all rows as one
      multi-row statement, which fails as a whole if any row is refused; with
      no rows it sends nothing. */
  function ApplyMany(tables: map<string, Table>, stmt: Stmt, rows: seq<seq<Value>>,
                     rejects: (seq<ColumnDef>, seq<Value>) -> bool): (r: Option<map<string, Table>>)
    requires stmt.Insert?
  {
    if |rows| == 0 then Some(tables)
    else if stmt.table in tables
         && forall i :: 0 <= i < |rows| ==> Accepts(tables, stmt.table, stmt.columns, stmt.placeholders, rows[i], rejects)
    then Some(tables[stmt.table := Table(tables[stmt.table].schema, tables[stmt.table].rows + rows)])
    else None
  }

  class Connection {
    var tables: map<string, Table>
    var durable: map<string, Table>
    const rejects: (seq<ColumnDef>, seq<Value>) -> bool

    ghost predicate Valid()
      reads this
    {
      WellFormed(tables) && WellFormed(durable)
    }

    /** An open connection to a database holding `tables`, nothing pending. */
    constructor (tables: map<string, Table>, rejects: (seq<ColumnDef>, seq<Value>) -> bool)
      requires WellFormed(tables)
      ensures Valid()
      ensures this.tables == tables && durable == tables && this.rejects == rejects
    {
      this.tables := tables;
      this.durable := tables;
      this.rejects := rejects;
    }

    /** `cursor.execute` of a statement; a DROP or CREATE commits implicitly. */
    method Execute(stmt: Stmt, params: seq<Value>) returns (ok: bool)
      requires Valid()
      modifies this
      ensures Valid()
      ensures ok == Apply(old(tables), stmt, params, rejects).Some?
      ensures tables == if ok then Apply(old(tables), stmt, params, rejects).value else old(tables)
      ensures durable == if stmt.Insert? then old(durable) else tables
    {
      var r := Apply(tables, stmt, params, rejects);
      ok := r.Some?;
      if ok {
        ApplyKeepsWellFormed(tables, stmt, params, rejects);
        tables := r.value;
      }
      if !stmt.Insert? {
        durable := tables;
      }
    }

    /** `cursor.execute(sql, params)` on statement text: MySQL reads the text
        first, and a text it cannot read raises an error and does nothing. */
    method ExecuteSql(sql: string, params: seq<Value>) returns (ok: bool)
      requires Valid()
      modifies this
      ensures Valid()
      ensures Parse(sql).None? ==> !ok && tables == old(tables) && durable == old(durable)
      ensures Parse(sql).Some? ==>
        var stmt := Parse(sql).value;
        && ok == Apply(old(tables), stmt, params, rejects).Some?
        && tables == (if ok then Apply(old(tables), stmt, params, rejects).value else old(tables))
        && durable == (if stmt.Insert? then old(durable) else tables)
    {
      match Parse(sql)
      case None =>
        ok := false;
      case Some(stmt) =>
        ok := Execute(stmt, params);
    }

    /** `cursor.executemany(insert, rows)`. */
    method ExecuteMany(stmt: Stmt, rows: seq<seq<Value>>) returns (ok: bool)
      requires Valid() && stmt.Insert?
      modifies this
      ensures Valid()
      ensures ok == ApplyMany(old(tables), stmt, rows, rejects).Some?
      ensures tables == if ok then ApplyMany(old(tables), stmt, rows, rejects).value else old(tables)
      ensures durable == old(durable)
    {
      var r := ApplyMany(tables, stmt, rows, rejects);
      ok := r.Some?;
      if ok {
        ApplyManyKeepsWellFormed(tables, stmt, rows, rejects);
        tables := r.value;
      }
    }

    /** `connection.commit()`: everything the session sees becomes durable. */
    method Commit()
      requires Valid()
      modifies this
      ensures Valid()
      ensures tables == old(tables) && durable == tables
    {
      durable := tables;
    }

    /** `cursor.execute("SELECT cols FROM table")` then `fetchall()`: fails
        when the table or one of the columns does not exist; otherwise every
        row, in stored order, with the named columns in the order asked. */
    method Select(table: string, cols: seq<string>) returns (ok: bool, rows: seq<seq<Value>>)
      requires Valid()
      ensures ok <==> table in tables && forall c :: c in cols ==> c in Names(tables[table].schema)
      ensures ok ==> rows == Frames.SelectRows(Names(tables[table].schema), tables[table].rows, cols)
      ensures ok ==> |rows| == |tables[table].rows| && Frames.Aligned(|cols|, rows)
      ensures !ok ==> rows == []
    {
      if table in tables && forall c :: c in cols ==> c in Names(tables[table].schema) {
        ok := true;
        rows := Frames.SelectRows(Names(tables[table].schema), tables[table].rows, cols);
      } else {
        ok := false;
        rows := [];
      }
    }
  }

  /** A successful statement keeps every table well formed. */
  lemma ApplyKeepsWellFormed(tables: map<string, Table>, stmt: Stmt, params: seq<Value>,
                             rejects: (seq<ColumnDef>, seq<Value>) -> bool)
    requires WellFormed(tables)
    requires Apply(tables, stmt, params, rejects).Some?
    ensures WellFormed(Apply(tables, stmt, params, rejects).value)
  {
    if stmt.Insert? {
      var t := stmt.table;
      assert |params| == |tables[t].schema|;
      AppendKeepsAligned(|tables[t].schema|, tables[t].rows, [params]);
    }
  }

  /** A successful batch keeps every table well formed. */
  lemma ApplyManyKeepsWellFormed(tables: map<string, Table>, stmt: Stmt, rows: seq<seq<Value>>,
                                 rejects: (seq<ColumnDef>, seq<Value>) -> bool)
    requires WellFormed(tables) && stmt.Insert?
    requires ApplyMany(tables, stmt, rows, rejects).Some?
    ensures WellFormed(ApplyMany(tables, stmt, rows, rejects).value)
  {
    if |rows| > 0 {
      var t := stmt.table;
      assert Frames.Aligned(|tables[t].schema|, rows) by {
        forall i | 0 <= i < |rows|
          ensures |rows[i]| == |tables[t].schema|
        {
          assert Accepts(tables, t, stmt.columns, stmt.placeholders, rows[i], rejects);
        }
      }
      AppendKeepsAligned(|tables[t].schema|, tables[t].rows, rows);
    }
  }

  lemma AppendKeepsAligned(width: nat, rows: seq<seq<Value>>, more: seq<seq<Value>>)
    requires Frames.Aligned(width, rows) && Frames.Aligned(width, more)
    ensures Frames.Aligned(width, rows + more)
  {
    forall i | 0 <= i < |rows + more|
      ensures |(rows + more)[i]| == width
    {
      if i < |rows| {
        assert (rows + more)[i] == rows[i];
      } else {
        assert (rows + more)[i] == more[i - |rows|];
      }
    }
  }
}
