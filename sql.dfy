/** The SQL statements the scripts send to MySQL: their structure (`Stmt`),
    the text the schema-inferring loader assembles for them, and a reader for
    exactly those shapes, which is how the store model learns what a text
    statement asks for. The round-trip lemmas at the end say that the text
    the loader builds names every column, in order, with its type, and has
    one `%s` placeholder per value. */
module Sql {
  import opened Values

  /** Column types of the destination tables. The loader's inference uses
      the first four; the hand-written schemas also use VARCHAR(n). */
  datatype SqlType = TEXT | FLOAT | INT | DATETIME | VARCHAR(size: nat)

  datatype ColumnDef = ColumnDef(name: string, sqlType: SqlType)

  /** The statements issued: `DROP TABLE IF EXISTS t`, `CREATE TABLE [IF NOT
      EXISTS] t (...)`, and a parameterised `INSERT INTO t (cols) VALUES
      (%s, ...)` with its number of placeholders. */
  datatype Stmt =
    | DropIfExists(table: string)
    | CreateTable(table: string, ifNotExists: bool, schema: seq<ColumnDef>)
    | Insert(table: string, columns: seq<string>, placeholders: nat)

  function Names(schema: seq<ColumnDef>): (r: seq<string>)
    ensures |r| == |schema| && forall k :: 0 <= k < |schema| ==> r[k] == schema[k].name
  {
    seq(|schema|, k requires 0 <= k < |schema| => schema[k].name)
  }

  predicate IsIdentChar(c: char)
  {
    'a' <= c <= 'z' || 'A' <= c <= 'Z' || '0' <= c <= '9' || c == '_'
  }

  /** MySQL's limit on the length of a table or column name. */
  const MaxNameLength: nat := 64

  /** A table name that may stand unquoted in a statement. */
  predicate IsIdent(s: string)
  {
    0 < |s| <= MaxNameLength && forall i :: 0 <= i < |s| ==> IsIdentChar(s[i])
  }

  /** A column name that backtick quoting keeps intact. */
  predicate IsQuotable(name: string)
  {
    '`' !in name
  }

  /** The four types the loader's inference produces. */
  predicate IsInferable(t: SqlType)
  {
    !t.VARCHAR?
  }

  function TypeName(t: SqlType): string
  {
    match t
    case TEXT => "TEXT"
    case FLOAT => "FLOAT"
    case INT => "INT"
    case DATETIME => "DATETIME"
    case VARCHAR(n) => "VARCHAR(" + IntText(n) + ")"
  }

  // ---------------------------------------------------------------------
  // Rendering (import_data.py lines 37, 41-56, 59 and 62)

  /** A backtick-quoted name followed by `suffix`. */
  function Item(name: string, suffix: string): string
  {
    "`" + name + "`" + suffix
  }

  function Quote(name: string): string
  {
    Item(name, "")
  }

  /** One column definition of the inferred schema: `` `name` TYPE ``. */
  function ColumnText(d: ColumnDef): string
  {
    Item(d.name, " " + TypeName(d.sqlType))
  }

  /** Python's `sep.join(parts)`. */
  function Join(parts: seq<string>, sep: string): string
  {
    if |parts| == 0 then ""
    else if |parts| == 1 then parts[0]
    else parts[0] + sep + Join(parts[1..], sep)
  }

  function Repeat(s: string, n: nat): (r: seq<string>)
    ensures |r| == n
  {
    if n == 0 then [] else [s] + Repeat(s, n - 1)
  }

  function DropSql(table: string): string
  {
    "DROP TABLE IF EXISTS " + table
  }

  function CreateSql(table: string, columns: seq<string>): string
  {
    "CREATE TABLE IF NOT EXISTS " + table + " (" + Join(columns, ", ") + ")"
  }

  /** The quoted, comma-joined column list of an INSERT. */
  function ColumnList(names: seq<string>): string
  {
    Join(seq(|names|, k requires 0 <= k < |names| => Quote(names[k])), ",")
  }

  function Placeholders(n: nat): string
  {
    Join(Repeat("%s", n), ", ")
  }

  function InsertSql(table: string, columnList: string, n: nat): string
  {
    "INSERT INTO " + table + " (" + columnList + ") VALUES (" + Placeholders(n) + ")"
  }

  // ---------------------------------------------------------------------
  // Reading statements back

  /** The rest of `s` after the prefix `p`, if `s` starts with it. */
  function Strip(s: string, p: string): (r: Option<string>)
    ensures r.Some? ==> |r.value| == |s| - |p|
  {
    if |p| <= |s| && s[..|p|] == p then Some(s[|p|..]) else None
  }

  /** Length of the longest prefix of `s` free of the characters in `stops`. */
  function Span(s: string, stops: set<char>): (r: nat)
    ensures r <= |s|
  {
    if |s| == 0 || s[0] in stops then 0 else 1 + Span(s[1..], stops)
  }

  /** Reads `` `name`suffix `` where the suffix runs up to the next `,` or `)`:
      the name, the suffix and what follows. */
  function ReadItem(s: string): (r: Option<(string, string, string)>)
    ensures r.Some? ==> |r.value.2| < |s|
  {
    match Strip(s, "`")
    case None => None
    case Some(body) =>
      var j := Span(body, {'`'});
      if j == |body| then None
      else
        var after := body[j + 1..];
        var k := Span(after, {',', ')'});
        Some((body[..j], after[..k], after[k..]))
  }

  /** Reads a `sep`-separated list of items, stopping before the first
      character that does not continue it. */
  function ReadItems(s: string, sep: string): (r: Option<(seq<(string, string)>, string)>)
    decreases |s|
  {
    if |s| == 0 || s[0] != '`' then Some(([], s))
    else
      match ReadItem(s)
      case None => None
      case Some((name, suffix, rest)) =>
        match Strip(rest, sep)
        case None => Some(([(name, suffix)], rest))
        case Some(next) =>
          match ReadItems(next, sep)
          case None => None
          case Some((more, tail)) =>
            if |more| == 0 then None else Some(([(name, suffix)] + more, tail))
  }

  /** Counts the placeholders of a `, `-separated `%s` list. */
  function ReadPlaceholders(s: string): (r: Option<(nat, string)>)
    decreases |s|
  {
    match Strip(s, "%s")
    case None => Some((0, s))
    case Some(rest) =>
      match Strip(rest, ", ")
      case None => Some((1, rest))
      case Some(next) =>
        match ReadPlaceholders(next)
        case None => None
        case Some((m, tail)) => if m == 0 then None else Some((m + 1, tail))
  }

  /** The table name, then ` (`. */
  function ReadTable(s: string): Option<(string, string)>
  {
    var k := Span(s, {' '});
    if !IsIdent(s[..k]) then None
    else
      match Strip(s[k..], " (")
      case None => None
      case Some(rest) => Some((s[..k], rest))
  }

  function ReadType(suffix: string): Option<SqlType>
  {
    if suffix == " TEXT" then Some(TEXT)
    else if suffix == " FLOAT" then Some(FLOAT)
    else if suffix == " INT" then Some(INT)
    else if suffix == " DATETIME" then Some(DATETIME)
    else None
  }

  function ReadDefs(items: seq<(string, string)>): Option<seq<ColumnDef>>
  {
    if |items| == 0 then Some([])
    else
      match ReadType(items[0].1)
      case None => None
      case Some(t) =>
        match ReadDefs(items[1..])
        case None => None
        case Some(defs) => Some([ColumnDef(items[0].0, t)] + defs)
  }

  function ParseDrop(s: string): Option<Stmt>
  {
    match Strip(s, "DROP TABLE IF EXISTS ")
    case None => None
    case Some(t) => if IsIdent(t) then Some(DropIfExists(t)) else None
  }

  function ParseCreate(s: string): Option<Stmt>
  {
    match Strip(s, "CREATE TABLE IF NOT EXISTS ")
    case None => None
    case Some(r) =>
      match ReadTable(r)
      case None => None
      case Some((t, body)) =>
        match ReadItems(body, ", ")
        case None => None
        case Some((items, rest)) =>
          if rest != ")" then None
          else
            match ReadDefs(items)
            case None => None
            case Some(defs) => Some(CreateTable(t, true, defs))
  }

  function ParseInsert(s: string): Option<Stmt>
  {
    match Strip(s, "INSERT INTO ")
    case None => None
    case Some(r) =>
      match ReadTable(r)
      case None => None
      case Some((t, body)) =>
        match ReadItems(body, ",")
        case None => None
        case Some((items, rest)) =>
          if exists k :: 0 <= k < |items| && items[k].1 != "" then None
          else
            match Strip(rest, ") VALUES (")
            case None => None
            case Some(ph) =>
              match ReadPlaceholders(ph)
              case None => None
              case Some((n, close)) =>
                if close != ")" then None
                else Some(Insert(t, seq(|items|, k requires 0 <= k < |items| => items[k].0), n))
  }

  /** What MySQL understands a statement text to ask for, for the shapes the
      loader produces; `None` is a syntax error. */
  function Parse(s: string): Option<Stmt>
  {
    if ParseDrop(s).Some? then ParseDrop(s)
    else if ParseCreate(s).Some? then ParseCreate(s)
    else ParseInsert(s)
  }

  // ---------------------------------------------------------------------
  // Round trips

  function Items(pairs: seq<(string, string)>): (r: seq<string>)
    ensures |r| == |pairs|
  {
    seq(|pairs|, k requires 0 <= k < |pairs| => Item(pairs[k].0, pairs[k].1))
  }

  /** The items of a list that reads back intact: names without backticks,
      suffixes without `,` or `)`. */
  predicate Readable(pairs: seq<(string, string)>)
  {
    forall k :: 0 <= k < |pairs| ==>
      '`' !in pairs[k].0 && ',' !in pairs[k].1 && ')' !in pairs[k].1
  }

  lemma StripPrefix(p: string, r: string)
    ensures Strip(p + r, p) == Some(r)
  {
    assert (p + r)[..|p|] == p;
    assert (p + r)[|p|..] == r;
  }

  lemma StripMismatch(s: string, p: string)
    requires |s| > 0 && |p| > 0 && s[0] != p[0]
    ensures Strip(s, p) == None
  {
    if |p| <= |s| {
      assert s[..|p|][0] != p[0];
    }
  }

  lemma {:induction false} SpanConcat(a: string, b: string, stops: set<char>)
    requires forall i :: 0 <= i < |a| ==> a[i] !in stops
    requires |b| > 0 && b[0] in stops
    ensures Span(a + b, stops) == |a|
  {
    if |a| > 0 {
      assert (a + b)[0] == a[0];
      assert (a + b)[1..] == a[1..] + b;
      SpanConcat(a[1..], b, stops);
    } else {
      assert a + b == b;
    }
  }

  lemma ReadItemOf(name: string, suffix: string, rest: string)
    requires '`' !in name && ',' !in suffix && ')' !in suffix
    requires |rest| > 0 && rest[0] in {',', ')'}
    ensures ReadItem(Item(name, suffix) + rest) == Some((name, suffix, rest))
  {
    var body := name + ("`" + suffix + rest);
    assert Item(name, suffix) + rest == "`" + body;
    assert Strip("`" + body, "`") == Some(body) by { StripPrefix("`", body); }
    assert Span(body, {'`'}) == |name| by { SpanConcat(name, "`" + suffix + rest, {'`'}); }
    assert body[..|name|] == name;
    var after := body[|name| + 1..];
    assert after == suffix + rest;
    assert Span(after, {',', ')'}) == |suffix| by { SpanConcat(suffix, rest, {',', ')'}); }
    assert after[..|suffix|] == suffix;
    assert after[|suffix|..] == rest;
  }

  /** A joined item list reads back as the same items, leaving what follows it. */
  lemma {:induction false} ReadItemsOf(pairs: seq<(string, string)>, sep: string, tail: string)
    requires Readable(pairs)
    requires |sep| > 0 && sep[0] == ','
    requires |tail| > 0 && tail[0] == ')'
    ensures ReadItems(Join(Items(pairs), sep) + tail, sep) == Some((pairs, tail))
    decreases |pairs|, 1
  {
    if |pairs| == 0 {
      assert Join(Items(pairs), sep) + tail == tail;
    } else if |pairs| == 1 {
      ReadOneItem(pairs, sep, tail);
    } else {
      ReadSeveralItems(pairs, sep, tail);
    }
  }

  lemma ReadOneItem(pairs: seq<(string, string)>, sep: string, tail: string)
    requires Readable(pairs) && |pairs| == 1
    requires |sep| > 0 && sep[0] == ','
    requires |tail| > 0 && tail[0] == ')'
    ensures ReadItems(Join(Items(pairs), sep) + tail, sep) == Some((pairs, tail))
  {
    var (name, suffix) := pairs[0];
    var s := Join(Items(pairs), sep) + tail;
    assert s == Item(name, suffix) + tail;
    ReadItemOf(name, suffix, tail);
    StripMismatch(tail, sep);
    assert pairs == [(name, suffix)];
  }

  lemma {:induction false} ReadSeveralItems(pairs: seq<(string, string)>, sep: string, tail: string)
    requires Readable(pairs) && |pairs| > 1
    requires |sep| > 0 && sep[0] == ','
    requires |tail| > 0 && tail[0] == ')'
    ensures ReadItems(Join(Items(pairs), sep) + tail, sep) == Some((pairs, tail))
    decreases |pairs|, 0
  {
    var (name, suffix) := pairs[0];
    var next := Join(Items(pairs[1..]), sep) + tail;
    var rest := sep + next;
    var s := Join(Items(pairs), sep) + tail;
    assert s == Item(name, suffix) + rest by {
      assert Items(pairs)[0] == Item(name, suffix);
      assert Items(pairs)[1..] == Items(pairs[1..]);
      assert Join(Items(pairs), sep) == Items(pairs)[0] + sep + Join(Items(pairs)[1..], sep);
    }
    assert ReadItem(s) == Some((name, suffix, rest)) by {
      assert rest[0] == ',';
      assert '`' !in pairs[0].0 && ',' !in pairs[0].1 && ')' !in pairs[0].1;
      ReadItemOf(name, suffix, rest);
    }
    assert Strip(rest, sep) == Some(next) by {
      StripPrefix(sep, next);
    }
    assert ReadItems(next, sep) == Some((pairs[1..], tail)) by {
      ReadableTail(pairs);
      ReadItemsOf(pairs[1..], sep, tail);
    }
    ReadItemsCons(s, sep, name, suffix, rest, next, pairs[1..], tail);
    assert pairs == [(name, suffix)] + pairs[1..];
  }

  lemma ReadableTail(pairs: seq<(string, string)>)
    requires Readable(pairs) && |pairs| > 0
    ensures Readable(pairs[1..])
  {
    forall k | 0 <= k < |pairs| - 1
      ensures '`' !in pairs[1..][k].0 && ',' !in pairs[1..][k].1 && ')' !in pairs[1..][k].1
    {
      assert pairs[1..][k] == pairs[k + 1];
    }
  }

  /** Reading a list whose first item is followed by a separator and more items. */
  lemma ReadItemsCons(s: string, sep: string, name: string, suffix: string, rest: string, next: string,
                      more: seq<(string, string)>, tail: string)
    requires |s| > 0 && s[0] == '`'
    requires ReadItem(s) == Some((name, suffix, rest))
    requires Strip(rest, sep) == Some(next)
    requires ReadItems(next, sep) == Some((more, tail)) && |more| > 0
    ensures ReadItems(s, sep) == Some(([(name, suffix)] + more, tail))
  {
  }

  lemma {:induction false} ReadPlaceholdersOf(n: nat, tail: string)
    requires |tail| > 0 && tail[0] == ')'
    ensures ReadPlaceholders(Placeholders(n) + tail) == Some((n, tail))
  {
    if n == 0 {
      assert Placeholders(0) + tail == tail;
      StripMismatch(tail, "%s");
    } else if n == 1 {
      assert Placeholders(1) + tail == "%s" + tail;
      StripPrefix("%s", tail);
      StripMismatch(tail, ", ");
    } else {
      var more := Placeholders(n - 1) + tail;
      assert Repeat("%s", n)[1..] == Repeat("%s", n - 1);
      assert Placeholders(n) + tail == "%s" + (", " + more);
      StripPrefix("%s", ", " + more);
      StripPrefix(", ", more);
      ReadPlaceholdersOf(n - 1, tail);
    }
  }

  lemma ReadTableOf(t: string, rest: string)
    requires IsIdent(t)
    ensures ReadTable(t + " (" + rest) == Some((t, rest))
  {
    var s := t + (" (" + rest);
    assert t + " (" + rest == s;
    SpanConcat(t, " (" + rest, {' '});
    assert s[..|t|] == t;
    assert s[|t|..] == " (" + rest;
    StripPrefix(" (", rest);
  }

  function DefItems(schema: seq<ColumnDef>): (r: seq<(string, string)>)
    ensures |r| == |schema|
  {
    seq(|schema|, k requires 0 <= k < |schema| => (schema[k].name, " " + TypeName(schema[k].sqlType)))
  }

  lemma {:induction false} ReadDefsOf(schema: seq<ColumnDef>)
    requires forall k :: 0 <= k < |schema| ==> IsInferable(schema[k].sqlType)
    ensures ReadDefs(DefItems(schema)) == Some(schema)
  {
    if |schema| > 0 {
      ReadTypeOf(schema[0].sqlType);
      assert DefItems(schema)[0].1 == " " + TypeName(schema[0].sqlType);
      assert DefItems(schema)[1..] == DefItems(schema[1..]);
      ReadDefsOf(schema[1..]);
      assert schema == [schema[0]] + schema[1..];
    }
  }

  lemma DefItemsReadable(schema: seq<ColumnDef>)
    requires forall k :: 0 <= k < |schema| ==> '`' !in schema[k].name && IsInferable(schema[k].sqlType)
    ensures Readable(DefItems(schema))
  {
    forall k | 0 <= k < |schema|
      ensures ',' !in DefItems(schema)[k].1 && ')' !in DefItems(schema)[k].1
    {
      TypeNamePlain(schema[k].sqlType);
    }
  }

  /** The name of an inferable type holds no `,` and no `)`. */
  lemma TypeNamePlain(t: SqlType)
    requires IsInferable(t)
    ensures ',' !in " " + TypeName(t) && ')' !in " " + TypeName(t)
  {
  }

  lemma ReadTypeOf(t: SqlType)
    requires IsInferable(t)
    ensures ReadType(" " + TypeName(t)) == Some(t)
  {
    match t
    case TEXT =>
    case FLOAT => assert " FLOAT" != " TEXT";
    case INT => assert " INT" != " TEXT" && " INT" != " FLOAT";
    case DATETIME => assert " DATETIME" != " TEXT" && " DATETIME" != " FLOAT" && " DATETIME" != " INT";
  }

  /** The loader's DROP statement reads back as a drop of that table. */
  lemma ParseDropSql(t: string)
    requires IsIdent(t)
    ensures Parse(DropSql(t)) == Some(DropIfExists(t))
  {
    StripPrefix("DROP TABLE IF EXISTS ", t);
  }

  lemma ParseCreateSteps(s: string, r: string, t: string, body: string, pairs: seq<(string, string)>, schema: seq<ColumnDef>)
    requires ParseDrop(s) == None
    requires Strip(s, "CREATE TABLE IF NOT EXISTS ") == Some(r)
    requires ReadTable(r) == Some((t, body))
    requires ReadItems(body, ", ") == Some((pairs, ")"))
    requires ReadDefs(pairs) == Some(schema)
    ensures Parse(s) == Some(CreateTable(t, true, schema))
  {
  }

  lemma ParseInsertSteps(s: string, r: string, t: string, body: string, pairs: seq<(string, string)>,
                         after: string, ph: string, n: nat)
    requires ParseDrop(s) == None && ParseCreate(s) == None
    requires Strip(s, "INSERT INTO ") == Some(r)
    requires ReadTable(r) == Some((t, body))
    requires ReadItems(body, ",") == Some((pairs, after))
    requires forall k :: 0 <= k < |pairs| ==> pairs[k].1 == ""
    requires Strip(after, ") VALUES (") == Some(ph)
    requires ReadPlaceholders(ph) == Some((n, ")"))
    ensures Parse(s) == Some(Insert(t, seq(|pairs|, k requires 0 <= k < |pairs| => pairs[k].0), n))
  {
  }

  lemma CreateStartsWithPrefix(t: string, columns: seq<string>)
    ensures ParseDrop(CreateSql(t, columns)) == None
    ensures Strip(CreateSql(t, columns), "CREATE TABLE IF NOT EXISTS ")
         == Some(t + " (" + (Join(columns, ", ") + ")"))
  {
    var r := t + " (" + (Join(columns, ", ") + ")");
    StripMismatch(CreateSql(t, columns), "DROP TABLE IF EXISTS ");
    assert CreateSql(t, columns) == "CREATE TABLE IF NOT EXISTS " + r;
    StripPrefix("CREATE TABLE IF NOT EXISTS ", r);
  }

  lemma InsertStartsWithPrefix(t: string, list: string, n: nat)
    ensures ParseDrop(InsertSql(t, list, n)) == None
    ensures ParseCreate(InsertSql(t, list, n)) == None
    ensures Strip(InsertSql(t, list, n), "INSERT INTO ")
         == Some(t + " (" + (list + (") VALUES (" + (Placeholders(n) + ")"))))
  {
    var s := InsertSql(t, list, n);
    var r := t + " (" + (list + (") VALUES (" + (Placeholders(n) + ")")));
    StripMismatch(s, "DROP TABLE IF EXISTS ");
    StripMismatch(s, "CREATE TABLE IF NOT EXISTS ");
    assert s == "INSERT INTO " + r;
    StripPrefix("INSERT INTO ", r);
  }

  lemma ColumnTextsAreItems(columns: seq<string>, schema: seq<ColumnDef>)
    requires |columns| == |schema|
    requires forall k :: 0 <= k < |schema| ==> columns[k] == ColumnText(schema[k])
    ensures columns == Items(DefItems(schema))
  {
  }

  lemma QuotedNamesAreItems(names: seq<string>)
    ensures seq(|names|, k requires 0 <= k < |names| => Quote(names[k]))
         == Items(seq(|names|, k requires 0 <= k < |names| => (names[k], "")))
  {
  }

  /** The loader's CREATE statement, built from one `` `name` TYPE `` text per
      column, reads back as a creation of that table with exactly those
      columns, in that order, with those types. */
  lemma ParseCreateSql(t: string, columns: seq<string>, schema: seq<ColumnDef>)
    requires IsIdent(t)
    requires |columns| == |schema|
    requires forall k :: 0 <= k < |schema| ==> columns[k] == ColumnText(schema[k])
    requires forall k :: 0 <= k < |schema| ==> '`' !in schema[k].name && IsInferable(schema[k].sqlType)
    ensures Parse(CreateSql(t, columns)) == Some(CreateTable(t, true, schema))
  {
    var s, body := CreateSql(t, columns), Join(columns, ", ");
    var r := t + " (" + (body + ")");
    assert ParseDrop(s) == None && Strip(s, "CREATE TABLE IF NOT EXISTS ") == Some(r) by {
      CreateStartsWithPrefix(t, columns);
    }
    assert ReadTable(r) == Some((t, body + ")")) by {
      ReadTableOf(t, body + ")");
    }
    assert ReadItems(body + ")", ", ") == Some((DefItems(schema), ")")) by {
      ColumnTextsAreItems(columns, schema);
      DefItemsReadable(schema);
      ReadItemsOf(DefItems(schema), ", ", ")");
    }
    assert ReadDefs(DefItems(schema)) == Some(schema) by {
      ReadDefsOf(schema);
    }
    ParseCreateSteps(s, r, t, body + ")", DefItems(schema), schema);
  }

  /** The loader's INSERT statement reads back as an insert into that table
      naming exactly `names`, in order, with `n` placeholders. */
  lemma ParseInsertSql(t: string, names: seq<string>, n: nat)
    requires IsIdent(t)
    requires forall k :: 0 <= k < |names| ==> '`' !in names[k]
    ensures Parse(InsertSql(t, ColumnList(names), n)) == Some(Insert(t, names, n))
  {
    var list := ColumnList(names);
    var ph := Placeholders(n);
    var after := ") VALUES (" + (ph + ")");
    var pairs := seq(|names|, k requires 0 <= k < |names| => (names[k], ""));
    var s, r := InsertSql(t, list, n), t + " (" + (list + after);
    assert ParseDrop(s) == None && ParseCreate(s) == None && Strip(s, "INSERT INTO ") == Some(r) by {
      InsertStartsWithPrefix(t, list, n);
    }
    assert ReadTable(r) == Some((t, list + after)) by {
      ReadTableOf(t, list + after);
    }
    assert ReadItems(list + after, ",") == Some((pairs, after)) by {
      QuotedNamesAreItems(names);
      assert Readable(pairs);
      ReadItemsOf(pairs, ",", after);
    }
    assert Strip(after, ") VALUES (") == Some(ph + ")") by {
      StripPrefix(") VALUES (", ph + ")");
    }
    assert ReadPlaceholders(ph + ")") == Some((n, ")")) by {
      ReadPlaceholdersOf(n, ")");
    }
    ParseInsertSteps(s, r, t, list + after, pairs, after, ph + ")", n);
    assert seq(|pairs|, k requires 0 <= k < |pairs| => pairs[k].0) == names;
  }

  /** A DROP of a name that is not a plain identifier is a syntax error. */
  lemma ParseDropSqlRejects(t: string)
    requires !IsIdent(t)
    ensures Parse(DropSql(t)) == None
  {
    StripPrefix("DROP TABLE IF EXISTS ", t);
    StripMismatch(DropSql(t), "CREATE TABLE IF NOT EXISTS ");
    StripMismatch(DropSql(t), "INSERT INTO ");
  }

  /** Whatever its column texts, the loader's CREATE statement is either a
      syntax error or a creation of the table it names. */
  lemma CreateSqlTable(t: string, columns: seq<string>)
    requires IsIdent(t)
    ensures Parse(CreateSql(t, columns)).None?
         || (Parse(CreateSql(t, columns)).value.CreateTable? && Parse(CreateSql(t, columns)).value.table == t)
  {
    CreateStartsWithPrefix(t, columns);
    ReadTableOf(t, Join(columns, ", ") + ")");
    StripMismatch(CreateSql(t, columns), "INSERT INTO ");
  }

  /** Whatever its column list, the loader's INSERT statement is either a
      syntax error or an insert into the table it names. */
  lemma InsertSqlTable(t: string, list: string, n: nat)
    requires IsIdent(t)
    ensures Parse(InsertSql(t, list, n)).None?
         || (Parse(InsertSql(t, list, n)).value.Insert? && Parse(InsertSql(t, list, n)).value.table == t)
  {
    InsertStartsWithPrefix(t, list, n);
    ReadTableOf(t, list + (") VALUES (" + (Placeholders(n) + ")")));
  }
}
