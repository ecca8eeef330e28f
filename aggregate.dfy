/** The four transforms of dataaggregate.py (lines 28-177). Each reads
    fixed columns from a source table, cleans the rows, then drops,
    recreates (with a hand-written schema), fills with one `executemany`
    and commits its target table. The first error abandons the remaining
    transforms; what earlier ones committed stays. The hand-written SQL
    texts are modelled by the statements they denote. */
module Aggregate {
  import opened Values
  import opened Frames
  import opened Sql
  import opened Database

  datatype Transform = League | Team | Schedule | WinTotals

  /** The transforms in the order the script runs them. */
  const Steps: seq<Transform> := [League, Team, Schedule, WinTotals]

  function Source(t: Transform): string
  {
    match t
    case League => "league_weekly_stats"
    case Team => "team_descriptions"
    case Schedule => "schedules"
    case WinTotals => "win_totals"
  }

  function Target(t: Transform): string
  {
    match t
    case League => "league_weekly_stats_transformed"
    case Team => "team_stats_transformed"
    case Schedule => "game_info_transformed"
    case WinTotals => "win_totals_transformed"
  }

  /** The column list of each SELECT (lines 30, 71, 98 and 136). */
  function SelectColumns(t: Transform): seq<string>
  {
    match t
    case League =>
      ["player_name", "player_display_name", "position", "recent_team", "game_id", "opponent_team",
       "season", "week", "passing_yards", "rushing_yards", "fantasy_points"]
    case Team => ["team_id", "team_abbr", "team_name"]
    case Schedule => ["game_id", "season", "week", "home_team", "away_team", "home_score", "away_score"]
    case WinTotals =>
      ["game_id", "market_type", "abbr", "lines", "odds", "opening_lines", "opening_odds", "book", "season"]
  }

  /** The hand-written CREATE TABLE schemas (lines 45-57, 80-84, 113-121 and 151-161). */
  function Schema(t: Transform): seq<ColumnDef>
  {
    match t
    case League =>
      [ColumnDef("player_name", VARCHAR(255)), ColumnDef("player_display_name", VARCHAR(255)),
       ColumnDef("position", VARCHAR(50)), ColumnDef("recent_team", VARCHAR(10)),
       ColumnDef("game_id", VARCHAR(20)), ColumnDef("opponent_team", VARCHAR(10)),
       ColumnDef("season", INT), ColumnDef("week", INT),
       ColumnDef("passing_yards", FLOAT), ColumnDef("rushing_yards", FLOAT), ColumnDef("fantasy_points", FLOAT)]
    case Team =>
      [ColumnDef("team_id", VARCHAR(10)), ColumnDef("team_abbr", VARCHAR(10)), ColumnDef("team_name", VARCHAR(255))]
    case Schedule =>
      [ColumnDef("game_id", VARCHAR(20)), ColumnDef("season", INT), ColumnDef("week", INT),
       ColumnDef("home_team", VARCHAR(10)), ColumnDef("away_team", VARCHAR(10)),
       ColumnDef("home_score", INT), ColumnDef("away_score", INT)]
    case WinTotals =>
      [ColumnDef("game_id", VARCHAR(20)), ColumnDef("market_type", VARCHAR(50)), ColumnDef("abbr", VARCHAR(10)),
       ColumnDef("lines", FLOAT), ColumnDef("odds", FLOAT), ColumnDef("opening_lines", FLOAT),
       ColumnDef("opening_odds", FLOAT), ColumnDef("book", VARCHAR(255)), ColumnDef("season", INT)]
  }

  /** The column lists of the hand-written INSERTs (lines 63, 90, 127 and 167). */
  function InsertColumns(t: Transform): seq<string>
  {
    match t
    case League =>
      ["player_name", "player_display_name", "position", "recent_team", "game_id", "opponent_team",
       "season", "week", "passing_yards", "rushing_yards", "fantasy_points"]
    case Team => ["team_id", "team_abbr", "team_name"]
    case Schedule => ["game_id", "season", "week", "home_team", "away_team", "home_score", "away_score"]
    case WinTotals =>
      ["game_id", "market_type", "abbr", "lines", "odds", "opening_lines", "opening_odds", "book", "season"]
  }

  /** The number of `%s` placeholders of each INSERT (lines 64, 91, 128 and 168). */
  function PlaceholderCount(t: Transform): nat
  {
    match t
    case League => 11
    case Team => 3
    case Schedule => 7
    case WinTotals => 9
  }

  function InsertOf(t: Transform): Stmt
  {
    Insert(Target(t), InsertColumns(t), PlaceholderCount(t))
  }

  // ---------------------------------------------------------------------
  // Cleaning rules

  /** `fillna('Unknown')` on one cell (line 40). */
  function FillUnknown(v: Value): (r: Value)
    ensures !IsNa(r) && (!IsNa(v) ==> r == v)
  {
    FillNa(Str("Unknown"), v)
  }

  /** The columns turned into numbers (line 145). */
  const NumericColumns: seq<string> := ["lines", "odds", "opening_lines", "opening_odds"]

  /** `pd.to_numeric(v, errors='coerce')` on one cell: numbers stay, a
      missing value is NaN, anything else is read by the oracle `parse`,
      and what it cannot read is NaN. */
  function ToNumeric(parse: Value -> Option<Number>, v: Value): (r: Value)
    ensures IsNumber(r)
    ensures IsNumber(v) ==> r == v
    ensures v.Null? ==> r.NaN?
  {
    if IsNumber(v) then v
    else if v.Null? then NaN
    else match parse(v)
      case None => NaN
      case Some(n) => n
  }

  /** `pd.to_numeric(v, errors='coerce')` followed by `fillna(0)` (line 146). */
  function CoerceNumeric(parse: Value -> Option<Number>, v: Value): (r: Value)
    ensures IsNumber(r) && !IsNa(r)
    ensures IsNumber(v) && !v.NaN? ==> r == v
  {
    FillZero(ToNumeric(parse, v))
  }

  /** The rows once every column named in `done` has been coerced. */
  function CoercedRows(names: seq<string>, rows: seq<seq<Value>>, done: seq<string>,
                       parse: Value -> Option<Number>): (r: seq<seq<Value>>)
    requires Aligned(|names|, rows)
    ensures |r| == |rows| && Aligned(|names|, r)
  {
    seq(|rows|, i requires 0 <= i < |rows| => CoercedRow(names, rows[i], done, parse))
  }

  /** One row once every column named in `done` has been coerced. */
  function CoercedRow(names: seq<string>, row: seq<Value>, done: seq<string>,
                      parse: Value -> Option<Number>): (r: seq<Value>)
    requires |row| == |names|
    ensures |r| == |names|
  {
    seq(|names|, k requires 0 <= k < |names| =>
      if names[k] in done then CoerceNumeric(parse, row[k]) else row[k])
  }

  /** The rows each transform sends, given the rows it selected. */
  function Clean(t: Transform, rows: seq<seq<Value>>, parse: Value -> Option<Number>): (r: seq<seq<Value>>)
    requires Aligned(|SelectColumns(t)|, rows)
    ensures |r| == |rows| && Aligned(|SelectColumns(t)|, r)
  {
    match t
    case League => MapRows(MapRows(rows, FillZero), FillUnknown)
    case Team => rows
    case Schedule => MapRows(rows, NaToNull)
    case WinTotals => CoercedRows(SelectColumns(WinTotals), rows, NumericColumns, parse)
  }

  // ---------------------------------------------------------------------
  // What a run does

  /** The SELECT of transform `t` succeeds: its table and columns exist. */
  predicate CanRead(t: Transform, tables: map<string, Table>)
  {
    Source(t) in tables && forall c :: c in SelectColumns(t) ==> c in Names(tables[Source(t)].schema)
  }

  /** The rows `fetchall()` returns for the SELECT of transform `t`. */
  function SourceRows(t: Transform, tables: map<string, Table>): (r: seq<seq<Value>>)
    requires WellFormed(tables) && CanRead(t, tables)
    ensures |r| == |tables[Source(t)].rows| && Aligned(|SelectColumns(t)|, r)
  {
    SelectRows(Names(tables[Source(t)].schema), tables[Source(t)].rows, SelectColumns(t))
  }

  /** The rows transform `t` sends. */
  function Sent(t: Transform, tables: map<string, Table>, parse: Value -> Option<Number>): (r: seq<seq<Value>>)
    requires WellFormed(tables) && CanRead(t, tables)
    ensures |r| == |tables[Source(t)].rows| && Aligned(|SelectColumns(t)|, r)
  {
    Clean(t, SourceRows(t, tables), parse)
  }

  /** Transform `t` completes: its SELECT succeeds and MySQL takes every
      row of the batch. */
  predicate Succeeds(t: Transform, tables: map<string, Table>, rejects: (seq<ColumnDef>, seq<Value>) -> bool,
                     parse: Value -> Option<Number>)
    requires WellFormed(tables)
  {
    && CanRead(t, tables)
    && forall i :: 0 <= i < |Sent(t, tables, parse)| ==> !rejects(Schema(t), Sent(t, tables, parse)[i])
  }

  /** Whether transform `t` completes, and the tables after it. It fails
      without touching anything when its SELECT fails, and leaves its
      target recreated but empty when MySQL refuses the batch. */
  function StepOutcome(t: Transform, tables: map<string, Table>, rejects: (seq<ColumnDef>, seq<Value>) -> bool,
                       parse: Value -> Option<Number>): (r: (bool, map<string, Table>))
    requires WellFormed(tables)
  {
    if !CanRead(t, tables) then (false, tables)
    else
      var ok := Succeeds(t, tables, rejects, parse);
      (ok, tables[Target(t) := Table(Schema(t), if ok then Sent(t, tables, parse) else [])])
  }

  /** How many of `steps` complete, and the tables after the run, which
      stops at the first failure. */
  function RunOutcome(steps: seq<Transform>, tables: map<string, Table>, rejects: (seq<ColumnDef>, seq<Value>) -> bool,
                      parse: Value -> Option<Number>): (r: (nat, map<string, Table>))
    requires WellFormed(tables)
    ensures r.0 <= |steps|
    decreases |steps|
  {
    if |steps| == 0 then (0, tables)
    else
      var (ok, next) := StepOutcome(steps[0], tables, rejects, parse);
      StepKeepsWellFormed(steps[0], tables, rejects, parse);
      if !ok then (0, next)
      else
        var (n, last) := RunOutcome(steps[1..], next, rejects, parse);
        (n + 1, last)
  }

  // ---------------------------------------------------------------------
  // The script

  /** Lines 43-44, 59 and 66-67 (and their counterparts in the other
      transforms): drop the target, create it, insert all rows in one
      batch, commit. Both DDL statements commit implicitly, so a refused
      batch leaves the table created and empty. */
  method Publish(db: Connection, target: string, schema: seq<ColumnDef>, insert: Stmt, rows: seq<seq<Value>>)
    returns (ok: bool)
    requires db.Valid() && IsValidSchema(schema) && Aligned(|schema|, rows)
    requires insert == Insert(target, Names(schema), |schema|)
    modifies db
    ensures db.Valid() && db.durable == db.tables
    ensures ok <==> forall i :: 0 <= i < |rows| ==> !db.rejects(schema, rows[i])
    ensures db.tables == old(db.tables)[target := Table(schema, if ok then rows else [])]
  {
    ghost var start := db.tables;
    var dropped := db.Execute(DropIfExists(target), []);
    assert db.tables == start - {target};
    var created := db.Execute(CreateTable(target, false, schema), []);
    assert db.tables == start[target := Table(schema, [])] by {
      assert (start - {target})[target := Table(schema, [])] == start[target := Table(schema, [])];
    }
    BatchIntoEmpty(db.tables, target, schema, rows, db.rejects);
    assert start[target := Table(schema, [])][target := Table(schema, rows)] == start[target := Table(schema, rows)];
    ok := db.ExecuteMany(insert, rows);
    if ok {
      db.Commit();
    }
  }

  /** The batch INSERT into a freshly created table stores every row, in
      order, exactly when MySQL takes each of them. */
  lemma BatchIntoEmpty(tables: map<string, Table>, target: string, schema: seq<ColumnDef>, rows: seq<seq<Value>>,
                       rejects: (seq<ColumnDef>, seq<Value>) -> bool)
    requires target in tables && tables[target] == Table(schema, []) && Aligned(|schema|, rows)
    ensures var r := ApplyMany(tables, Insert(target, Names(schema), |schema|), rows, rejects);
      && (r.Some? <==> forall i :: 0 <= i < |rows| ==> !rejects(schema, rows[i]))
      && (r.Some? ==> r.value == tables[target := Table(schema, rows)])
  {
    assert [] + rows == rows;
  }

  /** The cleaning of each transform: the two in-place `fillna` calls of
      the league rows, none for teams, the row-by-row NaN to None rewrite of
      the schedule, and the column-by-column numeric coercion of the win
      totals. */
  method CleanRows(t: Transform, rows: seq<seq<Value>>, parse: Value -> Option<Number>) returns (r: seq<seq<Value>>)
    requires Aligned(|SelectColumns(t)|, rows)
    ensures r == Clean(t, rows, parse)
  {
    match t
    case League =>
      SchemaNamesDistinct(League);
      var frame := new DataFrame(SelectColumns(League), seq(11, _ => Object), rows);
      frame.Replace(FillZero);
      frame.Replace(FillUnknown);
      r := frame.rows;
    case Team =>
      r := rows;
    case Schedule =>
      r := MapRows(rows, NaToNull);
    case WinTotals =>
      WinTotalsNames();
      var frame := new DataFrame(SelectColumns(WinTotals), seq(9, _ => Object), rows);
      CoerceColumns(frame, NumericColumns, parse);
      r := frame.rows;
  }

  /** Lines 145-146: each listed column in turn is replaced, in place, by
      its coerced values; the other columns are left alone. */
  method CoerceColumns(frame: DataFrame, columns: seq<string>, parse: Value -> Option<Number>)
    requires frame.Valid() && Distinct(columns) && forall c :: c in columns ==> c in frame.names
    modifies frame
    ensures frame.Valid() && frame.names == old(frame.names)
    ensures frame.rows == CoercedRows(frame.names, old(frame.rows), columns, parse)
  {
    ghost var rows := frame.rows;
    CoercedNothing(frame.names, rows, parse);
    for c := 0 to |columns|
      invariant frame.Valid() && frame.names == old(frame.names)
      invariant frame.rows == CoercedRows(frame.names, rows, columns[..c], parse)
    {
      var name := columns[c];
      var column := frame.Column(name);
      var coerced := seq(|column|, i requires 0 <= i < |column| => CoerceNumeric(parse, column[i]));
      ghost var before := frame.rows;
      frame.SetColumn(name, Float64, coerced);
      CoercedStep(frame.names, rows, columns, c, before, frame.rows, parse);
    }
    assert columns[..|columns|] == columns;
  }

  /** One transform: SELECT, clean, publish. */
  method RunStep(db: Connection, t: Transform, parse: Value -> Option<Number>) returns (ok: bool)
    requires db.Valid() && db.durable == db.tables
    modifies db
    ensures db.Valid() && db.durable == db.tables
    ensures (ok, db.tables) == StepOutcome(t, old(db.tables), db.rejects, parse)
  {
    var found, selected := db.Select(Source(t), SelectColumns(t));
    if !found {
      return false;
    }
    var rows := CleanRows(t, selected, parse);
    TransformShapes(t);
    ok := Publish(db, Target(t), Schema(t), InsertOf(t), rows);
  }

  /** The whole script on an open connection with nothing pending: the
      four transforms in order, stopping at the first error, which the
      script reports. Returns how many completed. */
  method Run(db: Connection, parse: Value -> Option<Number>) returns (completed: nat)
    requires db.Valid() && db.durable == db.tables
    modifies db
    ensures db.Valid() && db.durable == db.tables
    ensures (completed, db.tables) == RunOutcome(Steps, old(db.tables), db.rejects, parse)
  {
    ghost var t0 := db.tables;
    RunPrefixStart(t0, db.rejects, parse);
    ghost var before := db.tables;
    var ok := RunStep(db, Steps[0], parse);
    RunPrefixStep(0, t0, before, ok, db.tables, db.rejects, parse);
    if !ok {
      return 0;
    }
    before := db.tables;
    ok := RunStep(db, Steps[1], parse);
    RunPrefixStep(1, t0, before, ok, db.tables, db.rejects, parse);
    if !ok {
      return 1;
    }
    before := db.tables;
    ok := RunStep(db, Steps[2], parse);
    RunPrefixStep(2, t0, before, ok, db.tables, db.rejects, parse);
    if !ok {
      return 2;
    }
    before := db.tables;
    ok := RunStep(db, Steps[3], parse);
    RunPrefixStep(3, t0, before, ok, db.tables, db.rejects, parse);
    if !ok {
      return 3;
    }
    RunPrefixEnd(t0, db.tables, db.rejects, parse);
    return 4;
  }

  // ---------------------------------------------------------------------
  // Proof steps

  /** What the run promises once the first `k` transforms have completed
      and left `tables`. */
  ghost predicate RunSoFar(k: nat, start: map<string, Table>, tables: map<string, Table>,
                           rejects: (seq<ColumnDef>, seq<Value>) -> bool, parse: Value -> Option<Number>)
    requires k <= |Steps| && WellFormed(start) && WellFormed(tables)
  {
    RunOutcome(Steps, start, rejects, parse)
      == (k + RunOutcome(Steps[k..], tables, rejects, parse).0, RunOutcome(Steps[k..], tables, rejects, parse).1)
  }

  lemma RunPrefixStart(start: map<string, Table>, rejects: (seq<ColumnDef>, seq<Value>) -> bool,
                       parse: Value -> Option<Number>)
    requires WellFormed(start)
    ensures RunSoFar(0, start, start, rejects, parse)
  {
    assert Steps[0..] == Steps;
  }

  lemma RunPrefixStep(k: nat, start: map<string, Table>, before: map<string, Table>, ok: bool, after: map<string, Table>,
                      rejects: (seq<ColumnDef>, seq<Value>) -> bool, parse: Value -> Option<Number>)
    requires k < |Steps| && WellFormed(start) && WellFormed(before)
    requires RunSoFar(k, start, before, rejects, parse)
    requires (ok, after) == StepOutcome(Steps[k], before, rejects, parse)
    ensures WellFormed(after)
    ensures !ok ==> RunOutcome(Steps, start, rejects, parse) == (k, after)
    ensures ok ==> RunSoFar(k + 1, start, after, rejects, parse)
  {
    RunOutcomeStep(Steps[k..], before, rejects, parse);
    assert Steps[k..][1..] == Steps[k + 1..];
  }

  lemma RunPrefixEnd(start: map<string, Table>, tables: map<string, Table>,
                     rejects: (seq<ColumnDef>, seq<Value>) -> bool, parse: Value -> Option<Number>)
    requires WellFormed(start) && WellFormed(tables) && RunSoFar(|Steps|, start, tables, rejects, parse)
    ensures RunOutcome(Steps, start, rejects, parse) == (|Steps|, tables)
  {
    assert Steps[|Steps|..] == [];
  }

  lemma RunOutcomeStep(steps: seq<Transform>, tables: map<string, Table>,
                       rejects: (seq<ColumnDef>, seq<Value>) -> bool, parse: Value -> Option<Number>)
    requires WellFormed(tables) && |steps| > 0
    ensures WellFormed(StepOutcome(steps[0], tables, rejects, parse).1)
    ensures !StepOutcome(steps[0], tables, rejects, parse).0 ==>
      RunOutcome(steps, tables, rejects, parse) == (0, StepOutcome(steps[0], tables, rejects, parse).1)
    ensures StepOutcome(steps[0], tables, rejects, parse).0 ==>
      var after := RunOutcome(steps[1..], StepOutcome(steps[0], tables, rejects, parse).1, rejects, parse);
      RunOutcome(steps, tables, rejects, parse) == (after.0 + 1, after.1)
  {
    StepKeepsWellFormed(steps[0], tables, rejects, parse);
  }

  lemma CoercedNothing(names: seq<string>, rows: seq<seq<Value>>, parse: Value -> Option<Number>)
    requires Aligned(|names|, rows)
    ensures CoercedRows(names, rows, [], parse) == rows
  {
    forall i | 0 <= i < |rows|
      ensures CoercedRows(names, rows, [], parse)[i] == rows[i]
    {
    }
  }

  lemma WinTotalsNames()
    ensures Distinct(SelectColumns(WinTotals)) && Distinct(NumericColumns)
    ensures forall c :: c in NumericColumns ==> c in SelectColumns(WinTotals)
  {
  }

  lemma CoercedStep(names: seq<string>, rows: seq<seq<Value>>, all: seq<string>, c: nat,
                    before: seq<seq<Value>>, after: seq<seq<Value>>, parse: Value -> Option<Number>)
    requires Distinct(names) && Distinct(all) && c < |all| && all[c] in names && Aligned(|names|, rows)
    requires before == CoercedRows(names, rows, all[..c], parse)
    requires |after| == |before|
    requires forall i :: 0 <= i < |after| ==>
      after[i] == before[i][IndexOf(names, all[c]) := CoerceNumeric(parse, before[i][IndexOf(names, all[c])])]
    ensures after == CoercedRows(names, rows, all[..c + 1], parse)
  {
    var next := CoercedRows(names, rows, all[..c + 1], parse);
    assert all[c] !in all[..c] by {
      forall m | 0 <= m < c
        ensures all[..c][m] != all[c]
      {
        assert all[..c][m] == all[m];
      }
    }
    forall i | 0 <= i < |rows|
      ensures after[i] == next[i]
    {
      CoercedRowStep(names, rows[i], all, c, after[i], parse);
    }
  }

  lemma CoercedRowStep(names: seq<string>, row: seq<Value>, all: seq<string>, c: nat,
                       after: seq<Value>, parse: Value -> Option<Number>)
    requires Distinct(names) && c < |all| && all[c] in names && all[c] !in all[..c] && |row| == |names|
    requires after == CoercedRow(names, row, all[..c], parse)[IndexOf(names, all[c]) :=
                        CoerceNumeric(parse, CoercedRow(names, row, all[..c], parse)[IndexOf(names, all[c])])]
    ensures after == CoercedRow(names, row, all[..c + 1], parse)
  {
    var j := IndexOf(names, all[c]);
    assert all[..c + 1] == all[..c] + [all[c]];
    forall k | 0 <= k < |names|
      ensures after[k] == CoercedRow(names, row, all[..c + 1], parse)[k]
    {
      assert names[k] in all[..c + 1] <==> names[k] in all[..c] || k == j;
    }
  }

  /** The fixed statements fit together: each SELECT asks for the columns
      the schema declares, in order; each INSERT lists exactly those
      columns with one placeholder each; all schemas are valid. */
  lemma TransformShapes(t: Transform)
    ensures SelectColumns(t) == Names(Schema(t)) && InsertColumns(t) == Names(Schema(t))
    ensures PlaceholderCount(t) == |Schema(t)| == |SelectColumns(t)|
    ensures IsValidSchema(Schema(t))
    ensures InsertOf(t) == Insert(Target(t), Names(Schema(t)), |Schema(t)|)
  {
    ShapesAgree(t);
    SchemaNamesValid(t);
  }

  lemma ShapesAgree(t: Transform)
    ensures SelectColumns(t) == Names(Schema(t)) && InsertColumns(t) == Names(Schema(t))
    ensures PlaceholderCount(t) == |Schema(t)|
  {
    match t
    case League =>
    case Team =>
    case Schedule =>
    case WinTotals =>
  }

  lemma SchemaNamesDistinct(t: Transform)
    ensures Distinct(SelectColumns(t))
  {
  }

  /** The hand-written column names are lower case, short and distinct, so
      MySQL accepts them. */
  lemma SchemaNamesValid(t: Transform)
    ensures ValidColumnNames(SelectColumns(t))
  {
    SchemaNamesDistinct(t);
    NamesLower(t);
    LowerNamesValid(SelectColumns(t));
  }

  lemma NamesLower(t: Transform)
    ensures forall n :: n in SelectColumns(t) ==> 0 < |n| <= MaxNameLength && IsLower(n)
  {
    match t
    case League => LeagueNamesLower();
    case Team => TeamNamesLower();
    case Schedule => ScheduleNamesLower();
    case WinTotals => WinTotalsNamesLower();
  }

  lemma LeagueNamesLower()
    ensures forall n :: n in SelectColumns(League) ==> 0 < |n| <= MaxNameLength && IsLower(n)
  {
    LowerA();
    LowerB();
    LowerC();
    LowerD();
  }

  lemma TeamNamesLower()
    ensures forall n :: n in SelectColumns(Team) ==> 0 < |n| <= MaxNameLength && IsLower(n)
  {
    LowerE();
  }

  lemma ScheduleNamesLower()
    ensures forall n :: n in SelectColumns(Schedule) ==> 0 < |n| <= MaxNameLength && IsLower(n)
  {
    LowerB();
    LowerC();
    LowerF();
  }

  lemma WinTotalsNamesLower()
    ensures forall n :: n in SelectColumns(WinTotals) ==> 0 < |n| <= MaxNameLength && IsLower(n)
  {
    LowerB();
    LowerC();
    LowerG();
    LowerH();
  }

  // The hand-written column names have no capital letter, a few names at a
  // time: each proof goes through every character.
  lemma LowerA() ensures IsLower("player_name") && IsLower("player_display_name") && IsLower("position") {}
  lemma LowerB() ensures IsLower("recent_team") && IsLower("game_id") && IsLower("opponent_team") {}
  lemma LowerC() ensures IsLower("season") && IsLower("week") && IsLower("passing_yards") {}
  lemma LowerD() ensures IsLower("rushing_yards") && IsLower("fantasy_points") {}
  lemma LowerE() ensures IsLower("team_id") && IsLower("team_abbr") && IsLower("team_name") {}
  lemma LowerF() ensures IsLower("home_team") && IsLower("away_team") && IsLower("home_score") && IsLower("away_score") {}
  lemma LowerG() ensures IsLower("market_type") && IsLower("abbr") && IsLower("lines") && IsLower("odds") {}
  lemma LowerH() ensures IsLower("opening_lines") && IsLower("opening_odds") && IsLower("book") {}

  lemma StepKeepsWellFormed(t: Transform, tables: map<string, Table>, rejects: (seq<ColumnDef>, seq<Value>) -> bool,
                            parse: Value -> Option<Number>)
    requires WellFormed(tables)
    ensures WellFormed(StepOutcome(t, tables, rejects, parse).1)
  {
    TransformShapes(t);
  }

  // ---------------------------------------------------------------------
  // Properties

  /** After `fillna(0)` no league cell is missing, text columns included,
      so the `'Unknown'` fill that follows changes nothing: every missing
      value ends as 0 and every other value is kept. */
  lemma LeagueFill(rows: seq<seq<Value>>)
    requires Aligned(|SelectColumns(League)|, rows)
    ensures Clean(League, rows, _ => None) == MapRows(rows, FillZero)
    ensures forall i, k :: 0 <= i < |rows| && 0 <= k < |rows[i]| ==>
      Clean(League, rows, _ => None)[i][k] == if IsNa(rows[i][k]) then Int(0) else rows[i][k]
  {
    var zero := MapRows(rows, FillZero);
    forall i | 0 <= i < |rows|
      ensures MapRows(zero, FillUnknown)[i] == zero[i]
    {
    }
  }

  /** The schedule rows keep their number and width; each missing value
      becomes None and every other value is kept. */
  lemma ScheduleCleaning(rows: seq<seq<Value>>, parse: Value -> Option<Number>, i: nat, k: nat)
    requires Aligned(|SelectColumns(Schedule)|, rows) && i < |rows| && k < |rows[i]|
    ensures |Clean(Schedule, rows, parse)| == |rows| && |Clean(Schedule, rows, parse)[i]| == |rows[i]|
    ensures IsNa(rows[i][k]) ==> Clean(Schedule, rows, parse)[i][k] == Null
    ensures !IsNa(rows[i][k]) ==> Clean(Schedule, rows, parse)[i][k] == rows[i][k]
  {
  }

  /** In `lines`, `odds`, `opening_lines` and `opening_odds`, a number
      other than NaN keeps its value, a readable value becomes the number
      read (0 if that is NaN), and a missing or unreadable value becomes 0;
      every other column is unchanged. */
  lemma WinTotalsCoercion(rows: seq<seq<Value>>, parse: Value -> Option<Number>, i: nat, k: nat)
    requires Aligned(|SelectColumns(WinTotals)|, rows) && i < |rows| && k < |SelectColumns(WinTotals)|
    ensures var name, v, r := SelectColumns(WinTotals)[k], rows[i][k], Clean(WinTotals, rows, parse)[i][k];
      && (name !in NumericColumns ==> r == v)
      && (name in NumericColumns && IsNumber(v) && !v.NaN? ==> r == v)
      && (name in NumericColumns && IsNa(v) ==> r == Int(0))
      && (name in NumericColumns && !IsNumber(v) && !v.Null? && parse(v).None? ==> r == Int(0))
      && (name in NumericColumns && !IsNumber(v) && !v.Null? && parse(v).Some? ==>
            r == if parse(v).value.NaN? then Int(0) else parse(v).value)
  {
  }

  /** No transform reads a table that any transform writes. */
  lemma TargetNotSource(a: Transform, b: Transform)
    ensures Target(a) != Source(b)
  {
    assert Source(b)[|Source(b)| - 1] != 'd';
    assert Target(a)[|Target(a)| - 1] == 'd';
  }

  /** Different transforms write different tables. */
  lemma TargetsDiffer(a: Transform, b: Transform)
    requires a != b
    ensures Target(a) != Target(b)
  {
    assert Target(a)[0] != Target(b)[0];
  }

  /** The script runs each transform once. */
  lemma StepsDistinct()
    ensures Distinct(Steps)
  {
  }

  /** A transform changes no table but its target. */
  lemma StepTouchesOnlyTarget(t: Transform, tables: map<string, Table>,
                              rejects: (seq<ColumnDef>, seq<Value>) -> bool, parse: Value -> Option<Number>, n: string)
    requires WellFormed(tables) && n != Target(t)
    ensures n in StepOutcome(t, tables, rejects, parse).1 <==> n in tables
    ensures n in tables ==> StepOutcome(t, tables, rejects, parse).1[n] == tables[n]
  {
  }

  /** A run changes no table but the targets of the transforms it runs. */
  lemma {:induction false} RunTouchesOnlyTargets(steps: seq<Transform>, tables: map<string, Table>,
                                                 rejects: (seq<ColumnDef>, seq<Value>) -> bool,
                                                 parse: Value -> Option<Number>, n: string)
    requires WellFormed(tables) && forall s :: s in steps ==> Target(s) != n
    ensures n in RunOutcome(steps, tables, rejects, parse).1 <==> n in tables
    ensures n in tables ==> RunOutcome(steps, tables, rejects, parse).1[n] == tables[n]
    decreases |steps|
  {
    if |steps| > 0 {
      RunOutcomeStep(steps, tables, rejects, parse);
      var next := StepOutcome(steps[0], tables, rejects, parse).1;
      StepTouchesOnlyTarget(steps[0], tables, rejects, parse, n);
      if StepOutcome(steps[0], tables, rejects, parse).0 {
        assert forall s :: s in steps[1..] ==> s in steps;
        RunTouchesOnlyTargets(steps[1..], next, rejects, parse, n);
      }
    }
  }

  /** Every transform that completed left its target holding its schema and
      every cleaned source row, in source order, and later transforms did
      not disturb it. */
  lemma {:induction false} RunKeepsCommitted(steps: seq<Transform>, tables: map<string, Table>,
                                             rejects: (seq<ColumnDef>, seq<Value>) -> bool,
                                             parse: Value -> Option<Number>, j: nat)
    requires WellFormed(tables) && Distinct(steps)
    requires j < RunOutcome(steps, tables, rejects, parse).0
    ensures Succeeds(steps[j], tables, rejects, parse)
    ensures Target(steps[j]) in RunOutcome(steps, tables, rejects, parse).1
    ensures RunOutcome(steps, tables, rejects, parse).1[Target(steps[j])]
         == Table(Schema(steps[j]), Sent(steps[j], tables, parse))
    ensures |RunOutcome(steps, tables, rejects, parse).1[Target(steps[j])].rows| == |tables[Source(steps[j])].rows|
    decreases |steps|, 1
  {
    if j == 0 {
      RunOutcomeStep(steps, tables, rejects, parse);
      FirstStepKept(steps, tables, rejects, parse);
    } else {
      LaterStepKept(steps, tables, rejects, parse, j);
    }
  }

  lemma {:induction false} LaterStepKept(steps: seq<Transform>, tables: map<string, Table>,
                                             rejects: (seq<ColumnDef>, seq<Value>) -> bool,
                                             parse: Value -> Option<Number>, j: nat)
    requires WellFormed(tables) && Distinct(steps)
    requires 0 < j < RunOutcome(steps, tables, rejects, parse).0
    ensures Succeeds(steps[j], tables, rejects, parse)
    ensures Target(steps[j]) in RunOutcome(steps, tables, rejects, parse).1
    ensures RunOutcome(steps, tables, rejects, parse).1[Target(steps[j])]
         == Table(Schema(steps[j]), Sent(steps[j], tables, parse))
    ensures |RunOutcome(steps, tables, rejects, parse).1[Target(steps[j])].rows| == |tables[Source(steps[j])].rows|
    decreases |steps|, 0
  {
    RunOutcomeStep(steps, tables, rejects, parse);
    var next := StepOutcome(steps[0], tables, rejects, parse).1;
    DistinctTail(steps);
    RunKeepsCommitted(steps[1..], next, rejects, parse, j - 1);
    assert steps[1..][j - 1] == steps[j];
    TargetNotSource(steps[0], steps[j]);
    StepTouchesOnlyTarget(steps[0], tables, rejects, parse, Source(steps[j]));
    SameSource(steps[j], tables, next, rejects, parse);
  }

  /** A run that stops early stops at a transform that could not complete
      on the original tables: its SELECT failed, or MySQL refused a row of
      its batch, in which case its target is left created and empty. */
  lemma {:induction false} RunStopsAtFailure(steps: seq<Transform>, tables: map<string, Table>,
                                             rejects: (seq<ColumnDef>, seq<Value>) -> bool,
                                             parse: Value -> Option<Number>)
    requires WellFormed(tables) && Distinct(steps)
    requires RunOutcome(steps, tables, rejects, parse).0 < |steps|
    ensures var failed, last := steps[RunOutcome(steps, tables, rejects, parse).0], RunOutcome(steps, tables, rejects, parse).1;
      && !Succeeds(failed, tables, rejects, parse)
      && (CanRead(failed, tables) ==> Target(failed) in last && last[Target(failed)] == Table(Schema(failed), []))
    decreases |steps|
  {
    RunOutcomeStep(steps, tables, rejects, parse);
    var next := StepOutcome(steps[0], tables, rejects, parse).1;
    if StepOutcome(steps[0], tables, rejects, parse).0 {
      var c := RunOutcome(steps[1..], next, rejects, parse).0;
      DistinctTail(steps);
      RunStopsAtFailure(steps[1..], next, rejects, parse);
      assert steps[1..][c] == steps[c + 1];
      TargetNotSource(steps[0], steps[c + 1]);
      StepTouchesOnlyTarget(steps[0], tables, rejects, parse, Source(steps[c + 1]));
      SameSource(steps[c + 1], tables, next, rejects, parse);
    }
  }

  /** The first transform, once complete, is not disturbed by the rest. */
  lemma FirstStepKept(steps: seq<Transform>, tables: map<string, Table>,
                      rejects: (seq<ColumnDef>, seq<Value>) -> bool, parse: Value -> Option<Number>)
    requires WellFormed(tables) && Distinct(steps) && |steps| > 0
    requires StepOutcome(steps[0], tables, rejects, parse).0
    ensures var t, last := steps[0], RunOutcome(steps, tables, rejects, parse).1;
      && Succeeds(t, tables, rejects, parse)
      && Target(t) in last && last[Target(t)] == Table(Schema(t), Sent(t, tables, parse))
  {
    RunOutcomeStep(steps, tables, rejects, parse);
    var next := StepOutcome(steps[0], tables, rejects, parse).1;
    DistinctTail(steps);
    forall s | s in steps[1..]
      ensures Target(s) != Target(steps[0])
    {
      TargetsDiffer(s, steps[0]);
    }
    RunTouchesOnlyTargets(steps[1..], next, rejects, parse, Target(steps[0]));
  }

  /** What a transform reads and sends depends on its source table alone. */
  lemma SameSource(t: Transform, a: map<string, Table>, b: map<string, Table>,
                   rejects: (seq<ColumnDef>, seq<Value>) -> bool, parse: Value -> Option<Number>)
    requires WellFormed(a) && WellFormed(b)
    requires Source(t) in a <==> Source(t) in b
    requires Source(t) in a ==> a[Source(t)] == b[Source(t)]
    ensures CanRead(t, a) <==> CanRead(t, b)
    ensures CanRead(t, a) ==> Sent(t, a, parse) == Sent(t, b, parse)
    ensures Succeeds(t, a, rejects, parse) <==> Succeeds(t, b, rejects, parse)
  {
  }

  lemma DistinctTail(steps: seq<Transform>)
    requires Distinct(steps) && |steps| > 0
    ensures Distinct(steps[1..])
    ensures steps[0] !in steps[1..]
  {
    forall i, j | 0 <= i < j < |steps| - 1
      ensures steps[1..][i] != steps[1..][j]
    {
      assert steps[1..][i] == steps[i + 1] && steps[1..][j] == steps[j + 1];
    }
    forall i | 0 <= i < |steps| - 1
      ensures steps[1..][i] != steps[0]
    {
      assert steps[1..][i] == steps[i + 1];
    }
  }
}
