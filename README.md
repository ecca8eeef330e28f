# NFL prediction pipeline: data loading, aggregation and training-data preparation in Dafny

This project models the data-handling core of the NFL-Prediction-Model
scripts. It covers three pieces.

- **Loading** (`create_and_insert_table` in `import_data.py`): a pandas data
  frame is copied into a MySQL table that is dropped and recreated each time.
  - Excluded columns are removed.
  - Infinities and missing values become NULL.
  - A `date_modified` column is coerced to timestamps, and an unreadable date becomes NULL.
  - Column types are inferred from the dtypes.
  - The frame is sent as one INSERT per row. Rows MySQL refuses are reported
    and skipped, and the rest are committed together.
- **Aggregation** (`dataaggregate.py`): four fixed transforms run in order:
  league weekly stats, team descriptions, schedules and win totals. Each one
  - reads fixed columns from a source table;
  - cleans the rows: `fillna`, NaN to None, or numeric coercion;
  - drops and recreates its target with a hand-written schema;
  - inserts every row in one `executemany`, then commits.

  The first error abandons the remaining transforms. What earlier ones committed stays.
- **Training-data preparation** (`testtrain01.py`):
  - the `home_win` label;
  - the five feature columns with gaps filled by 0;
  - one-hot encoding of `home_team` and `away_team`;
  - the 80/20 train/test split.

How the model is built:

- **Values.** Cells are a `Value` datatype (`values.dfy`): None, NaN, the
  infinities, integers, float tokens, strings, timestamps and booleans.
- **Frames.** A pandas frame is a `DataFrame` class whose in-place operations
  (`replace`, `fillna`, `df[c] = ...`) are methods with `modifies` clauses
  (`frames.dfy`).
- **Database.** MySQL is a `Connection` class (`database.dfy`). It holds the
  tables the session sees and the tables that are durable. DDL commits
  implicitly, inserts wait for `commit()`, and `executemany` is atomic.
- **Row rejection.** Which rows MySQL refuses is an oracle fixed for the
  connection.
- **Schema validity.** MySQL creates a table only when it has at least one
  column, every column name has 1 to 64 characters, and no two names are equal
  ignoring letter case; a table name written unquoted must be a plain
  identifier of at most 64 characters.
- **SQL text.** The loader's SQL text is built character for character. A
  small parser for exactly those statement shapes (`sql.dfy`) turns it back
  into statements, with round-trip lemmas. `ExecuteSql` runs text through
  this parser, so a malformed table name is a syntax error that does
  nothing.
- **Specifications.** Each script is a method proved against a functional
  specification:
  - `Loader.Loaded` for the loader;
  - `Aggregate.RunOutcome` for the aggregation;
  - `Features.GetDummies`, `Features.HomeWins` and `Features.TrainTestSplit` for training.

  The promised properties are then proved as lemmas about those functions.

## Model

| member | source | states |
|---|---|---|
| Frames.Without | import_data.py:26 | the kept column list is no longer than the frame's |
| Frames.WithoutKeepsOrder | import_data.py:25-26 | two kept columns appear in the same relative order as in the frame |
| Frames.WithoutMembers | import_data.py:25-26 | a column is kept exactly when it is a frame column and not excluded, so excluded names that are not columns are ignored |
| Frames.WithoutDistinct | import_data.py:26 | the kept column names are still distinct |
| Frames.WithoutNothing | import_data.py:25-26 | an empty exclusion list keeps every column in order |
| Frames.SelectRows | import_data.py:26 | a selection has one row per frame row, each holding the named cells in the order asked |
| Frames.MapRows | import_data.py:29-30 | a cell-wise rewrite keeps row count and row widths, and rewrites every cell |
| Values.FillZero | dataaggregate.py:39 | after `fillna(0)` a cell is not missing, and a cell that was not missing is unchanged |
| Values.NaToNull | dataaggregate.py:106 | `None if pd.isna(v) else v` leaves no NaN, keeps missing cells missing and keeps every other cell |
| Frames.DataFrame.constructor | dataaggregate.py:36 | a frame built from rows holds exactly those names, dtypes and rows |
| Frames.DataFrame.Select | testtrain01.py:34 | `df[cols]` is a fresh frame with exactly those columns in that order, the original untouched |
| Frames.DataFrame.Replace | import_data.py:29 | an in-place rewrite keeps the header and maps every cell |
| Frames.DataFrame.Where | import_data.py:30 | `where` returns a fresh frame with every cell rewritten and the header kept |
| Frames.DataFrame.Column | testtrain01.py:35 | `df[name]` has one value per row, the cell under that name |
| Frames.DataFrame.SetColumn | testtrain01.py:31 | `df[name] = values` overwrites the named column in place, or appends it as the last column; nothing else changes |
| Sql.ParseDropSql | import_data.py:37 | the DROP text reads back as a drop of exactly that table |
| Sql.ParseDropSqlRejects | import_data.py:37 | a DROP of a name that is not a plain identifier of at most 64 characters is a syntax error |
| Sql.DropSql | import_data.py:37 | the DROP text; it has no contract of its own, and Sql.ParseDropSql and Sql.ParseDropSqlRejects state what it means to MySQL |
| Sql.CreateSql | import_data.py:56 | the CREATE text around the joined column definitions; no contract of its own, Sql.ParseCreateSql and Sql.CreateSqlTable state what it means |
| Sql.ParseCreateSql | import_data.py:41-56 | the CREATE text reads back as a creation of that table with exactly one definition per column, in frame order, with the inferred types |
| Sql.CreateSqlTable | import_data.py:56 | whatever the column texts, the CREATE text is a syntax error or creates the table it names |
| Sql.ParseInsertSql | import_data.py:59-62 | the INSERT text reads back as an insert naming every column in frame order with as many placeholders as values |
| Sql.InsertSqlTable | import_data.py:62 | whatever the column list, the INSERT text is a syntax error or inserts into the table it names |
| Sql.ColumnList | import_data.py:59 | the backquoted, comma-joined column list; no contract of its own, Sql.ParseInsertSql states that it reads back as the frame's columns |
| Sql.InsertSql | import_data.py:62 | the INSERT text with one `%s` per value; no contract of its own, Sql.ParseInsertSql and Sql.InsertSqlTable state what it means |
| Database.Connection.constructor | import_data.py:12-21 | an open connection sees the stored tables, with nothing pending |
| Database.Connection.Execute | import_data.py:37 | a statement applies or fails as a whole; DROP and CREATE commit implicitly, an INSERT stays pending |
| Database.Connection.ExecuteSql | import_data.py:64 | statement text that does not parse raises and changes nothing; otherwise it runs as its statement |
| Database.Connection.ExecuteMany | dataaggregate.py:66 | `executemany` inserts the whole batch or nothing, and commits nothing |
| Database.Connection.Commit | import_data.py:67 | commit makes what the session sees durable |
| Database.Connection.Select | dataaggregate.py:33-36 | a SELECT fails unless the table and all named columns exist, and returns every stored row in order with the named columns |
| Database.ApplyKeepsWellFormed | import_data.py:56 | a successful statement keeps every table's rows as wide as its schema |
| Database.ApplyManyKeepsWellFormed | dataaggregate.py:66 | a successful batch keeps every table's rows as wide as its schema |
| Database.Apply | import_data.py:37-64 | what MySQL does with one DROP, CREATE or INSERT; no contract of its own, Database.Connection.Execute, Database.ApplyKeepsWellFormed, Loader.CreateFresh and Loader.InsertOutcome state its effects |
| Database.ApplyMany | dataaggregate.py:66 | what MySQL does with an `executemany` batch; no contract of its own, Database.Connection.ExecuteMany and Aggregate.BatchIntoEmpty state its effects |
| Database.Accepts | import_data.py:62-66 | when MySQL takes one INSERT: the table exists, every column is listed in order, one value per placeholder, and the row is not refused; no contract of its own |
| Database.ValidNamesDistinct | import_data.py:56 | column names MySQL accepts are distinct |
| Database.CaseClash | import_data.py:56 | two column names equal ignoring letter case, such as `A` and `a`, make MySQL refuse the table |
| Database.LowerNamesValid | dataaggregate.py:44-57 | distinct column names without capital letters and of 1 to 64 characters are accepted |
| Loader.KeptDtypes | import_data.py:26 | one dtype per kept column |
| Loader.KeptColumns | import_data.py:25-26 | a column is kept exactly when it is a frame column and not excluded; with no exclusion list every column is kept in order |
| Loader.KeptRows | import_data.py:26 | the projection keeps every row, each as wide as the kept columns |
| Loader.PreparedRows | import_data.py:29-34 | the cleaned frame keeps every row and its width |
| Loader.PreparedDtypes | import_data.py:34 | one dtype per column after the date coercion |
| Loader.ReplaceInf | import_data.py:29 | no cell is an infinity afterwards; an infinity becomes None and every other cell is unchanged |
| Loader.ToDatetime | import_data.py:34 | a coerced date is NULL or a timestamp, and a missing value is NULL |
| Loader.SqlTypeFor | import_data.py:42-53 | the chosen type is one of TEXT, FLOAT, INT and DATETIME, and it is DATETIME exactly for `date_modified` or a datetime64 column |
| Loader.InferredSchema | import_data.py:40-53 | the table has exactly the frame's columns, in frame order |
| Loader.Accepted | import_data.py:60-66 | no more rows are stored than sent; Loader.AcceptedStep and Loader.AcceptedMembers state which ones, in order |
| Loader.Prepare | import_data.py:25-34 | the prepared frame is the projection with infinities and NaN turned into None and `date_modified` coerced; the caller's frame is rewritten in place only when nothing is excluded |
| Loader.ColumnDefinitions | import_data.py:40-53 | the loop yields one `` `name` TYPE `` text per column, in frame order, with the inferred type |
| Loader.InsertRows | import_data.py:59-66 | the per-row loop leaves the table holding its earlier rows followed by exactly the accepted rows in frame order; other tables and the committed state are untouched |
| Loader.InsertRowsStep | import_data.py:59-66 | one pass of the row loop appends the row to what the earlier rows left, unless MySQL refuses it |
| Loader.InsertRow | import_data.py:61-66 | one INSERT appends the row with missing values as NULL, or is caught and changes nothing |
| Loader.InsertOutcome | import_data.py:62-64 | the INSERT parses, touches only its table, and succeeds exactly when MySQL accepts the row |
| Loader.InsertTouchesOnlyTable | import_data.py:64 | an INSERT that parses changes no other table |
| Loader.DropTable | import_data.py:37 | the DROP removes the table if present and commits; a name MySQL cannot read changes nothing |
| Loader.CreateEmptyTable | import_data.py:56 | the CREATE adds the table empty with the inferred schema and touches no other table; when MySQL refuses the column names (none, an empty or over-long one, two equal ignoring case) it fails and the table stays absent |
| Loader.CreateParsed | import_data.py:41-56 | the CREATE text of a frame whose column names hold no backtick reads back as the inferred schema, whether or not MySQL then accepts it |
| Loader.RecreateTable | import_data.py:37-56 | drop then create: a bad table name changes nothing; column names MySQL refuses leave the table dropped and fail; otherwise the table ends recreated, empty, with the inferred schema, and everything is committed |
| Loader.CreateOutcome | import_data.py:56 | the CREATE after the DROP yields a fresh empty table with the inferred schema, or fails without a table when MySQL refuses the column names |
| Loader.CreateTouchesOnlyTable | import_data.py:56 | a CREATE changes no other table |
| Loader.CreateFresh | import_data.py:56 | `CREATE TABLE IF NOT EXISTS` on an absent table adds it empty |
| Loader.CreateAndInsertTable | import_data.py:24-67 | the whole load: with a valid table name only that table changes and all of it is committed; column names MySQL refuses leave the table dropped and fail; otherwise the table equals `Loaded(...)` (inferred schema, accepted prepared rows in order) |
| Loader.Loaded | import_data.py:24-67 | the loaded table has exactly the kept columns, in order, and no more rows than the frame |
| Loader.LoadedSteps | import_data.py:24-67 | dropping, creating and then inserting the rows one by one yields exactly `Loaded(...)` |
| Loader.PreparedRowsSteps | import_data.py:29-34 | replace, where and the date coercion applied in turn give the prepared rows |
| Loader.PreparedRowStep | import_data.py:29-34 | the same, for one row |
| Loader.PreparedDtypesSteps | import_data.py:34 | the dtype update of the date coercion gives the prepared dtypes |
| Loader.PreparedRowsAreSent | import_data.py:61 | the per-row `None if pd.isna` rewrite changes no prepared cell |
| Loader.PreparedCells | import_data.py:29-34 | no sent value is NaN or an infinity; outside `date_modified` every finite value is sent unchanged and every non-finite one becomes NULL; a `date_modified` cell is NULL or a timestamp |
| Loader.InferredTypes | import_data.py:40-53 | the type decision table as iffs: DATETIME for `date_modified` or datetime64, otherwise FLOAT for float64, INT for int64, TEXT for object and every other dtype |
| Loader.LoadedDateColumn | import_data.py:33-45 | in the loaded table `date_modified` is DATETIME and holds only NULL or timestamps |
| Loader.AcceptedStep | import_data.py:60-66 | sending one more row extends the stored rows by it exactly when MySQL accepts it |
| Loader.AcceptedMembers | import_data.py:60-66 | a row is stored exactly when it was sent and MySQL accepts it |
| Loader.AcceptedAll | import_data.py:60-66 | when nothing is refused, every row is stored in order |
| Loader.AcceptedSplits | import_data.py:60-66 | a refused row does not stop later rows: the stored rows of a concatenation are the concatenation of the stored rows |
| Aggregate.CoercedRows | dataaggregate.py:145-146 | coercing columns keeps every row and its width |
| Aggregate.ToNumeric | dataaggregate.py:146 | `pd.to_numeric(errors='coerce')` yields a number, keeps numbers as they are, and turns None into NaN |
| Aggregate.CoerceNumeric | dataaggregate.py:146 | after the coercion and `fillna(0)` a cell is a non-missing number, and a number other than NaN is unchanged |
| Aggregate.FillUnknown | dataaggregate.py:40 | after `fillna('Unknown')` a cell is not missing, and a cell that was not missing is unchanged |
| Aggregate.Clean | dataaggregate.py:38-40 | each transform's cleaning keeps row count and width |
| Aggregate.SourceRows | dataaggregate.py:33-36 | the SELECT returns one row per stored row, as wide as the column list |
| Aggregate.Sent | dataaggregate.py:66 | each transform sends one cleaned row per source row, so no row is filtered out |
| Aggregate.SelectColumns | dataaggregate.py:29-32 | the column list of each SELECT (this one and those at lines 71, 98 and 135-138); no contract of its own, Aggregate.TransformShapes relates it to the schemas |
| Aggregate.Schema | dataaggregate.py:44-57 | the hand-written CREATE schemas (this one and those at lines 79-84, 112-121 and 150-161); no contract of its own, Aggregate.TransformShapes and Aggregate.SchemaNamesValid state that MySQL accepts them |
| Aggregate.InsertColumns | dataaggregate.py:62-64 | the column lists of the hand-written INSERTs (this one and those at lines 89-91, 126-128 and 166-168); no contract of its own, Aggregate.TransformShapes states that they match the schemas |
| Aggregate.StepOutcome | dataaggregate.py:28-68 | one transform's outcome: a failed SELECT changes nothing, otherwise the target is recreated and holds the cleaned rows or, if MySQL refuses one, nothing; no contract of its own, Aggregate.RunStep, Aggregate.StepTouchesOnlyTarget and Aggregate.StepKeepsWellFormed state its properties |
| Aggregate.RunOutcome | dataaggregate.py:174-177 | a run completes at most the number of transforms |
| Aggregate.Publish | dataaggregate.py:43-67 | drop, create, batch insert, commit: the target holds exactly the given rows when none is refused, else it stays created and empty; everything is committed |
| Aggregate.BatchIntoEmpty | dataaggregate.py:66 | the batch INSERT into the freshly created table succeeds exactly when MySQL takes every row, and then the table holds all of them in order |
| Aggregate.CleanRows | dataaggregate.py:104-108 | the in-place cleaning of each transform equals its cleaning function |
| Aggregate.CoerceColumns | dataaggregate.py:145-146 | the column loop coerces exactly the listed columns, in place |
| Aggregate.RunStep | dataaggregate.py:28-68 | one transform, as `StepOutcome` states: a failed SELECT changes nothing; otherwise the target is published |
| Aggregate.Run | dataaggregate.py:28-177 | the script completes the transforms in order and stops at the first failure, as `RunOutcome` states |
| Aggregate.RunOutcomeStep | dataaggregate.py:174-177 | a run is its first transform followed, only on success, by the rest |
| Aggregate.RunPrefixStep | dataaggregate.py:174-177 | after k completed transforms, the next one either ends the run with k completed and the tables it left, or extends the completed prefix by one |
| Aggregate.TransformShapes | dataaggregate.py:45-64 | each SELECT list and INSERT list equals the CREATE column list name for name, and the placeholder count equals the column count |
| Aggregate.SchemaNamesValid | dataaggregate.py:44-57 | MySQL accepts the column names of each hand-written CREATE (no two equal ignoring case, none longer than 64 characters) |
| Aggregate.StepKeepsWellFormed | dataaggregate.py:43-67 | a transform keeps every table well formed |
| Aggregate.LeagueFill | dataaggregate.py:39-40 | after `fillna(0)` nothing is missing, so the `'Unknown'` fill changes nothing and every missing league value ends as 0 |
| Aggregate.ScheduleCleaning | dataaggregate.py:105-108 | schedule cleaning keeps row count and width, maps missing values to None, and keeps every other value |
| Aggregate.WinTotalsCoercion | dataaggregate.py:145-146 | in the four odds columns numbers keep their value and missing or unreadable values become 0; other columns are unchanged |
| Aggregate.StepsDistinct | dataaggregate.py:174-177 | the script runs each transform once |
| Aggregate.TargetNotSource | dataaggregate.py:28-172 | no transform writes a table that any transform reads |
| Aggregate.TargetsDiffer | dataaggregate.py:28-172 | different transforms write different tables |
| Aggregate.StepTouchesOnlyTarget | dataaggregate.py:43-67 | a transform changes no table but its target |
| Aggregate.RunTouchesOnlyTargets | dataaggregate.py:28-177 | a run changes no table but the targets of the transforms it runs |
| Aggregate.RunKeepsCommitted | dataaggregate.py:174-177 | every completed transform left its target holding its schema and every cleaned source row in order, and later transforms did not disturb it |
| Aggregate.FirstStepKept | dataaggregate.py:174-177 | once the first transform completes, its target keeps its schema and every cleaned source row through the rest of the run |
| Aggregate.LaterStepKept | dataaggregate.py:174-177 | a later completed transform read the same source as it would have at the start, and its target survives the run |
| Aggregate.RunStopsAtFailure | dataaggregate.py:174-177 | a run that stops early stops at a transform that could not complete on the original tables, and a refused batch leaves that target empty |
| Aggregate.SameSource | dataaggregate.py:33-36 | what a transform reads and sends depends on its source table alone |
| Features.HomeWin | testtrain01.py:31 | the label is 0 or 1 |
| Features.HomeWins | testtrain01.py:31 | one label per game, computed from its two scores |
| Features.LabelOfMissingScore | testtrain01.py:31 | the label is 1 exactly when the home score exceeds the away score; a missing score or a tie gives 0 |
| Features.Categories | testtrain01.py:41 | a column's categories are sorted and are exactly its non-missing values |
| Features.Insert | testtrain01.py:41 | adding a value to the categories adds exactly that value |
| Features.InsertSorted | testtrain01.py:41 | adding a value keeps the categories sorted |
| Features.LessIrreflexive | testtrain01.py:41 | the category order is irreflexive |
| Features.LessTransitive | testtrain01.py:41 | the category order is transitive |
| Features.LessTotal | testtrain01.py:41 | the category order is total |
| Features.SortedDistinct | testtrain01.py:41 | sorted categories are distinct |
| Features.Indicators | testtrain01.py:41 | the indicator columns are exactly one per encoded column and category |
| Features.GetDummies | testtrain01.py:41 | encoding keeps the row count, and every row has one cell per feature |
| Features.EncodedMembers | testtrain01.py:41 | the encoded columns are the non-encoded ones first, in their order, and one indicator per non-missing value of each encoded column |
| Features.EncodedCells | testtrain01.py:41 | every encoded cell is its feature's value in the same input row: the kept value, or whether the row holds that category |
| Features.EncodedDistinct | testtrain01.py:41 | no two encoded columns are the same |
| Features.ExactlyOneIndicator | testtrain01.py:41 | in every row exactly one indicator of each encoded column is set, the one for the row's value, or none when it is missing |
| Features.Filled | testtrain01.py:34-38 | the selected, filled features keep every row, five cells each |
| Features.LabelColumnEffect | testtrain01.py:31 | adding the label column leaves every other column and the feature selection unchanged |
| Features.AddLabel | testtrain01.py:31 | the frame gains or overwrites `home_win` with the labels, or is untouched when a score column is missing |
| Features.EncodeFeatures | testtrain01.py:34-41 | the features are selected, filled with 0 and encoded; the labels are the `home_win` column |
| Features.PrepareData | testtrain01.py:31-41 | the prepared data exist exactly when all five feature columns do, and are the encoding of the filled features and the labels of the original rows |
| Features.NumericFeaturesKept | testtrain01.py:34-41 | `week`, `home_score` and `away_score` are the columns not encoded, in that order |
| Features.PreparedKept | testtrain01.py:34-41 | encoded rows, labels and games line up one to one; `week`, `home_score` and `away_score` are the first three features, with missing values read as 0 |
| Features.PreparedTeams | testtrain01.py:38-41 | every game has exactly one `home_team_` and exactly one `away_team_` indicator set, the one for its own team |
| Features.TestSize | testtrain01.py:44 | the test size is `ceil(0.2 n)` |
| Features.TrainTestSplit | testtrain01.py:44 | the split exists exactly when the training set is not empty, that is, when there are at least two rows |
| Features.PermutationHalves | testtrain01.py:44 | the test and training positions are each free of repeats, and every row position is in exactly one of them |
| Features.SplitPartitions | testtrain01.py:43-44 | every row lands in exactly one of train or test, once, with its own label; the test set has `ceil(0.2 n)` rows |

## Left out

- I/O is not modelled: connection setup and closing, database creation, cursors, prints and the error reports.
  - `execute_and_print` only adds a print to `cursor.execute`.
  - The report of a refused row (import_data.py:65-66) is printed and the row loop goes on; the model skips that row and continues.
  - The reports at import_data.py:113-114 and dataaggregate.py:174-177 end the script; the model represents them by a failure result.
- The `nfl_data_py` downloads in `import_data.py` are not modelled. Each frame they return is an input of the loader.
- LightGBM training, early stopping, prediction, accuracy and model saving are not modelled. They are library numerics.
- `testpredict01.py` is not modelled. It builds a constant feature vector and thresholds a library prediction.
- Floating point is not modelled.
  - A float is an opaque token, and only NaN and the infinities are told apart.
  - `pd.to_datetime` and `pd.to_numeric` are oracles (`parseDate`, `parse`).
  - A comparison of two non-integer scores uses the oracle `greater`.
  - `Features.Less` orders float tokens and timestamps by their tokens, not by their numeric value.
  - `Features.Less` puts every integer before every float, and keeps `True`, `1` and a float equal to 1 as three categories. pandas' `factorize` merges equal numbers and orders integers and floats together by value. The encoded team columns hold strings and the 0 of `fillna(0)`, so they never meet this case.
- MySQL's own type checks and conversions are not modelled. The only things modelled are:
  - whether a row is refused, via the `rejects` oracle;
  - schema validity (at least one column, names of 1 to 64 characters, no two names equal ignoring ASCII letter case);
  - statement shape.
- Database.Connection.Execute: an INSERT must list every column of the table, in schema order. The statements of both scripts always do.
- Loader.Prepare: the dtype changes caused by `replace` and `where` are not modelled, and each column keeps its dtype except `date_modified`. As a result, a float column that held NaN stays FLOAT in the inferred schema.
- Loader.Prepare: the in-place `replace` on a projected frame writes to a copy, so the caller's frame changes only when nothing is excluded. This is stated, but pandas' SettingWithCopy warning is not modelled.
- Loader.CreateAndInsertTable: the upcasting of integers to floats by `iterrows` in mixed frames is not modelled. Values are sent as stored.
- Loader.CreateAndInsertTable: `NaT` is written directly as NULL. The source turns it into None through `pd.isna` as well.
- Aggregate.CleanRows: every dtype of the transform frames is taken as `object`, so a NULL fetched from MySQL stays None. In pandas, `pd.DataFrame(rows)` (dataaggregate.py:36, 75, 102 and 142) gives a column whose other values are all numbers a float dtype, and a NULL there becomes NaN. The league (`fillna(0)`, line 39), the schedule (NaN to None, line 106) and the four coerced win-total columns (line 146) then treat that NaN as they treat None. A numeric `team_id` (line 93) and the win totals' `season` (line 170) are sent as NaN where the model sends NULL, and integers in such a column become floats.
- The aggregation's hand-written SQL texts are modelled as the statements they denote. The loader's generated texts are modelled character for character.
- Features.TestSize: the test size is computed in exact arithmetic as `(n + 4) / 5`. The floating-point `ceil(0.2 * n)` of the library is not modelled.
- Features.TrainTestSplit: the shuffle drawn with `random_state=42` is an input permutation.
- Features.GetDummies: indicator columns are named by the `Feature` datatype, not by the rendered text `<prefix>_<category>`. Two features whose rendered names would coincide are therefore still told apart.
- Loader.CreateAndInsertTable: when a column name contains a backtick, the model promises only that the named table alone changes.
- MySQL's identifier rules are modelled only in part. An unquoted table name that is a reserved word (such as `order`) or that is all digits is a syntax error in MySQL, but the model accepts any plain identifier of up to 64 characters. None of the table names passed at import_data.py:75-104 is either. Column names are compared with ASCII case folding only, and a column name that ends in a space, which MySQL also refuses, is accepted.
- The league `fillna('Unknown')` is modelled as written. After `fillna(0)` it changes nothing, so text gaps become 0 rather than `'Unknown'` (Aggregate.LeagueFill).
