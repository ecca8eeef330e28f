/** Preparation of the training data for the home-win classifier: the
    `home_win` label, the feature columns with missing values filled, the
    one-hot encoding of the two team columns (`pd.get_dummies`) and the
    80/20 train/test partition (`train_test_split`). */
module Features {
  import opened Values
  import opened Frames

  const HomeScore := "home_score"
  const AwayScore := "away_score"
  const LabelColumn := "home_win"

  /** The feature columns, in the order they are selected. */
  const FeatureColumns: seq<string> := ["week", "home_team", "away_team", "home_score", "away_score"]

  /** The feature columns that are one-hot encoded. */
  const Categorical: seq<string> := ["home_team", "away_team"]

  // ---------------------------------------------------------------------
  // The label

  /** `(home_score > away_score).astype(int)` for one game. A comparison
      with a missing score is false. Integer scores compare by value; any
      other pair of numbers is compared by the oracle `greater` (the float
      comparison, which this model does not compute). */
  function HomeWin(home: Value, away: Value, greater: (Value, Value) -> bool): (r: Value)
    ensures r == Int(0) || r == Int(1)
  {
    if IsNa(home) || IsNa(away) then Int(0)
    else if home.Int? && away.Int? then (if home.i > away.i then Int(1) else Int(0))
    else if greater(home, away) then Int(1)
    else Int(0)
  }

  /** The label column, one value per row. */
  function HomeWins(names: seq<string>, rows: seq<seq<Value>>, greater: (Value, Value) -> bool): (r: seq<Value>)
    requires Aligned(|names|, rows) && HomeScore in names && AwayScore in names
    ensures |r| == |rows|
    ensures forall i :: 0 <= i < |rows| ==>
      r[i] == HomeWin(rows[i][IndexOf(names, HomeScore)], rows[i][IndexOf(names, AwayScore)], greater)
  {
    var h, a := IndexOf(names, HomeScore), IndexOf(names, AwayScore);
    seq(|rows|, i requires 0 <= i < |rows| => HomeWin(rows[i][h], rows[i][a], greater))
  }

  // ---------------------------------------------------------------------
  // The order of categories

  /** Python's string order: lexicographic by code point, a proper prefix first. */
  predicate TextLess(a: string, b: string)
    decreases |a|
  {
    if |a| == 0 then |b| > 0
    else if |b| == 0 then false
    else if a[0] != b[0] then a[0] < b[0]
    else TextLess(a[1..], b[1..])
  }

  /** The kinds of value in the order the category sort places them:
      numbers before strings. */
  function Rank(v: Value): nat
  {
    match v
    case Null => 0
    case NaN => 1
    case PosInf => 2
    case NegInf => 3
    case Int(_) => 4
    case Num(_) => 5
    case Str(_) => 6
    case Timestamp(_) => 7
    case Bool(_) => 8
  }

  /** The order in which `get_dummies` lists the categories of a column:
      integers by value, strings as Python orders them, kinds by `Rank`.
      Float tokens and timestamps are ordered by their tokens. */
  predicate Less(a: Value, b: Value)
  {
    match (a, b)
    case (Int(x), Int(y)) => x < y
    case (Num(x), Num(y)) => x < y
    case (Str(x), Str(y)) => TextLess(x, y)
    case (Timestamp(x), Timestamp(y)) => x < y
    case (Bool(x), Bool(y)) => !x && y
    case _ => Rank(a) < Rank(b)
  }

  predicate Sorted(s: seq<Value>)
  {
    forall i, j :: 0 <= i < j < |s| ==> Less(s[i], s[j])
  }

  lemma {:induction false} TextLessIrreflexive(a: string)
    ensures !TextLess(a, a)
    decreases |a|
  {
    if |a| > 0 {
      TextLessIrreflexive(a[1..]);
    }
  }

  lemma {:induction false} TextLessTransitive(a: string, b: string, c: string)
    requires TextLess(a, b) && TextLess(b, c)
    ensures TextLess(a, c)
    decreases |a|
  {
    if |a| > 0 && a[0] == b[0] && b[0] == c[0] {
      TextLessTransitive(a[1..], b[1..], c[1..]);
    }
  }

  lemma {:induction false} TextLessTotal(a: string, b: string)
    requires a != b
    ensures TextLess(a, b) || TextLess(b, a)
    decreases |a|
  {
    if |a| > 0 && |b| > 0 && a[0] == b[0] {
      assert a == [a[0]] + a[1..] && b == [b[0]] + b[1..];
      TextLessTotal(a[1..], b[1..]);
    }
  }

  /** `Less` is a strict total order. */
  lemma LessIrreflexive(a: Value)
    ensures !Less(a, a)
  {
    if a.Str? {
      TextLessIrreflexive(a.s);
    }
  }

  lemma LessTransitive(a: Value, b: Value, c: Value)
    requires Less(a, b) && Less(b, c)
    ensures Less(a, c)
  {
    if a.Str? && b.Str? && c.Str? {
      TextLessTransitive(a.s, b.s, c.s);
    }
  }

  lemma LessTotal(a: Value, b: Value)
    requires a != b
    ensures Less(a, b) || Less(b, a)
  {
    if a.Str? && b.Str? {
      TextLessTotal(a.s, b.s);
    }
  }

  /** `s` with `v` added in its place, unless it is already there. */
  function Insert(s: seq<Value>, v: Value): (r: seq<Value>)
    ensures forall x :: x in r <==> x in s || x == v
  {
    if |s| == 0 then [v]
    else if v == s[0] then s
    else if Less(v, s[0]) then [v] + s
    else [s[0]] + Insert(s[1..], v)
  }

  lemma {:induction false} InsertSorted(s: seq<Value>, v: Value)
    requires Sorted(s)
    ensures Sorted(Insert(s, v))
  {
    if |s| == 0 || v == s[0] {
    } else if Less(v, s[0]) {
      var r := [v] + s;
      forall i, j | 0 <= i < j < |r|
        ensures Less(r[i], r[j])
      {
        if i == 0 && j > 1 {
          LessTransitive(v, s[0], s[j - 1]);
        }
      }
    } else {
      LessTotal(v, s[0]);
      assert Sorted(s[1..]);
      InsertSorted(s[1..], v);
      var tail := Insert(s[1..], v);
      var r := [s[0]] + tail;
      forall i, j | 0 <= i < j < |r|
        ensures Less(r[i], r[j])
      {
        if i == 0 {
          assert r[j] in tail;
          if r[j] != v {
            assert r[j] in s[1..];
            var k :| 0 <= k < |s[1..]| && s[1..][k] == r[j];
            assert s[k + 1] == r[j];
          }
        }
      }
    }
  }

  /** The distinct non-missing values of a column, sorted: the columns
      `get_dummies` creates for it. */
  function Categories(column: seq<Value>): (r: seq<Value>)
    ensures Sorted(r)
    ensures forall x :: x in r <==> x in column && !IsNa(x)
  {
    if |column| == 0 then []
    else
      var init, last := column[..|column| - 1], column[|column| - 1];
      assert column == init + [last];
      var c := Categories(init);
      if IsNa(last) then c
      else InsertSorted(c, last); Insert(c, last)
  }

  /** A sorted list of categories names each category once. */
  lemma SortedDistinct(s: seq<Value>)
    requires Sorted(s)
    ensures Distinct(s)
  {
    forall i, j | 0 <= i < j < |s|
      ensures s[i] != s[j]
    {
      LessIrreflexive(s[i]);
    }
  }

  // ---------------------------------------------------------------------
  // One-hot encoding

  /** A column of the encoded frame: a kept column, or the indicator of one
      category of an encoded column (named `<prefix>_<category>`). */
  datatype Feature = Named(name: string) | Indicator(prefix: string, category: Value)

  /** The input column a feature is computed from. */
  function Origin(f: Feature): string
  {
    if f.Named? then f.name else f.prefix
  }

  /** The cell of feature `f` in an input row: the kept value, or whether
      the row holds the indicator's category. */
  function Cell(names: seq<string>, row: seq<Value>, f: Feature): Value
    requires |row| == |names| && Origin(f) in names
  {
    match f
    case Named(n) => row[IndexOf(names, n)]
    case Indicator(c, v) => Bool(row[IndexOf(names, c)] == v)
  }

  /** The values of column `c`. */
  function ColumnValues(names: seq<string>, rows: seq<seq<Value>>, c: string): (r: seq<Value>)
    requires Aligned(|names|, rows) && c in names
    ensures |r| == |rows|
  {
    ColumnOf(rows, IndexOf(names, c))
  }

  /** The indicator columns of the encoded columns, column by column and
      each column's categories in order. */
  function Indicators(names: seq<string>, rows: seq<seq<Value>>, columns: seq<string>): (r: seq<Feature>)
    requires Aligned(|names|, rows) && forall c :: c in columns ==> c in names
    ensures forall f :: f in r <==>
      f.Indicator? && f.prefix in columns && f.category in Categories(ColumnValues(names, rows, f.prefix))
    decreases |columns|
  {
    if |columns| == 0 then []
    else
      var cats := Categories(ColumnValues(names, rows, columns[0]));
      var block := seq(|cats|, k requires 0 <= k < |cats| => Indicator(columns[0], cats[k]));
      assert forall f :: f in block <==> f.Indicator? && f.prefix == columns[0] && f.category in cats by {
        forall f: Feature | f.Indicator? && f.prefix == columns[0] && f.category in cats
          ensures f in block
        {
          var k :| 0 <= k < |cats| && cats[k] == f.category;
          assert block[k] == f;
        }
      }
      block + Indicators(names, rows, columns[1..])
  }

  /** The kept columns, in their original order. */
  function Kept(names: seq<string>, columns: seq<string>): (r: seq<Feature>)
    ensures |r| == |Without(names, columns)|
  {
    var w := Without(names, columns);
    seq(|w|, k requires 0 <= k < |w| => Named(w[k]))
  }

  /** The frame `pd.get_dummies` returns: its columns and its rows. */
  datatype Encoded = Encoded(features: seq<Feature>, rows: seq<seq<Value>>)

  /** `pd.get_dummies(frame, columns=columns)`: the columns not encoded
      stay, in their order, followed by one indicator column per category
      of each encoded column; each row is rewritten cell by cell. */
  function GetDummies(names: seq<string>, rows: seq<seq<Value>>, columns: seq<string>): (r: Encoded)
    requires Aligned(|names|, rows) && forall c :: c in columns ==> c in names
    ensures |r.rows| == |rows| && Aligned(|r.features|, r.rows)
  {
    WithoutMembers(names, columns);
    var fs := Kept(names, columns) + Indicators(names, rows, columns);
    assert forall f :: f in fs ==> Origin(f) in names by {
      forall f | f in fs
        ensures Origin(f) in names
      {
        if f in Kept(names, columns) {
          var k :| 0 <= k < |Kept(names, columns)| && Kept(names, columns)[k] == f;
          assert Without(names, columns)[k] in Without(names, columns);
        }
      }
    }
    Encoded(fs, seq(|rows|, i requires 0 <= i < |rows| =>
      seq(|fs|, p requires 0 <= p < |fs| => Cell(names, rows[i], fs[p]))))
  }

  lemma DistinctConcat<T>(a: seq<T>, b: seq<T>)
    requires Distinct(a) && Distinct(b)
    requires forall x :: x in a ==> x !in b
    ensures Distinct(a + b)
  {
    forall i, j | 0 <= i < j < |a + b|
      ensures (a + b)[i] != (a + b)[j]
    {
      if i < |a| <= j {
        assert (a + b)[i] in a && (a + b)[j] == b[j - |a|];
      }
    }
  }

  lemma {:induction false} IndicatorsDistinct(names: seq<string>, rows: seq<seq<Value>>, columns: seq<string>)
    requires Aligned(|names|, rows) && forall c :: c in columns ==> c in names
    requires Distinct(columns)
    ensures Distinct(Indicators(names, rows, columns))
    decreases |columns|
  {
    if |columns| > 0 {
      var cats := Categories(ColumnValues(names, rows, columns[0]));
      var block := seq(|cats|, k requires 0 <= k < |cats| => Indicator(columns[0], cats[k]));
      SortedDistinct(cats);
      HeadNotInTail(columns);
      IndicatorsDistinct(names, rows, columns[1..]);
      DistinctConcat(block, Indicators(names, rows, columns[1..]));
    }
  }

  /** The encoded frame has no two equal columns, so each feature names one
      position. */
  lemma EncodedDistinct(names: seq<string>, rows: seq<seq<Value>>, columns: seq<string>)
    requires Aligned(|names|, rows) && forall c :: c in columns ==> c in names
    requires Distinct(names) && Distinct(columns)
    ensures Distinct(GetDummies(names, rows, columns).features)
  {
    var w := Without(names, columns);
    WithoutDistinct(names, columns);
    assert Distinct(Kept(names, columns)) by {
      forall i, j | 0 <= i < j < |w|
        ensures Kept(names, columns)[i] != Kept(names, columns)[j]
      {
      }
    }
    IndicatorsDistinct(names, rows, columns);
    DistinctConcat(Kept(names, columns), Indicators(names, rows, columns));
  }

  /** The encoded frame's columns: every column not encoded, in its
      original order, and one indicator for exactly the non-missing values
      of each encoded column. */
  lemma EncodedMembers(names: seq<string>, rows: seq<seq<Value>>, columns: seq<string>)
    requires Aligned(|names|, rows) && forall c :: c in columns ==> c in names
    ensures var e := GetDummies(names, rows, columns);
      && (forall k :: 0 <= k < |Without(names, columns)| ==> e.features[k] == Named(Without(names, columns)[k]))
      && (forall f :: f in e.features <==>
           || (f.Named? && f.name in names && f.name !in columns)
           || (f.Indicator? && f.prefix in columns && f.category in ColumnValues(names, rows, f.prefix) && !IsNa(f.category)))
  {
    var w := Without(names, columns);
    WithoutMembers(names, columns);
    var e := GetDummies(names, rows, columns);
    forall f: Feature | f.Named? && f.name in names && f.name !in columns
      ensures f in e.features
    {
      var k :| 0 <= k < |w| && w[k] == f.name;
      assert e.features[k] == f;
    }
    forall f | f in Kept(names, columns)
      ensures f.Named? && f.name in w
    {
      var k :| 0 <= k < |w| && Kept(names, columns)[k] == f;
    }
  }

  /** Every cell of the encoded frame is its feature's cell of the input
      row, and every feature comes from an input column. */
  lemma EncodedCells(names: seq<string>, rows: seq<seq<Value>>, columns: seq<string>)
    requires Aligned(|names|, rows) && forall c :: c in columns ==> c in names
    ensures var e := GetDummies(names, rows, columns);
      forall i, p :: 0 <= i < |rows| && 0 <= p < |e.features| ==>
        Origin(e.features[p]) in names && e.rows[i][p] == Cell(names, rows[i], e.features[p])
  {
    var w := Without(names, columns);
    WithoutMembers(names, columns);
    var fs := Kept(names, columns) + Indicators(names, rows, columns);
    var e := GetDummies(names, rows, columns);
    assert e.features == fs;
    forall p | 0 <= p < |fs|
      ensures Origin(fs[p]) in names
    {
      if p < |w| {
        assert fs[p] == Named(w[p]) && w[p] in w;
      } else {
        assert fs[p] in Indicators(names, rows, columns);
      }
    }
  }

  /** `f` is an indicator of column `c` set in row `i` of `e`. */
  predicate IsSet(e: Encoded, i: nat, p: nat, c: string)
  {
    i < |e.rows| && p < |e.features| && p < |e.rows[i]|
    && e.features[p].Indicator? && e.features[p].prefix == c && e.rows[i][p] == Bool(true)
  }

  /** In every row exactly one indicator of each encoded column is set,
      the one of the row's value, unless that value is missing, when none
      is. */
  lemma ExactlyOneIndicator(names: seq<string>, rows: seq<seq<Value>>, columns: seq<string>, i: nat, c: string)
    requires Aligned(|names|, rows) && forall c :: c in columns ==> c in names
    requires Distinct(names) && Distinct(columns)
    requires i < |rows| && c in columns
    ensures var e, v := GetDummies(names, rows, columns), rows[i][IndexOf(names, c)];
      && (!IsNa(v) ==> exists p: nat :: IsSet(e, i, p, c) && e.features[p] == Indicator(c, v))
      && (IsNa(v) ==> forall p: nat :: !IsSet(e, i, p, c))
      && (forall p: nat, q: nat :: IsSet(e, i, p, c) && IsSet(e, i, q, c) ==> p == q)
  {
    var e, v := GetDummies(names, rows, columns), rows[i][IndexOf(names, c)];
    EncodedMembers(names, rows, columns);
    EncodedCells(names, rows, columns);
    EncodedDistinct(names, rows, columns);
    if !IsNa(v) {
      assert ColumnValues(names, rows, c)[i] == v;
    }
    OneSet(e, names, rows[i], i, c);
  }

  /** The counting argument behind `ExactlyOneIndicator`, for any encoded
      frame whose features are distinct and whose row `i` is computed from
      `row`. */
  lemma OneSet(e: Encoded, names: seq<string>, row: seq<Value>, i: nat, c: string)
    requires i < |e.rows| && |e.rows[i]| == |e.features| && Distinct(e.features)
    requires |row| == |names| && c in names
    requires forall p :: 0 <= p < |e.features| ==>
      Origin(e.features[p]) in names && e.rows[i][p] == Cell(names, row, e.features[p])
    requires forall f :: f in e.features && f.Indicator? ==> !IsNa(f.category)
    requires !IsNa(row[IndexOf(names, c)]) ==> Indicator(c, row[IndexOf(names, c)]) in e.features
    ensures var v := row[IndexOf(names, c)];
      && (!IsNa(v) ==> exists p: nat :: IsSet(e, i, p, c) && e.features[p] == Indicator(c, v))
      && (IsNa(v) ==> forall p: nat :: !IsSet(e, i, p, c))
      && (forall p: nat, q: nat :: IsSet(e, i, p, c) && IsSet(e, i, q, c) ==> p == q)
  {
    var v := row[IndexOf(names, c)];
    forall p: nat | IsSet(e, i, p, c)
      ensures e.features[p] == Indicator(c, v) && !IsNa(v)
    {
      assert e.features[p] in e.features;
    }
    if !IsNa(v) {
      var p :| 0 <= p < |e.features| && e.features[p] == Indicator(c, v);
      assert IsSet(e, i, p, c);
    }
  }

  // ---------------------------------------------------------------------
  // The preparation steps on the loaded frame

  /** `features`: the five feature columns of `rows` with every missing
      value replaced by 0. */
  function Filled(names: seq<string>, rows: seq<seq<Value>>): (r: seq<seq<Value>>)
    requires Aligned(|names|, rows) && forall c :: c in FeatureColumns ==> c in names
    ensures |r| == |rows| && Aligned(|FeatureColumns|, r)
  {
    MapRows(SelectRows(names, rows, FeatureColumns), FillZero)
  }

  lemma IndexOfAppend(names: seq<string>, name: string, c: string)
    requires c in names
    ensures IndexOf(names + [name], c) == IndexOf(names, c)
  {
    if names[0] != c {
      assert (names + [name])[1..] == names[1..] + [name];
      IndexOfAppend(names[1..], name, c);
    }
  }

  /** What `df['home_win'] = values` does to the frame: the label column
      holds the values, every other column is kept, and so is the
      selection of the feature columns. */
  lemma LabelColumnEffect(names: seq<string>, rows: seq<seq<Value>>, names2: seq<string>, rows2: seq<seq<Value>>,
                          values: seq<Value>)
    requires Aligned(|names|, rows) && Distinct(names) && |values| == |rows|
    requires Aligned(|names2|, rows2) && |rows2| == |rows|
    requires LabelColumn in names ==>
      names2 == names && forall i :: 0 <= i < |rows2| ==> rows2[i] == rows[i][IndexOf(names, LabelColumn) := values[i]]
    requires LabelColumn !in names ==>
      names2 == names + [LabelColumn] && forall i :: 0 <= i < |rows2| ==> rows2[i] == rows[i] + [values[i]]
    ensures LabelColumn in names2 && ColumnValues(names2, rows2, LabelColumn) == values
    ensures forall c :: c in names && c != LabelColumn ==> c in names2 && ColumnValues(names2, rows2, c) == ColumnValues(names, rows, c)
    ensures (forall c :: c in FeatureColumns ==> c in names) ==>
      (forall c :: c in FeatureColumns ==> c in names2) &&
      SelectRows(names2, rows2, FeatureColumns) == SelectRows(names, rows, FeatureColumns)
  {
    FeatureColumnsFacts();
    if LabelColumn in names {
      assert names2 == names;
      LabelReplaced(names, rows, rows2, values);
      if forall c :: c in FeatureColumns ==> c in names {
        SelectionKept(names, rows, names, rows2);
      }
    } else {
      assert names2 == names + [LabelColumn];
      LabelAppended(names, rows, rows2, values);
      if forall c :: c in FeatureColumns ==> c in names {
        SelectionKept(names, rows, names2, rows2);
      }
    }
  }

  /** Two frames whose feature columns agree give the same selection. */
  lemma SelectionKept(names: seq<string>, rows: seq<seq<Value>>, names2: seq<string>, rows2: seq<seq<Value>>)
    requires Aligned(|names|, rows) && Aligned(|names2|, rows2) && |rows2| == |rows|
    requires forall c :: c in FeatureColumns ==> c in names && c in names2
    requires forall c :: c in FeatureColumns ==> ColumnValues(names2, rows2, c) == ColumnValues(names, rows, c)
    ensures SelectRows(names2, rows2, FeatureColumns) == SelectRows(names, rows, FeatureColumns)
  {
    forall i | 0 <= i < |rows|
      ensures SelectRow(names2, rows2[i], FeatureColumns) == SelectRow(names, rows[i], FeatureColumns)
    {
      forall k | 0 <= k < |FeatureColumns|
        ensures rows2[i][IndexOf(names2, FeatureColumns[k])] == rows[i][IndexOf(names, FeatureColumns[k])]
      {
        var c := FeatureColumns[k];
        assert c in FeatureColumns;
        assert ColumnValues(names2, rows2, c)[i] == ColumnValues(names, rows, c)[i];
      }
    }
  }

  lemma LabelReplaced(names: seq<string>, rows: seq<seq<Value>>, rows2: seq<seq<Value>>, values: seq<Value>)
    requires Aligned(|names|, rows) && LabelColumn in names && |values| == |rows| == |rows2|
    requires forall i :: 0 <= i < |rows2| ==> rows2[i] == rows[i][IndexOf(names, LabelColumn) := values[i]]
    ensures Aligned(|names|, rows2)
    ensures ColumnValues(names, rows2, LabelColumn) == values
    ensures forall c :: c in names && c != LabelColumn ==> ColumnValues(names, rows2, c) == ColumnValues(names, rows, c)
  {
  }

  lemma LabelAppended(names: seq<string>, rows: seq<seq<Value>>, rows2: seq<seq<Value>>, values: seq<Value>)
    requires Aligned(|names|, rows) && LabelColumn !in names && |values| == |rows| == |rows2|
    requires forall i :: 0 <= i < |rows2| ==> rows2[i] == rows[i] + [values[i]]
    ensures Aligned(|names| + 1, rows2)
    ensures ColumnValues(names + [LabelColumn], rows2, LabelColumn) == values
    ensures forall c :: c in names ==> ColumnValues(names + [LabelColumn], rows2, c) == ColumnValues(names, rows, c)
  {
    var names2 := names + [LabelColumn];
    var j := IndexOf(names2, LabelColumn);
    assert j == |names|;
    forall c | c in names
      ensures ColumnValues(names2, rows2, c) == ColumnValues(names, rows, c)
    {
      IndexOfAppend(names, LabelColumn, c);
    }
  }

  lemma FeatureColumnsFacts()
    ensures HomeScore in FeatureColumns && AwayScore in FeatureColumns && LabelColumn !in FeatureColumns
    ensures Distinct(FeatureColumns) && Distinct(Categorical)
    ensures forall c :: c in Categorical ==> c in FeatureColumns
  {
  }

  /** Line 31: `df['home_win'] = ...`, which needs both score columns and
      otherwise stops the script before the frame changes. */
  method AddLabel(df: DataFrame, greater: (Value, Value) -> bool) returns (ok: bool)
    requires df.Valid()
    modifies df
    ensures df.Valid()
    ensures ok <==> HomeScore in old(df.names) && AwayScore in old(df.names)
    ensures !ok ==> df.names == old(df.names) && df.dtypes == old(df.dtypes) && df.rows == old(df.rows)
    ensures ok ==>
      && df.names == (if LabelColumn in old(df.names) then old(df.names) else old(df.names) + [LabelColumn])
      && df.Column(LabelColumn) == HomeWins(old(df.names), old(df.rows), greater)
      && (forall c :: c in old(df.names) && c != LabelColumn ==> df.Column(c) == ColumnValues(old(df.names), old(df.rows), c))
      && ((forall c :: c in FeatureColumns ==> c in old(df.names)) ==>
           SelectRows(df.names, df.rows, FeatureColumns) == SelectRows(old(df.names), old(df.rows), FeatureColumns))
  {
    if !(HomeScore in df.names && AwayScore in df.names) {
      return false;
    }
    var wins := HomeWins(df.names, df.rows, greater);
    df.SetColumn(LabelColumn, Int64, wins);
    LabelColumnEffect(old(df.names), old(df.rows), df.names, df.rows, wins);
    ok := true;
  }

  /** Lines 31-41: adds the `home_win` label column to the loaded frame,
      selects the feature columns into a new frame, fills their missing
      values with 0 in place and one-hot encodes the team columns. A
      missing feature column stops the script, after the label is added
      when both scores are there. */
  method PrepareData(df: DataFrame, greater: (Value, Value) -> bool) returns (ok: bool, encoded: Encoded, labels: seq<Value>)
    requires df.Valid()
    modifies df
    ensures df.Valid()
    ensures ok <==> forall c :: c in FeatureColumns ==> c in old(df.names)
    ensures !(HomeScore in old(df.names) && AwayScore in old(df.names)) ==>
      df.names == old(df.names) && df.dtypes == old(df.dtypes) && df.rows == old(df.rows)
    ensures HomeScore in old(df.names) && AwayScore in old(df.names) ==>
      && df.names == (if LabelColumn in old(df.names) then old(df.names) else old(df.names) + [LabelColumn])
      && df.Column(LabelColumn) == HomeWins(old(df.names), old(df.rows), greater)
      && forall c :: c in old(df.names) && c != LabelColumn ==> df.Column(c) == ColumnValues(old(df.names), old(df.rows), c)
    ensures ok ==> labels == HomeWins(old(df.names), old(df.rows), greater)
    ensures ok ==> encoded == GetDummies(FeatureColumns, Filled(old(df.names), old(df.rows)), Categorical)
  {
    FeatureColumnsFacts();
    encoded, labels := Encoded([], []), [];
    var names := df.names;
    var labelled := AddLabel(df, greater);
    if !labelled || !(forall c :: c in FeatureColumns ==> c in names) {
      return false, encoded, labels;
    }
    encoded, labels := EncodeFeatures(df);
    ok := true;
  }

  /** Lines 34-41 on the labelled frame: the feature columns, filled and
      encoded, and the label column. */
  method EncodeFeatures(df: DataFrame) returns (encoded: Encoded, labels: seq<Value>)
    requires df.Valid() && LabelColumn in df.names && forall c :: c in FeatureColumns ==> c in df.names
    ensures encoded == GetDummies(FeatureColumns, Filled(df.names, df.rows), Categorical)
    ensures labels == df.Column(LabelColumn)
  {
    FeatureColumnsFacts();
    var features := df.Select(FeatureColumns);
    labels := df.Column(LabelColumn);
    features.Replace(FillZero);
    encoded := GetDummies(features.names, features.rows, Categorical);
  }

  /** The feature columns that are not encoded. */
  const NumericFeatures: seq<string> := ["week", "home_score", "away_score"]

  lemma NumericFeaturesKept()
    ensures Without(FeatureColumns, Categorical) == NumericFeatures
  {
    assert Without(FeatureColumns[3..], Categorical) == NumericFeatures[1..];
  }

  /** The encoded training rows line up with the games and their labels,
      and `week`, `home_score` and `away_score` stay the first three
      features, in that order, each game's missing values read as 0. */
  lemma PreparedKept(names: seq<string>, rows: seq<seq<Value>>, greater: (Value, Value) -> bool, i: nat)
    requires Aligned(|names|, rows) && forall c :: c in FeatureColumns ==> c in names
    requires i < |rows|
    ensures var e := GetDummies(FeatureColumns, Filled(names, rows), Categorical);
      && |e.rows| == |HomeWins(names, rows, greater)| == |rows|
      && |e.features| >= 3 && |e.rows[i]| >= 3
      && (forall k :: 0 <= k < 3 ==> e.features[k] == Named(NumericFeatures[k]))
      && (forall k :: 0 <= k < 3 ==> e.rows[i][k] == FillZero(rows[i][IndexOf(names, NumericFeatures[k])]))
  {
    var filled := Filled(names, rows);
    NumericFeaturesKept();
    EncodedMembers(FeatureColumns, filled, Categorical);
    EncodedCells(FeatureColumns, filled, Categorical);
    var e := GetDummies(FeatureColumns, filled, Categorical);
    forall k | 0 <= k < 3
      ensures e.rows[i][k] == FillZero(rows[i][IndexOf(names, NumericFeatures[k])])
    {
      var c := NumericFeatures[k];
      assert c in FeatureColumns;
      assert e.rows[i][k] == filled[i][IndexOf(FeatureColumns, c)];
    }
  }

  /** In each prepared game exactly one `home_team_` and exactly one
      `away_team_` indicator is set, the one of the game's own team: no
      team is missing once the gaps are filled with 0. */
  lemma PreparedTeams(names: seq<string>, rows: seq<seq<Value>>, i: nat, c: string)
    requires Aligned(|names|, rows) && forall c :: c in FeatureColumns ==> c in names
    requires i < |rows| && c in Categorical
    ensures var e, team := GetDummies(FeatureColumns, Filled(names, rows), Categorical), FillZero(rows[i][IndexOf(names, c)]);
      && (exists p: nat :: IsSet(e, i, p, c) && e.features[p] == Indicator(c, team))
      && (forall p: nat, q: nat :: IsSet(e, i, p, c) && IsSet(e, i, q, c) ==> p == q)
  {
    var filled := Filled(names, rows);
    var team := FillZero(rows[i][IndexOf(names, c)]);
    FeatureColumnsFacts();
    assert c in FeatureColumns;
    var j := IndexOf(FeatureColumns, c);
    assert filled[i][j] == team by {
      var selected := SelectRows(names, rows, FeatureColumns);
      assert selected[i][j] == rows[i][IndexOf(names, c)];
    }
    assert !IsNa(team);
    ExactlyOneIndicator(FeatureColumns, filled, Categorical, i, c);
  }

  /** The label is computed before the gaps are filled: a game with a
      missing score is labelled 0 even though its score feature reads 0,
      and a tie is labelled 0. */
  lemma LabelOfMissingScore(home: Value, away: Value, greater: (Value, Value) -> bool)
    ensures IsNa(home) || IsNa(away) ==> HomeWin(home, away, greater) == Int(0)
    ensures home.Int? && away.Int? ==> (HomeWin(home, away, greater) == Int(1) <==> home.i > away.i)
    ensures (forall v :: !greater(v, v)) && home == away ==> HomeWin(home, away, greater) == Int(0)
    ensures !IsNa(home) && !IsNa(away) && !(home.Int? && away.Int?) ==>
      (HomeWin(home, away, greater) == Int(1) <==> greater(home, away))
  {
  }

  // ---------------------------------------------------------------------
  // The train/test partition

  /** `ceil(0.2 * n)`: the number of test rows for `test_size=0.2`. */
  function TestSize(n: nat): (r: nat)
    ensures 5 * r >= n && 5 * (r - 1) < n
  {
    (n + 4) / 5
  }

  /** The shuffle `train_test_split` draws with `random_state=42`, taken
      as an input: each row position exactly once. */
  predicate IsPermutation(perm: seq<nat>, n: nat)
  {
    |perm| == n && Distinct(perm)
    && (forall k :: 0 <= k < n ==> perm[k] < n)
    && forall i :: 0 <= i < n ==> i in perm
  }

  function Pick<T>(s: seq<T>, positions: seq<nat>): (r: seq<T>)
    requires forall k :: 0 <= k < |positions| ==> positions[k] < |s|
    ensures |r| == |positions| && forall k :: 0 <= k < |positions| ==> r[k] == s[positions[k]]
  {
    seq(|positions|, k requires 0 <= k < |positions| => s[positions[k]])
  }

  datatype Split = Split(trainRows: seq<seq<Value>>, testRows: seq<seq<Value>>,
                         trainLabels: seq<Value>, testLabels: seq<Value>)

  /** `train_test_split(features, labels, test_size=0.2)`: the first
      `ceil(0.2 * n)` shuffled positions are the test rows and the rest the
      training rows; an empty training set is an error. */
  function TrainTestSplit(rows: seq<seq<Value>>, labels: seq<Value>, perm: seq<nat>): (r: Option<Split>)
    requires |labels| == |rows| && IsPermutation(perm, |rows|)
    ensures r.Some? <==> |rows| >= 2
  {
    var t := TestSize(|rows|);
    if |rows| - t == 0 then None
    else Some(Split(Pick(rows, perm[t..]), Pick(rows, perm[..t]), Pick(labels, perm[t..]), Pick(labels, perm[..t])))
  }

  /** The training and test sets partition the rows: every row lands in
      exactly one of them, once, and with its own label; the test set holds
      `ceil(0.2 * n)` rows. */
  lemma SplitPartitions(rows: seq<seq<Value>>, labels: seq<Value>, perm: seq<nat>, i: nat)
    requires |labels| == |rows| && IsPermutation(perm, |rows|) && |rows| >= 2
    requires i < |rows|
    ensures var s, t := TrainTestSplit(rows, labels, perm).value, TestSize(|rows|);
      && |s.testRows| == |s.testLabels| == t && |s.trainRows| == |s.trainLabels| == |rows| - t
      && (i in perm[t..]) != (i in perm[..t])
      && Distinct(perm[t..]) && Distinct(perm[..t])
      && (forall k :: 0 <= k < |rows| - t ==> s.trainRows[k] == rows[perm[t + k]] && s.trainLabels[k] == labels[perm[t + k]])
      && (forall k :: 0 <= k < t ==> s.testRows[k] == rows[perm[k]] && s.testLabels[k] == labels[perm[k]])
  {
    var t := TestSize(|rows|);
    PermutationHalves(perm, |rows|, t, i);
    var s := TrainTestSplit(rows, labels, perm).value;
    assert s.trainRows == Pick(rows, perm[t..]) && s.testRows == Pick(rows, perm[..t]);
    assert s.trainLabels == Pick(labels, perm[t..]) && s.testLabels == Pick(labels, perm[..t]);
  }

  /** The two ends of a permutation cut at `t` hold distinct positions, and
      every position is in exactly one of them. */
  lemma PermutationHalves(perm: seq<nat>, n: nat, t: nat, i: nat)
    requires IsPermutation(perm, n) && t <= n && i < n
    ensures Distinct(perm[..t]) && Distinct(perm[t..])
    ensures (i in perm[t..]) != (i in perm[..t])
  {
    forall a, b | 0 <= a < b < t
      ensures perm[..t][a] != perm[..t][b]
    {
      assert perm[..t][a] == perm[a] && perm[..t][b] == perm[b];
    }
    forall a, b | 0 <= a < b < n - t
      ensures perm[t..][a] != perm[t..][b]
    {
      assert perm[t..][a] == perm[t + a] && perm[t..][b] == perm[t + b];
    }
    assert perm == perm[..t] + perm[t..];
    assert i in perm;
  }
}
