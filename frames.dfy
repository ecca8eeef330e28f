/** The pandas data-frame operations the scripts use, on a frame object whose
    fields the in-place operations (`replace(..., inplace=True)`,
    `fillna(..., inplace=True)`, `df[col] = ...`) update, while selection
    (`df[[...]]`) and `where` return a new frame. */
module Frames {
  import opened Values

  /** Every row has one value per column. */
  predicate Aligned(width: nat, rows: seq<seq<Value>>)
  {
    forall i :: 0 <= i < |rows| ==> |rows[i]| == width
  }

  /** Position of `name` in `names`, or `|names|` when it is absent. */
  function IndexOf(names: seq<string>, name: string): (r: nat)
    ensures r <= |names|
    ensures r < |names| <==> name in names
    ensures r < |names| ==> names[r] == name
  {
    if |names| == 0 then 0
    else if names[0] == name then 0
    else 1 + IndexOf(names[1..], name)
  }

  /** The names of `names` that are not in `exclude`, in their original order
      (the list comprehension of import_data.py line 26). */
  function Without(names: seq<string>, exclude: seq<string>): (r: seq<string>)
    ensures |r| <= |names|
  {
    if |names| == 0 then []
    else if names[0] in exclude then Without(names[1..], exclude)
    else [names[0]] + Without(names[1..], exclude)
  }

  /** The row cells under `cols`, each found by name. */
  function SelectRow(names: seq<string>, row: seq<Value>, cols: seq<string>): (r: seq<Value>)
    requires |row| == |names|
    requires forall c :: c in cols ==> c in names
    ensures |r| == |cols|
    ensures forall k :: 0 <= k < |cols| ==> r[k] == row[IndexOf(names, cols[k])]
  {
    seq(|cols|, k requires 0 <= k < |cols| => row[IndexOf(names, cols[k])])
  }

  function SelectRows(names: seq<string>, rows: seq<seq<Value>>, cols: seq<string>): (r: seq<seq<Value>>)
    requires Aligned(|names|, rows)
    requires forall c :: c in cols ==> c in names
    ensures |r| == |rows| && Aligned(|cols|, r)
    ensures forall i :: 0 <= i < |rows| ==> r[i] == SelectRow(names, rows[i], cols)
  {
    seq(|rows|, i requires 0 <= i < |rows| => SelectRow(names, rows[i], cols))
  }

  /** `f` applied to every cell. */
  function MapRows(rows: seq<seq<Value>>, f: Value -> Value): (r: seq<seq<Value>>)
    ensures |r| == |rows|
    ensures forall i :: 0 <= i < |rows| ==> |r[i]| == |rows[i]|
    ensures forall i, k :: 0 <= i < |rows| && 0 <= k < |rows[i]| ==> r[i][k] == f(rows[i][k])
  {
    seq(|rows|, i requires 0 <= i < |rows| => seq(|rows[i]|, k requires 0 <= k < |rows[i]| => f(rows[i][k])))
  }

  /** Column `j` of every row. */
  function ColumnOf(rows: seq<seq<Value>>, j: nat): (r: seq<Value>)
    requires forall i :: 0 <= i < |rows| ==> j < |rows[i]|
    ensures |r| == |rows|
    ensures forall i :: 0 <= i < |rows| ==> r[i] == rows[i][j]
  {
    seq(|rows|, i requires 0 <= i < |rows| => rows[i][j])
  }

  class DataFrame {
    var names: seq<string>
    var dtypes: seq<Dtype>
    var rows: seq<seq<Value>>

    /** Column names are unique and every row is as wide as the header. */
    ghost predicate Valid()
      reads this
    {
      |dtypes| == |names| && Distinct(names) && Aligned(|names|, rows)
    }

    /** `pd.DataFrame(rows, columns=names)`. */
    constructor (names: seq<string>, dtypes: seq<Dtype>, rows: seq<seq<Value>>)
      requires |dtypes| == |names| && Distinct(names) && Aligned(|names|, rows)
      ensures Valid()
      ensures this.names == names && this.dtypes == dtypes && this.rows == rows
    {
      this.names := names;
      this.dtypes := dtypes;
      this.rows := rows;
    }

    /** `df[cols]` for a list of distinct existing column names: a new frame
        holding those columns, in the order of `cols`. */
    method Select(cols: seq<string>) returns (r: DataFrame)
      requires Valid()
      requires Distinct(cols) && forall c :: c in cols ==> c in names
      ensures fresh(r) && r.Valid()
      ensures r.names == cols
      ensures |r.dtypes| == |cols| && forall k :: 0 <= k < |cols| ==> r.dtypes[k] == dtypes[IndexOf(names, cols[k])]
      ensures r.rows == SelectRows(names, rows, cols)
    {
      var ns, ts := names, dtypes;
      var ds := seq(|cols|, k requires 0 <= k < |cols| => ts[IndexOf(ns, cols[k])]);
      r := new DataFrame(cols, ds, SelectRows(names, rows, cols));
    }

    /** An in-place cell-wise rewrite: `replace(..., inplace=True)` and
        `fillna(..., inplace=True)`. */
    method Replace(f: Value -> Value)
      requires Valid()
      modifies this
      ensures Valid()
      ensures names == old(names) && dtypes == old(dtypes)
      ensures rows == MapRows(old(rows), f)
    {
      rows := MapRows(rows, f);
    }

    /** `df.where(cond, other)`: a new frame with every cell rewritten. */
    method Where(f: Value -> Value) returns (r: DataFrame)
      requires Valid()
      ensures fresh(r) && r.Valid()
      ensures r.names == names && r.dtypes == dtypes
      ensures r.rows == MapRows(rows, f)
    {
      r := new DataFrame(names, dtypes, MapRows(rows, f));
    }

    /** `df[name]`, the values of one existing column. */
    function Column(name: string): (r: seq<Value>)
      reads this
      requires Valid() && name in names
      ensures |r| == |rows|
      ensures forall i :: 0 <= i < |rows| ==> r[i] == rows[i][IndexOf(names, name)]
    {
      ColumnOf(rows, IndexOf(names, name))
    }

    /** `df[name] = values`: replaces the column of that name in place, or
        appends a new last column when there is none. */
    method SetColumn(name: string, dtype: Dtype, values: seq<Value>)
      requires Valid() && |values| == |rows|
      modifies this
      ensures Valid()
      ensures name in old(names) ==>
        var j := IndexOf(old(names), name);
        && names == old(names) && dtypes == old(dtypes)[j := dtype]
        && |rows| == |old(rows)|
        && forall i :: 0 <= i < |rows| ==> rows[i] == old(rows)[i][j := values[i]]
      ensures name !in old(names) ==>
        && names == old(names) + [name] && dtypes == old(dtypes) + [dtype]
        && |rows| == |old(rows)|
        && forall i :: 0 <= i < |rows| ==> rows[i] == old(rows)[i] + [values[i]]
    {
      var j := IndexOf(names, name);
      var rs := rows;
      if j < |names| {
        dtypes := dtypes[j := dtype];
        rows := seq(|rs|, i requires 0 <= i < |rs| => rs[i][j := values[i]]);
      } else {
        assert Distinct(names + [name]);
        names := names + [name];
        dtypes := dtypes + [dtype];
        rows := seq(|rs|, i requires 0 <= i < |rs| => rs[i] + [values[i]]);
      }
    }
  }

  /** Excluding names keeps every other column, in order: the kept names are
      those of `names` not in `exclude`, and whenever two kept names appear
      in one order in `names` they appear in that order in the result. */
  lemma {:induction false} WithoutKeepsOrder(names: seq<string>, exclude: seq<string>, i: nat, j: nat)
    requires Distinct(names)
    requires i < j < |Without(names, exclude)|
    ensures IndexOf(names, Without(names, exclude)[i]) < IndexOf(names, Without(names, exclude)[j])
    decreases |names|, 1
  {
    if names[0] in exclude {
      SkippedHeadKeepsOrder(names, exclude, i, j);
    } else {
      KeptHeadKeepsOrder(names, exclude, i, j);
    }
  }

  lemma {:induction false} SkippedHeadKeepsOrder(names: seq<string>, exclude: seq<string>, i: nat, j: nat)
    requires Distinct(names) && |names| > 0 && names[0] in exclude
    requires i < j < |Without(names, exclude)|
    ensures IndexOf(names, Without(names, exclude)[i]) < IndexOf(names, Without(names, exclude)[j])
    decreases |names|, 0
  {
    var tail := Without(names[1..], exclude);
    HeadNotInTail(names);
    WithoutMembers(names[1..], exclude);
    assert tail[i] in tail && tail[j] in tail;
    WithoutKeepsOrder(names[1..], exclude, i, j);
    IndexOfTail(names, tail[i]);
    IndexOfTail(names, tail[j]);
  }

  lemma {:induction false} KeptHeadKeepsOrder(names: seq<string>, exclude: seq<string>, i: nat, j: nat)
    requires Distinct(names) && |names| > 0 && names[0] !in exclude
    requires i < j < |Without(names, exclude)|
    ensures IndexOf(names, Without(names, exclude)[i]) < IndexOf(names, Without(names, exclude)[j])
    decreases |names|, 0
  {
    var tail := Without(names[1..], exclude);
    assert Without(names, exclude) == [names[0]] + tail;
    assert Without(names, exclude)[j] == tail[j - 1];
    assert tail[j - 1] in names[1..] by {
      WithoutMembers(names[1..], exclude);
      assert tail[j - 1] in tail;
    }
    IndexOfTail(names, tail[j - 1]);
    if i > 0 {
      assert Without(names, exclude)[i] == tail[i - 1];
      assert tail[i - 1] in names[1..] by {
        WithoutMembers(names[1..], exclude);
        assert tail[i - 1] in tail;
      }
      HeadNotInTail(names);
      WithoutKeepsOrder(names[1..], exclude, i - 1, j - 1);
      IndexOfTail(names, tail[i - 1]);
    } else {
      assert Without(names, exclude)[0] == names[0];
    }
  }

  /** The kept names are exactly the names not excluded. */
  lemma {:induction false} WithoutMembers(names: seq<string>, exclude: seq<string>)
    ensures forall n :: n in Without(names, exclude) <==> n in names && n !in exclude
  {
    if |names| > 0 {
      WithoutMembers(names[1..], exclude);
      assert names == [names[0]] + names[1..];
    }
  }

  lemma HeadNotInTail(names: seq<string>)
    requires |names| > 0 && Distinct(names)
    ensures names[0] !in names[1..]
    ensures Distinct(names[1..])
  {
    forall k | 0 <= k < |names| - 1
      ensures names[1..][k] != names[0]
    {
      assert names[1..][k] == names[k + 1];
    }
  }

  lemma IndexOfTail(names: seq<string>, n: string)
    requires |names| > 0 && n in names[1..] && Distinct(names)
    ensures IndexOf(names, n) == 1 + IndexOf(names[1..], n)
  {
    HeadNotInTail(names);
  }

  /** The kept names are still distinct. */
  lemma {:induction false} WithoutDistinct(names: seq<string>, exclude: seq<string>)
    requires Distinct(names)
    ensures Distinct(Without(names, exclude))
  {
    if |names| > 0 {
      HeadNotInTail(names);
      WithoutDistinct(names[1..], exclude);
      WithoutMembers(names[1..], exclude);
      var rest := Without(names[1..], exclude);
      assert names[0] !in rest;
    }
  }

  /** An empty exclusion list changes nothing. */
  lemma {:induction false} WithoutNothing(names: seq<string>)
    ensures Without(names, []) == names
  {
    if |names| > 0 {
      WithoutNothing(names[1..]);
      assert names == [names[0]] + names[1..];
    }
  }
}
