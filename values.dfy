/** Cell values and column dtypes of the in-memory tables (pandas data frames)
    that the scripts move between the data provider, MySQL and the classifier.
    Numbers are opaque tokens: only whether a value is missing, NaN or an
    infinity matters to the logic modelled here. */
module Values {

  datatype Option<+T> = None | Some(value: T)

  /** One cell. `Null` is Python's None (SQL NULL); `NaN`, `PosInf` and
      `NegInf` are the special floats; `Num` is any other float, kept as an
      opaque token; `Timestamp` is a parsed date-time, also a token. */
  datatype Value =
    | Null
    | NaN
    | PosInf
    | NegInf
    | Int(i: int)
    | Num(token: int)
    | Str(s: string)
    | Timestamp(t: int)
    | Bool(b: bool)

  /** The pandas dtype of a column, reduced to the cases the loader tells apart. */
  datatype Dtype = Object | Float64 | Int64 | Datetime64 | Other

  /** `pd.isna` / `pd.notnull` negated: None and NaN are missing (infinities are not). */
  predicate IsNa(v: Value)
  {
    v.Null? || v.NaN?
  }

  /** A value no SQL column can hold as such: NaN or an infinity. */
  predicate IsNonFinite(v: Value)
  {
    v.NaN? || v.PosInf? || v.NegInf?
  }

  /** The numbers, as `pd.to_numeric` leaves them. */
  predicate IsNumber(v: Value)
  {
    v.Int? || v.Num? || v.NaN? || v.PosInf? || v.NegInf?
  }

  /** What `pd.to_numeric` may turn a string or a timestamp into. */
  type Number = v: Value | IsNumber(v) witness Int(0)

  /** `fillna(fill)` on one cell. */
  function FillNa(fill: Value, v: Value): Value
  {
    if IsNa(v) then fill else v
  }

  /** `fillna(0)` on one cell. */
  function FillZero(v: Value): (r: Value)
    ensures !IsNa(r) && (!IsNa(v) ==> r == v)
  {
    FillNa(Int(0), v)
  }

  /** `None if pd.isna(v) else v`, which is also what `where(pd.notnull(df), None)`
      does to one cell. */
  function NaToNull(v: Value): (r: Value)
    ensures !r.NaN? && IsNa(r) == IsNa(v) && (!IsNa(v) ==> r == v)
  {
    FillNa(Null, v)
  }

  predicate Distinct<T(==)>(s: seq<T>)
  {
    forall i, j :: 0 <= i < j < |s| ==> s[i] != s[j]
  }

  /** The decimal text of an integer, as Python's `str` writes it. */
  function IntText(i: int): (r: string)
    ensures |r| > 0
    decreases if i < 0 then 1 - i else i
  {
    if i < 0 then "-" + IntText(-i)
    else if i < 10 then [Digit(i)]
    else IntText(i / 10) + [Digit(i % 10)]
  }

  function Digit(d: int): char
    requires 0 <= d < 10
  {
    "0123456789"[d]
  }
}
