/** The shared encoding steps of training, the prediction service and the
    prediction script: `pd.get_dummies(df, columns=["city"], drop_first=True)`
    on the `(city, date)`-sorted feature table, the drop of the leakage
    columns and the removal of the `aqi` target. */
module Encoding {
  import opened Wrappers
  import opened Strings
  import opened Table
  import opened BuildFeatures

  /** One cell of a data frame. */
  datatype Cell = Num(value: real) | Int(n: int) | Day(day: int) | Flag(flag: bool) | Missing

  /** A column of the encoded frame: a column of the feature table other than
      `city`, or the indicator column of one city. */
  datatype Col =
    | Date | Aqi | Pm25 | Pm10 | No2 | So2 | Co | O3
    | Month | DayOfWeek | DayOfYear
    | AqiLag(k: nat) | Pm25Lag(k: nat) | AqiRoll7
    | Indicator(city: string)

  /** The decimal digits of `n`. */
  function Digits(n: nat): string
    decreases n
  {
    if n < 10 then [DigitChar(n)] else Digits(n / 10) + [DigitChar(n % 10)]
  }

  function DigitChar(d: nat): char
    requires d < 10
  {
    "0123456789"[d]
  }

  const Prefix: string := "city_"

  /** The pandas name of a column. */
  function Name(c: Col): string
  {
    match c
    case Date => "date"
    case Aqi => "aqi"
    case Pm25 => "pm25"
    case Pm10 => "pm10"
    case No2 => "no2"
    case So2 => "so2"
    case Co => "co"
    case O3 => "o3"
    case Month => "month"
    case DayOfWeek => "day_of_week"
    case DayOfYear => "day_of_year"
    case AqiLag(k) => "aqi_lag_" + Digits(k)
    case Pm25Lag(k) => "pm25_lag_" + Digits(k)
    case AqiRoll7 => "aqi_roll_7"
    case Indicator(city) => Prefix + city
  }

  /** Exactly the indicator columns have a name starting with `city_`. */
  lemma NamePrefix(c: Col)
    ensures HasPrefix(Name(c), Prefix) <==> c.Indicator?
  {
    match c
    case Indicator(city) => assert Name(c)[..|Prefix|] == Prefix;
    case Co => assert |Name(c)| < |Prefix|;
    case _ => NotCity(Name(c));
  }

  /** A name not starting with `c` does not start with `city_`. */
  lemma NotCity(s: string)
    requires |s| > 0 && s[0] != 'c'
    ensures !HasPrefix(s, Prefix)
  {
  }

  /** A row maps columns to cells. */
  type Row = map<Col, Cell>

  /** A data frame: an ordered column list and rows in index order. */
  datatype Frame = Frame(columns: seq<Col>, rows: seq<Row>)

  function ColumnSet(columns: seq<Col>): set<Col>
  {
    set c | c in columns
  }

  /** Column names are distinct and every row has exactly the frame's columns. */
  ghost predicate WellFormed(f: Frame)
  {
    && Distinct(f.columns)
    && forall i :: 0 <= i < |f.rows| ==> f.rows[i].Keys == ColumnSet(f.columns)
  }

  /** The columns of the feature table other than `city`, in the model's fixed order. */
  const BaseColumns: seq<Col> := [Date, Aqi, Pm25, Pm10, No2, So2, Co, O3]
  /** The columns the feature builder appends, in the order it adds them. */
  const DerivedColumns: seq<Col> :=
    [Month, DayOfWeek, DayOfYear,
     AqiLag(1), Pm25Lag(1), AqiLag(3), Pm25Lag(3), AqiLag(7), Pm25Lag(7),
     AqiRoll7]
  /** The columns removed as leakage before fitting or predicting. */
  const LeakageColumns: seq<Col> := [Date, Pm25, Pm10, No2, So2, Co, O3]
  const Target: Col := Aqi

  /** The `city` column. */
  function Cities(t: seq<FeatureRow>): (cs: seq<string>)
    ensures |cs| == |t| && forall i :: 0 <= i < |t| ==> cs[i] == t[i].rec.city
  {
    seq(|t|, i requires 0 <= i < |t| => t[i].rec.city)
  }

  /** The categories `get_dummies` uses: the distinct cities, in increasing
      order whatever the row order. */
  function Categories(t: seq<FeatureRow>): seq<string>
  {
    Unique(Cities(SortBy(t, FeatureKey)))
  }

  /** The dummy columns: one per category except the first (`drop_first`). */
  function DummyColumns(cs: seq<string>): (d: seq<Col>)
    ensures |cs| > 0 ==> |d| == |cs| - 1 && forall i :: 0 <= i < |d| ==> d[i] == Indicator(cs[i + 1])
    ensures |cs| == 0 ==> d == []
  {
    if |cs| == 0 then [] else seq(|cs| - 1, i requires 0 <= i < |cs| - 1 => Indicator(cs[i + 1]))
  }

  function OptNum(o: Option<real>): Cell
  {
    match o
    case Some(v) => Num(v)
    case None => Missing
  }

  function OptInt(o: Option<int>): Cell
  {
    match o
    case Some(v) => Int(v)
    case None => Missing
  }

  /** The non-city cell of a feature row in column `k`. */
  function BaseCell(r: FeatureRow, k: Col): Cell
  {
    match k
    case Date => Day(r.rec.date)
    case Aqi => OptNum(r.rec.aqi)
    case Pm25 => OptNum(r.rec.pm25)
    case Pm10 => OptNum(r.rec.pm10)
    case No2 => OptNum(r.rec.no2)
    case So2 => OptNum(r.rec.so2)
    case Co => OptNum(r.rec.co)
    case O3 => OptNum(r.rec.o3)
    case Month => OptInt(r.month)
    case DayOfWeek => OptInt(r.dayOfWeek)
    case DayOfYear => OptInt(r.dayOfYear)
    case AqiLag(n) =>
      if n == 1 then OptNum(r.aqiLag1) else if n == 3 then OptNum(r.aqiLag3)
      else if n == 7 then OptNum(r.aqiLag7) else Missing
    case Pm25Lag(n) =>
      if n == 1 then OptNum(r.pm25Lag1) else if n == 3 then OptNum(r.pm25Lag3)
      else if n == 7 then OptNum(r.pm25Lag7) else Missing
    case AqiRoll7 => OptNum(r.aqiRoll7)
    case Indicator(_) => Missing
  }

  /** The non-city cells of a feature row. */
  function BaseCells(r: FeatureRow): Row
  {
    map k | k in BaseColumns + DerivedColumns :: BaseCell(r, k)
  }

  /** The indicator cells of a row of city `city`: set exactly in its own column. */
  function IndicatorCells(dummies: seq<Col>, city: string): Row
  {
    map k | k in dummies :: Flag(k == Indicator(city))
  }

  /** One encoded row. */
  function EncodeRow(cs: seq<string>, r: FeatureRow): Row
  {
    BaseCells(r) + IndicatorCells(DummyColumns(cs), r.rec.city)
  }

  function EncodeAll(cs: seq<string>, t: seq<FeatureRow>): (rows: seq<Row>)
    ensures |rows| == |t| && forall i :: 0 <= i < |t| ==> rows[i] == EncodeRow(cs, t[i])
  {
    if |t| == 0 then [] else [EncodeRow(cs, t[0])] + EncodeAll(cs, t[1..])
  }

  /** `pd.get_dummies(df, columns=["city"], drop_first=True)`: the other
      columns in order, then the dummy columns. */
  function GetDummies(t: seq<FeatureRow>): Frame
  {
    var cs := Categories(t);
    Frame(BaseColumns + DerivedColumns + DummyColumns(cs), EncodeAll(cs, t))
  }

  /** The column list without the dropped columns. */
  function Without(columns: seq<Col>, drop: seq<Col>): seq<Col>
  {
    if |columns| == 0 then []
    else if columns[0] in drop then Without(columns[1..], drop)
    else [columns[0]] + Without(columns[1..], drop)
  }

  function Restrict(row: Row, drop: seq<Col>): (r: Row)
    ensures r.Keys == row.Keys - ColumnSet(drop)
    ensures forall k :: k in r ==> r[k] == row[k]
  {
    map k | k in row && k !in drop :: row[k]
  }

  function RestrictAll(rows: seq<Row>, drop: seq<Col>): (r: seq<Row>)
    ensures |r| == |rows| && forall i :: 0 <= i < |rows| ==> r[i] == Restrict(rows[i], drop)
  {
    seq(|rows|, i requires 0 <= i < |rows| => Restrict(rows[i], drop))
  }

  /** `df.drop(columns=drop)`. */
  function DropColumns(f: Frame, drop: seq<Col>): Frame
  {
    Frame(Without(f.columns, drop), RestrictAll(f.rows, drop))
  }

  /** The boolean masks the programs filter rows with. */
  datatype RowTest =
    | HasIndicator(col: Col)             // df[col] == 1
    | NoIndicator(cols: seq<Col>)        // ~df[cols].any(axis=1)
    | DateBefore(before: int)            // df["date"] < split_date
    | DateFrom(from: int)                // df["date"] >= split_date

  predicate Passes(row: Row, test: RowTest)
  {
    match test
    case HasIndicator(col) => col in row && row[col] == Flag(true)
    case NoIndicator(cols) => forall k :: k in cols ==> !(k in row && row[k] == Flag(true))
    case DateBefore(d) => Date in row && row[Date].Day? && row[Date].day < d
    case DateFrom(d) => Date in row && row[Date].Day? && row[Date].day >= d
  }

  function FilterRows(rows: seq<Row>, test: RowTest): (r: seq<Row>)
    ensures forall x :: x in r ==> x in rows && Passes(x, test)
    ensures forall x :: x in rows && Passes(x, test) ==> x in r
  {
    if |rows| == 0 then []
    else if Passes(rows[0], test) then [rows[0]] + FilterRows(rows[1..], test)
    else FilterRows(rows[1..], test)
  }

  /** `df[column]`. */
  function Column(rows: seq<Row>, column: Col): (col: seq<Cell>)
    ensures |col| == |rows|
  {
    seq(|rows|, i requires 0 <= i < |rows| => if column in rows[i] then rows[i][column] else Missing)
  }

  /** The columns whose name starts with `city_`. */
  function CityColumns(columns: seq<Col>): (r: seq<Col>)
    ensures forall c :: c in r <==> c in columns && HasPrefix(Name(c), Prefix)
  {
    if |columns| == 0 then []
    else if HasPrefix(Name(columns[0]), Prefix) then [columns[0]] + CityColumns(columns[1..])
    else CityColumns(columns[1..])
  }

  /** The frame every consumer works on: sorted, encoded, leakage dropped. */
  function Prepared(table: seq<FeatureRow>): Frame
  {
    DropColumns(GetDummies(SortBy(table, FeatureKey)), LeakageColumns)
  }

  /** A model input row: the derived features and indicators of one row. */
  function FeatureInput(cs: seq<string>, r: FeatureRow): Row
  {
    Restrict(EncodeRow(cs, r), LeakageColumns + [Target])
  }

  /** The model's input columns for the categories `cs`. */
  function InputColumns(cs: seq<string>): seq<Col>
  {
    DerivedColumns + DummyColumns(cs)
  }

  // ---------------------------------------------------------------------
  // Categories

  lemma CitiesMembers(t: seq<FeatureRow>, c: string)
    ensures c in Cities(SortBy(t, FeatureKey)) <==> exists i :: 0 <= i < |t| && t[i].rec.city == c
  {
    var s := SortBy(t, FeatureKey);
    if c in Cities(s) {
      var i :| 0 <= i < |s| && s[i].rec.city == c;
      var j0 := CityFromPermutation(s, t, i);
    }
    if exists i :: 0 <= i < |t| && t[i].rec.city == c {
      var i :| 0 <= i < |t| && t[i].rec.city == c;
      var j := CityFromPermutation(t, s, i);
      assert Cities(s)[j] == c;
    }
  }

  /** A row of one of two sequences with the same elements is a row of the
      other. */
  lemma CityFromPermutation(a: seq<FeatureRow>, b: seq<FeatureRow>, i: nat) returns (j: nat)
    requires multiset(a) == multiset(b) && i < |a|
    ensures j < |b| && b[j] == a[i]
  {
    assert a[i] in multiset(b);
    j :| 0 <= j < |b| && b[j] == a[i];
  }

  /** The categories are the distinct cities of the table, strictly increasing;
      so the dropped first category is the lexicographically smallest city. */
  lemma CategoriesFacts(t: seq<FeatureRow>)
    ensures StrictlySorted(Categories(t))
    ensures forall c :: c in Categories(t) <==> exists i :: 0 <= i < |t| && t[i].rec.city == c
    ensures forall i :: 0 <= i < |t| ==> StrLe(Categories(t)[0], t[i].rec.city)
  {
    var s := SortBy(t, FeatureKey);
    SortSorted(t, FeatureKey);
    forall i, j | 0 <= i < j < |s| ensures StrLe(Cities(s)[i], Cities(s)[j]) {
      SortedCities(s, FeatureKey, i, j);
    }
    UniqueOfSortedIsStrictlySorted(Cities(s));
    forall c ensures c in Categories(t) <==> exists i :: 0 <= i < |t| && t[i].rec.city == c {
      CitiesMembers(t, c);
    }
    var cs := Categories(t);
    forall i | 0 <= i < |t| ensures StrLe(cs[0], t[i].rec.city) {
      var c := t[i].rec.city;
      assert c in cs;
      var k :| 0 <= k < |cs| && cs[k] == c;
      if k == 0 { StrLeRefl(c); }
    }
  }

  /** Sorting first does not change the categories. */
  lemma CategoriesOfSorted(t: seq<FeatureRow>)
    ensures Categories(SortBy(t, FeatureKey)) == Categories(t)
  {
    SortSorted(t, FeatureKey);
    SortOfSorted(SortBy(t, FeatureKey), FeatureKey);
  }

  /** On a table sorted by `(city, date)`, `df["city"].unique()` equals the
      categories `get_dummies` uses. */
  lemma UniqueIsCategories(t: seq<FeatureRow>)
    requires SortedBy(t, FeatureKey)
    ensures Unique(Cities(t)) == Categories(t)
  {
    SortOfSorted(t, FeatureKey);
  }

  // ---------------------------------------------------------------------
  // Columns

  lemma {:induction false} WithoutMembers(columns: seq<Col>, drop: seq<Col>)
    ensures forall c :: c in Without(columns, drop) <==> c in columns && c !in drop
    decreases |columns|
  {
    if |columns| > 0 {
      WithoutMembers(columns[1..], drop);
      assert columns == [columns[0]] + columns[1..];
    }
  }

  lemma {:induction false} WithoutConcat(a: seq<Col>, b: seq<Col>, drop: seq<Col>)
    ensures Without(a + b, drop) == Without(a, drop) + Without(b, drop)
    decreases |a|
  {
    if |a| > 0 {
      assert (a + b)[1..] == a[1..] + b;
      WithoutConcat(a[1..], b, drop);
    } else {
      assert a + b == b;
    }
  }

  lemma {:induction false} WithoutNothing(a: seq<Col>, drop: seq<Col>)
    requires forall c :: c in a ==> c !in drop
    ensures Without(a, drop) == a
    decreases |a|
  {
    if |a| > 0 {
      WithoutNothing(a[1..], drop);
    }
  }

  /** No dropped column is an indicator, so every dummy column survives. */
  lemma DummiesSurvive(cs: seq<string>, drop: seq<Col>)
    requires forall c :: c in drop ==> !c.Indicator?
    ensures Without(DummyColumns(cs), drop) == DummyColumns(cs)
  {
    WithoutNothing(DummyColumns(cs), drop);
  }

  /** A column of the cleaned file: the date, `aqi` or a pollutant. */
  predicate IsBase(c: Col)
  {
    c.Date? || c.Aqi? || c.Pm25? || c.Pm10? || c.No2? || c.So2? || c.Co? || c.O3?
  }

  /** The dropped columns are base columns. */
  lemma DropsAreBase()
    ensures forall c :: c in LeakageColumns ==> IsBase(c) && c != Target
    ensures forall c :: c in LeakageColumns + [Target] ==> IsBase(c)
    ensures forall c :: c in LeakageColumns ==> c in LeakageColumns + [Target]
  {
  }

  /** Dropping base columns only, among them every leakage column, from the
      encoded columns leaves `aqi` unless it is dropped too, then the derived
      columns and the dummy columns. */
  lemma Survivors(cs: seq<string>, drop: seq<Col>)
    requires forall c :: c in drop ==> IsBase(c)
    requires forall c :: c in LeakageColumns ==> c in drop
    ensures Without(BaseColumns + DerivedColumns + DummyColumns(cs), drop)
         == (if Target in drop then [] else [Target]) + InputColumns(cs)
  {
    DummiesSurvive(cs, drop);
    DerivedSurvive(drop);
    BaseWithout(drop);
    WithoutParts(BaseColumns, DerivedColumns, DummyColumns(cs), drop,
                 if Target in drop then [] else [Target]);
  }

  /** Dropping columns from three consecutive parts, the last two of which
      hold none of them. */
  lemma WithoutParts(a: seq<Col>, b: seq<Col>, c: seq<Col>, drop: seq<Col>, kept: seq<Col>)
    requires Without(a, drop) == kept && Without(b, drop) == b && Without(c, drop) == c
    ensures Without(a + b + c, drop) == kept + (b + c)
  {
    WithoutConcat(a + b, c, drop);
    WithoutConcat(a, b, drop);
    assert (kept + b) + c == kept + (b + c);
  }

  lemma DerivedSurvive(drop: seq<Col>)
    requires forall c :: c in drop ==> IsBase(c)
    ensures Without(DerivedColumns, drop) == DerivedColumns
  {
    assert forall c :: c in DerivedColumns ==> !IsBase(c);
    WithoutNothing(DerivedColumns, drop);
  }

  /** Dropping the leakage columns leaves `aqi`, the derived columns and the
      dummy columns. */
  lemma PreparedColumns(cs: seq<string>)
    ensures Without(BaseColumns + DerivedColumns + DummyColumns(cs), LeakageColumns) == [Target] + InputColumns(cs)
  {
    DropsAreBase();
    Survivors(cs, LeakageColumns);
  }

  /** Dropping the leakage columns and then `aqi` from the encoded columns
      leaves the derived columns followed by the dummy columns; so does
      dropping both at once. */
  lemma InputColumnsAfterDrops(cs: seq<string>)
    ensures Without(Without(BaseColumns + DerivedColumns + DummyColumns(cs), LeakageColumns), [Target])
         == InputColumns(cs)
    ensures Without(BaseColumns + DerivedColumns + DummyColumns(cs), LeakageColumns + [Target])
         == InputColumns(cs)
  {
    PreparedColumns(cs);
    TargetThenDrop(cs);
    AllDropsAtOnce(cs);
  }

  lemma TargetThenDrop(cs: seq<string>)
    ensures Without([Target] + InputColumns(cs), [Target]) == InputColumns(cs)
  {
    DummiesSurvive(cs, [Target]);
    DerivedSurvive([Target]);
    WithoutConcat(DerivedColumns, DummyColumns(cs), [Target]);
    WithoutConcat([Target], InputColumns(cs), [Target]);
  }

  lemma AllDropsAtOnce(cs: seq<string>)
    ensures Without(BaseColumns + DerivedColumns + DummyColumns(cs), LeakageColumns + [Target]) == InputColumns(cs)
  {
    DropsAreBase();
    Survivors(cs, LeakageColumns + [Target]);
  }

  /** Dropping the leakage columns from the base columns leaves `aqi`, or
      nothing when `aqi` is dropped as well. */
  lemma BaseWithout(drop: seq<Col>)
    requires forall c :: c in LeakageColumns ==> c in drop
    ensures Without(BaseColumns, drop) == if Target in drop then [] else [Target]
  {
    var b := BaseColumns;
    WithoutAll(b[2..], drop);
    assert b[1..][1..] == b[2..];
  }

  lemma {:induction false} WithoutAll(a: seq<Col>, drop: seq<Col>)
    requires forall c :: c in a ==> c in drop
    ensures Without(a, drop) == []
    decreases |a|
  {
    if |a| > 0 {
      WithoutAll(a[1..], drop);
    }
  }

  /** No model input column is `aqi` or a leakage column, and the `city_`
      columns among them are exactly the dummy columns. */
  lemma InputColumnsClean(cs: seq<string>)
    ensures forall c :: c in LeakageColumns + [Target] ==> c !in InputColumns(cs)
    ensures CityColumns(InputColumns(cs)) == DummyColumns(cs)
  {
    DroppedNotInput(cs);
    assert forall c :: c in DerivedColumns ==> !c.Indicator?;
    CityColumnsOfParts(DerivedColumns, DummyColumns(cs));
  }

  /** Non-indicator columns followed by indicator columns: the `city_`
      columns are the second part. */
  lemma CityColumnsOfParts(a: seq<Col>, b: seq<Col>)
    requires forall c :: c in a ==> !c.Indicator?
    requires forall c :: c in b ==> c.Indicator?
    ensures CityColumns(a + b) == b
  {
    CityColumnsConcat(a, b);
    CityColumnsNone(a);
    CityColumnsAll(b);
  }

  lemma DroppedNotInput(cs: seq<string>)
    ensures forall c :: c in LeakageColumns + [Target] ==> c !in DerivedColumns + DummyColumns(cs)
  {
    DropsAreBase();
    assert forall c :: c in DerivedColumns ==> !IsBase(c);
  }

  /** A category has a column in the prepared frame exactly when it is not
      the first category. */
  lemma ReferenceIndicator(cs: seq<string>, c: string)
    requires Distinct(cs) && c in cs
    ensures Indicator(c) in [Target] + InputColumns(cs) <==> c != cs[0]
  {
    var d := DummyColumns(cs);
    assert Indicator(c) in [Target] + InputColumns(cs) <==> Indicator(c) in d;
    var m :| 0 <= m < |cs| && cs[m] == c;
    if m > 0 {
      assert d[m - 1] == Indicator(c);
    } else {
      forall i | 0 <= i < |d| ensures d[i] != Indicator(c) {
        assert cs[i + 1] != c;
      }
    }
  }

  /** The `city_` columns of the prepared frame are its dummy columns. */
  lemma PreparedCityColumns(cs: seq<string>)
    ensures CityColumns([Target] + InputColumns(cs)) == DummyColumns(cs)
  {
    InputColumnsClean(cs);
    CityColumnsConcat([Target], InputColumns(cs));
    NamePrefix(Target);
  }

  /** Dropping two lists of columns one after the other drops both. */
  lemma RestrictTwice(row: Row, a: seq<Col>, b: seq<Col>)
    ensures Restrict(Restrict(row, a), b) == Restrict(row, a + b)
  {
  }

  lemma {:induction false} CityColumnsConcat(a: seq<Col>, b: seq<Col>)
    ensures CityColumns(a + b) == CityColumns(a) + CityColumns(b)
    decreases |a|
  {
    if |a| > 0 {
      assert (a + b)[1..] == a[1..] + b;
      CityColumnsConcat(a[1..], b);
    } else {
      assert a + b == b;
    }
  }

  lemma {:induction false} CityColumnsNone(a: seq<Col>)
    requires forall c :: c in a ==> !c.Indicator?
    ensures CityColumns(a) == []
    decreases |a|
  {
    if |a| > 0 {
      NamePrefix(a[0]);
      CityColumnsNone(a[1..]);
    }
  }

  lemma {:induction false} CityColumnsAll(a: seq<Col>)
    requires forall c :: c in a ==> c.Indicator?
    ensures CityColumns(a) == a
    decreases |a|
  {
    if |a| > 0 {
      NamePrefix(a[0]);
      CityColumnsAll(a[1..]);
    }
  }

  // ---------------------------------------------------------------------
  // Rows

  /** The dummy cells of an encoded row flag its own city. */
  lemma IndicatorValue(cs: seq<string>, r: FeatureRow, k: Col)
    requires k in DummyColumns(cs)
    ensures k in EncodeRow(cs, r) && EncodeRow(cs, r)[k] == Flag(k == Indicator(r.rec.city))
  {
  }

  /** In an encoded row, the indicator of `c` is set exactly when the row is
      of city `c`; so at most one indicator is set, and none exactly on rows of
      the first category. */
  lemma IndicatorsOfRow(cs: seq<string>, r: FeatureRow)
    requires Distinct(cs) && r.rec.city in cs
    ensures forall k :: k in DummyColumns(cs) ==>
      k in EncodeRow(cs, r) && (EncodeRow(cs, r)[k] == Flag(true) <==> k == Indicator(r.rec.city))
    ensures (forall k :: k in DummyColumns(cs) ==> EncodeRow(cs, r)[k] == Flag(false)) <==> r.rec.city == cs[0]
  {
    var d := DummyColumns(cs);
    var c := r.rec.city;
    forall k | k in d
      ensures k in EncodeRow(cs, r) && EncodeRow(cs, r)[k] == Flag(k == Indicator(c))
    {
      IndicatorValue(cs, r, k);
    }
    var m :| 0 <= m < |cs| && cs[m] == c;
    if m > 0 {
      assert d[m - 1] == Indicator(c);
      assert EncodeRow(cs, r)[d[m - 1]] == Flag(true);
    } else {
      forall k | k in d ensures k != Indicator(c) {
        var i :| 0 <= i < |d| && d[i] == k;
        assert cs[i + 1] != c;
      }
    }
  }

  /** Dropping base columns keeps every dummy cell. */
  lemma RestrictKeepsDummies(cs: seq<string>, row: Row, drop: seq<Col>, k: Col)
    requires forall c :: c in drop ==> IsBase(c)
    requires k in DummyColumns(cs)
    ensures k in Restrict(row, drop) <==> k in row
    ensures k in row ==> Restrict(row, drop)[k] == row[k]
  {
  }

  /** The indicator of a non-first category `c` in a prepared row is set
      exactly when the row is of city `c`. */
  lemma IndicatorCell(cs: seq<string>, r: FeatureRow, c: string)
    requires Distinct(cs) && r.rec.city in cs && c in cs && c != cs[0]
    ensures var row := Restrict(EncodeRow(cs, r), LeakageColumns);
            Indicator(c) in row && (row[Indicator(c)] == Flag(true) <==> r.rec.city == c)
  {
    var m :| 0 <= m < |cs| && cs[m] == c;
    assert DummyColumns(cs)[m - 1] == Indicator(c);
    IndicatorValue(cs, r, Indicator(c));
    DropsAreBase();
    RestrictKeepsDummies(cs, EncodeRow(cs, r), LeakageColumns, Indicator(c));
  }

  /** A prepared row has no dummy column set exactly when it is of the first
      category. */
  lemma NoIndicatorCell(cs: seq<string>, r: FeatureRow)
    requires Distinct(cs) && r.rec.city in cs
    ensures var row := Restrict(EncodeRow(cs, r), LeakageColumns);
            (forall k :: k in DummyColumns(cs) ==> !(k in row && row[k] == Flag(true))) <==> r.rec.city == cs[0]
  {
    IndicatorsOfRow(cs, r);
    DropsAreBase();
    forall k | k in DummyColumns(cs)
      ensures k in Restrict(EncodeRow(cs, r), LeakageColumns)
      ensures Restrict(EncodeRow(cs, r), LeakageColumns)[k] == EncodeRow(cs, r)[k]
    {
      RestrictKeepsDummies(cs, EncodeRow(cs, r), LeakageColumns, k);
    }
  }

  /** The non-indicator cells of an encoded row are the row's own values. */
  lemma EncodeRowBase(cs: seq<string>, r: FeatureRow, k: Col)
    requires !k.Indicator?
    ensures k in EncodeRow(cs, r) <==> k in BaseColumns + DerivedColumns
    ensures k in EncodeRow(cs, r) ==> EncodeRow(cs, r)[k] == BaseCells(r)[k]
  {
  }

  /** `get_dummies` produces a well-formed frame with one row per input row,
      in the same order. */
  lemma GetDummiesWellFormed(t: seq<FeatureRow>)
    ensures WellFormed(GetDummies(t))
    ensures |GetDummies(t).rows| == |t|
  {
    var cs := Categories(t);
    var d := DummyColumns(cs);
    CategoriesFacts(t);
    DummiesDistinct(cs);
    NonCityDistinct();
    DistinctConcat(BaseColumns + DerivedColumns, d);
    forall i | 0 <= i < |t| ensures EncodeRow(cs, t[i]).Keys == ColumnSet(BaseColumns + DerivedColumns + d) {
      EncodeRowKeys(cs, t[i]);
    }
  }

  lemma NonCityDistinct()
    ensures Distinct(BaseColumns + DerivedColumns)
    ensures forall c :: c in BaseColumns + DerivedColumns ==> !c.Indicator?
  {
    assert Distinct(BaseColumns);
    assert Distinct(DerivedColumns);
    assert forall c :: c in BaseColumns ==> IsBase(c);
    assert forall c :: c in DerivedColumns ==> !IsBase(c) && !c.Indicator?;
    DistinctConcat(BaseColumns, DerivedColumns);
  }

  /** An encoded row has a cell for every non-city column and every dummy column. */
  lemma EncodeRowKeys(cs: seq<string>, r: FeatureRow)
    ensures EncodeRow(cs, r).Keys == ColumnSet(BaseColumns + DerivedColumns + DummyColumns(cs))
  {
  }

  lemma DummiesDistinct(cs: seq<string>)
    requires Distinct(cs)
    ensures Distinct(DummyColumns(cs))
  {
  }

  lemma DistinctConcat(a: seq<Col>, b: seq<Col>)
    requires Distinct(a) && Distinct(b)
    requires forall x :: x in a ==> x !in b
    ensures Distinct(a + b)
  {
    forall i, j | 0 <= i < j < |a + b| ensures (a + b)[i] != (a + b)[j] {
      if i < |a| && j >= |a| {
        assert (a + b)[i] in a && (a + b)[j] == b[j - |a|];
      } else if i >= |a| {
        assert (a + b)[i] == b[i - |a|] && (a + b)[j] == b[j - |a|];
      }
    }
  }

  /** Dropping columns keeps a frame well formed. */
  lemma DropWellFormed(f: Frame, drop: seq<Col>)
    requires WellFormed(f)
    ensures WellFormed(DropColumns(f, drop))
  {
    WithoutDistinct(f.columns, drop);
    WithoutMembers(f.columns, drop);
  }

  lemma {:induction false} WithoutDistinct(a: seq<Col>, drop: seq<Col>)
    requires Distinct(a)
    ensures Distinct(Without(a, drop))
    decreases |a|
  {
    if |a| > 0 {
      assert Distinct(a[1..]) by {
        forall i, j | 0 <= i < j < |a[1..]| ensures a[1..][i] != a[1..][j] {
          assert a[1..][i] == a[i + 1] && a[1..][j] == a[j + 1];
        }
      }
      WithoutDistinct(a[1..], drop);
      WithoutMembers(a[1..], drop);
      var w := Without(a[1..], drop);
      if a[0] !in drop {
        forall i, j | 0 <= i < j < |[a[0]] + w| ensures ([a[0]] + w)[i] != ([a[0]] + w)[j] {
          if i > 0 { assert ([a[0]] + w)[i] == w[i - 1]; }
        }
      }
    }
  }
}
