/** The preprocessing of the training script: sort by `(city, date)`, one-hot
    encode the city with `drop_first=True`, split at a date, drop the leakage
    columns and separate the `aqi` target from the model inputs. */
module Train {
  import opened Strings
  import opened Table
  import opened BuildFeatures
  import opened Encoding

  /** The four frames handed to the regressor and its evaluation. */
  datatype Split = Split(xTrain: Frame, yTrain: seq<Cell>, xTest: Frame, yTest: seq<Cell>)

  /** One side of the split: the leakage columns dropped, `X` without `aqi`
      and `y` the `aqi` column. */
  function Separate(df: Frame): (Frame, seq<Cell>)
  {
    var part := DropColumns(df, LeakageColumns);
    (DropColumns(part, [Target]), Column(part.rows, Target))
  }

  /** Lines 14-43 of the training script, with the split date a parameter. */
  function Preprocess(table: seq<FeatureRow>, splitDate: int): Split
  {
    var df := GetDummies(SortBy(table, FeatureKey));
    var train := Separate(Frame(df.columns, FilterRows(df.rows, DateBefore(splitDate))));
    var test := Separate(Frame(df.columns, FilterRows(df.rows, DateFrom(splitDate))));
    Split(train.0, train.1, test.0, test.1)
  }

  /** The rows dated before `d`, in order. */
  function RowsBefore(t: seq<FeatureRow>, d: int): (r: seq<FeatureRow>)
    ensures forall x :: x in r <==> x in t && x.rec.date < d
  {
    if |t| == 0 then []
    else if t[0].rec.date < d then [t[0]] + RowsBefore(t[1..], d)
    else RowsBefore(t[1..], d)
  }

  /** The rows dated `d` or later, in order. */
  function RowsFrom(t: seq<FeatureRow>, d: int): (r: seq<FeatureRow>)
    ensures forall x :: x in r <==> x in t && d <= x.rec.date
  {
    if |t| == 0 then []
    else if d <= t[0].rec.date then [t[0]] + RowsFrom(t[1..], d)
    else RowsFrom(t[1..], d)
  }

  // ---------------------------------------------------------------------
  // The split on feature rows

  /** The two parts share out the rows: together they hold each row as often
      as the table does. */
  lemma {:induction false} SplitPartition(t: seq<FeatureRow>, d: int)
    ensures multiset(RowsBefore(t, d)) + multiset(RowsFrom(t, d)) == multiset(t)
    ensures |RowsBefore(t, d)| + |RowsFrom(t, d)| == |t|
  {
    if |t| > 0 {
      SplitPartition(t[1..], d);
      assert t == [t[0]] + t[1..];
    }
  }

  /** Each part keeps the table's row order. */
  lemma {:induction false} SplitKeepsOrder(t: seq<FeatureRow>, d: int)
    ensures Subseq(RowsBefore(t, d), t) && Subseq(RowsFrom(t, d), t)
  {
    if |t| > 0 {
      SplitKeepsOrder(t[1..], d);
      SubseqDrop(RowsBefore(t[1..], d), t);
      SubseqDrop(RowsFrom(t[1..], d), t);
      if t[0].rec.date < d {
        assert ([t[0]] + RowsBefore(t[1..], d))[1..] == RowsBefore(t[1..], d);
      } else {
        assert ([t[0]] + RowsFrom(t[1..], d))[1..] == RowsFrom(t[1..], d);
      }
    }
  }

  /** Every training date is strictly earlier than every test date, and the
      parts of a `(city, date)`-sorted table are sorted. */
  lemma SplitDates(t: seq<FeatureRow>, d: int)
    requires SortedBy(t, FeatureKey)
    ensures forall x, y :: x in RowsBefore(t, d) && y in RowsFrom(t, d) ==> x.rec.date < y.rec.date
    ensures SortedBy(RowsBefore(t, d), FeatureKey) && SortedBy(RowsFrom(t, d), FeatureKey)
  {
    SplitKeepsOrder(t, d);
    SubseqSorted(RowsBefore(t, d), t, FeatureKey);
    SubseqSorted(RowsFrom(t, d), t, FeatureKey);
  }

  // ---------------------------------------------------------------------
  // The split on encoded rows

  /** The date masks read the row's own date. */
  lemma DatePasses(cs: seq<string>, r: FeatureRow, d: int)
    ensures Passes(EncodeRow(cs, r), DateBefore(d)) <==> r.rec.date < d
    ensures Passes(EncodeRow(cs, r), DateFrom(d)) <==> d <= r.rec.date
  {
    EncodeRowBase(cs, r, Date);
  }

  /** Masking the encoded rows by date encodes the feature rows of that side. */
  lemma {:induction false} FilterEncoded(cs: seq<string>, t: seq<FeatureRow>, d: int)
    ensures FilterRows(EncodeAll(cs, t), DateBefore(d)) == EncodeAll(cs, RowsBefore(t, d))
    ensures FilterRows(EncodeAll(cs, t), DateFrom(d)) == EncodeAll(cs, RowsFrom(t, d))
  {
    if |t| > 0 {
      FilterEncoded(cs, t[1..], d);
      DatePasses(cs, t[0], d);
      assert EncodeAll(cs, t)[1..] == EncodeAll(cs, t[1..]);
    }
  }

  /** The model inputs `x` and targets `y` of the feature rows `part`: the
      input columns in order, one model input per row, `aqi` aligned with it. */
  ghost predicate InputsOf(x: Frame, y: seq<Cell>, cs: seq<string>, part: seq<FeatureRow>)
  {
    && x.columns == InputColumns(cs)
    && |x.rows| == |part| && |y| == |part|
    && forall i :: 0 <= i < |part| ==> x.rows[i] == FeatureInput(cs, part[i]) && y[i] == OptNum(part[i].rec.aqi)
  }

  /** One side of the split, encoded, separates into its inputs and targets. */
  lemma SeparateEncoded(cs: seq<string>, part: seq<FeatureRow>)
    ensures var xy := Separate(Frame(BaseColumns + DerivedColumns + DummyColumns(cs), EncodeAll(cs, part)));
            InputsOf(xy.0, xy.1, cs, part)
  {
    var cols := BaseColumns + DerivedColumns + DummyColumns(cs);
    SeparateColumns(cs, cols, EncodeAll(cs, part));
    SeparateRows(cols, cs, part);
  }

  lemma SeparateColumns(cs: seq<string>, cols: seq<Col>, rows: seq<Row>)
    requires cols == BaseColumns + DerivedColumns + DummyColumns(cs)
    ensures Separate(Frame(cols, rows)).0.columns == InputColumns(cs)
  {
    InputColumnsAfterDrops(cs);
  }

  lemma SeparateRows(cols: seq<Col>, cs: seq<string>, part: seq<FeatureRow>)
    ensures var xy := Separate(Frame(cols, EncodeAll(cs, part)));
            && |xy.0.rows| == |part| && |xy.1| == |part|
            && forall i :: 0 <= i < |part| ==>
                 xy.0.rows[i] == FeatureInput(cs, part[i]) && xy.1[i] == OptNum(part[i].rec.aqi)
  {
    forall i | 0 <= i < |part|
      ensures Restrict(Restrict(EncodeRow(cs, part[i]), LeakageColumns), [Target]) == FeatureInput(cs, part[i])
      ensures Target in Restrict(EncodeRow(cs, part[i]), LeakageColumns)
      ensures Restrict(EncodeRow(cs, part[i]), LeakageColumns)[Target] == OptNum(part[i].rec.aqi)
    {
      SeparateRow(cs, part[i]);
    }
  }

  /** One encoded row without its leakage cells still holds `aqi`, and
      dropping that too leaves its model input. */
  lemma SeparateRow(cs: seq<string>, r: FeatureRow)
    ensures Restrict(Restrict(EncodeRow(cs, r), LeakageColumns), [Target]) == FeatureInput(cs, r)
    ensures Target in Restrict(EncodeRow(cs, r), LeakageColumns)
    ensures Restrict(EncodeRow(cs, r), LeakageColumns)[Target] == OptNum(r.rec.aqi)
  {
    RestrictTwice(EncodeRow(cs, r), LeakageColumns, [Target]);
    EncodeRowBase(cs, r, Target);
  }

  /** The script's chain, rewritten as separating the encoded sides. */
  lemma PreprocessSides(table: seq<FeatureRow>, d: int)
    ensures var st := SortBy(table, FeatureKey);
            var cs := Categories(table);
            var cols := BaseColumns + DerivedColumns + DummyColumns(cs);
            var train := Separate(Frame(cols, EncodeAll(cs, RowsBefore(st, d))));
            var test := Separate(Frame(cols, EncodeAll(cs, RowsFrom(st, d))));
            Preprocess(table, d) == Split(train.0, train.1, test.0, test.1)
  {
    var st := SortBy(table, FeatureKey);
    CategoriesOfSorted(table);
    FilterEncoded(Categories(table), st, d);
  }

  /** `X_train`, `y_train`, `X_test` and `y_test` are the encoded rows of the
      two sides of the sorted table: inputs in the layout `InputColumns`,
      targets the `aqi` values of the same rows. */
  lemma PreprocessRows(table: seq<FeatureRow>, d: int)
    ensures var p := Preprocess(table, d);
            var st := SortBy(table, FeatureKey);
            && InputsOf(p.xTrain, p.yTrain, Categories(table), RowsBefore(st, d))
            && InputsOf(p.xTest, p.yTest, Categories(table), RowsFrom(st, d))
  {
    var st := SortBy(table, FeatureKey);
    var cs := Categories(table);
    PreprocessSides(table, d);
    SeparateEncoded(cs, RowsBefore(st, d));
    SeparateEncoded(cs, RowsFrom(st, d));
  }

  /** No training or test input holds `aqi` or a leakage column. */
  lemma InputsHaveNoLeakage(table: seq<FeatureRow>, d: int)
    ensures var p := Preprocess(table, d);
            forall k :: k in LeakageColumns + [Target] ==>
              && k !in p.xTrain.columns && k !in p.xTest.columns
              && (forall i :: 0 <= i < |p.xTrain.rows| ==> k !in p.xTrain.rows[i])
              && (forall i :: 0 <= i < |p.xTest.rows| ==> k !in p.xTest.rows[i])
  {
    var st := SortBy(table, FeatureKey);
    var cs := Categories(table);
    PreprocessRows(table, d);
    InputColumnsClean(cs);
  }

  /** Every sorted row lands in exactly one side, train when it is dated
      before the split date and test otherwise. */
  lemma EachRowOnce(table: seq<FeatureRow>, d: int, x: FeatureRow)
    requires x in table
    ensures var st := SortBy(table, FeatureKey);
            (x in RowsBefore(st, d) <==> x.rec.date < d) && (x in RowsFrom(st, d) <==> !(x.rec.date < d))
  {
    var st := SortBy(table, FeatureKey);
    assert x in multiset(st);
  }
}
