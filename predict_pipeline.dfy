/** The stand-alone prediction script: the preparation the service performs,
    the very last row of the prepared frame as the model input, and the same
    assessment of the one prediction. */
module PredictPipeline {
  import opened Wrappers
  import opened Strings
  import opened Table
  import opened BuildFeatures
  import opened Encoding
  import opened Assessment
  import opened Predictor

  /** `df.drop(columns=["aqi"]).iloc[-1:]`: the last row of the frame without
      `aqi`, as a one-row frame; no row at all when the frame is empty. */
  function LatestSample(df: Frame): Frame
  {
    var x := DropColumns(df, [Target]);
    Frame(x.columns, if |x.rows| == 0 then [] else [x.rows[|x.rows| - 1]])
  }

  /** Lines 10-40 of the script. `None` stands for the exception that
      `model.predict(latest_sample)[0]` raises on an empty table. */
  function RunPipeline(table: seq<FeatureRow>, model: Frame -> real): Option<Forecast>
  {
    var sample := LatestSample(Prepared(table));
    if |sample.rows| == 0 then None else Some(Assess(model(sample)))
  }

  /** The sample has the model's input columns, whatever the table. */
  lemma SampleColumns(table: seq<FeatureRow>)
    ensures LatestSample(Prepared(table)).columns == InputColumns(Categories(table))
    ensures |LatestSample(Prepared(table)).rows| == if |table| == 0 then 0 else 1
  {
    PreparedShape(table);
    TargetThenDrop(Categories(table));
  }

  /** On a non-empty table the sample is the model input of the last row of
      the `(city, date)`-sorted table. */
  lemma SampleIsLastRow(table: seq<FeatureRow>)
    requires |table| > 0
    ensures var st := SortBy(table, FeatureKey);
            var cs := Categories(table);
            LatestSample(Prepared(table)) == Frame(InputColumns(cs), [FeatureInput(cs, st[|st| - 1])])
  {
    PreparedFromTable(table);
    SampleOfPrepared(Prepared(table), table);
  }

  lemma SampleOfPrepared(df: Frame, table: seq<FeatureRow>)
    requires PreparedFrom(df, table) && |table| > 0
    ensures var st := SortBy(table, FeatureKey);
            var cs := Categories(table);
            LatestSample(df) == Frame(InputColumns(cs), [FeatureInput(cs, st[|st| - 1])])
  {
    var st := SortBy(table, FeatureKey);
    var n := |st| - 1;
    DropTargetOfPrepared(Categories(table), st[n], df.columns, df.rows[n]);
    assert DropColumns(df, [Target]).rows[n] == Restrict(df.rows[n], [Target]);
  }

  /** The last sorted row belongs to the lexicographically greatest city of
      the table and carries that city's latest date. */
  lemma LastRowIsGreatest(table: seq<FeatureRow>)
    requires |table| > 0
    ensures var last := SortBy(table, FeatureKey)[|table| - 1];
            && last in table
            && (forall i :: 0 <= i < |table| ==> StrLe(table[i].rec.city, last.rec.city))
            && (forall i :: 0 <= i < |table| && table[i].rec.city == last.rec.city ==> table[i].rec.date <= last.rec.date)
  {
    var st := SortBy(table, FeatureKey);
    SortSorted(table, FeatureKey);
    assert st[|st| - 1] in multiset(table);
    forall i | 0 <= i < |table|
      ensures StrLe(table[i].rec.city, st[|st| - 1].rec.city)
      ensures table[i].rec.city == st[|st| - 1].rec.city ==> table[i].rec.date <= st[|st| - 1].rec.date
    {
      assert table[i] in multiset(st);
      GreatestOfSorted(st, table[i]);
    }
  }

  /** Every row of a sorted table has a city no greater than the last row's,
      and a date no later when the city is the same. */
  lemma GreatestOfSorted(st: seq<FeatureRow>, x: FeatureRow)
    requires SortedBy(st, FeatureKey) && x in st
    ensures StrLe(x.rec.city, st[|st| - 1].rec.city)
    ensures x.rec.city == st[|st| - 1].rec.city ==> x.rec.date <= st[|st| - 1].rec.date
  {
    var n := |st| - 1;
    var k :| 0 <= k < |st| && st[k] == x;
    if k < n {
      assert KeyLe(FeatureKey(st[k]), FeatureKey(st[n]));
      KeyLeCity(FeatureKey(st[k]), FeatureKey(st[n]));
    } else {
      StrLeRefl(x.rec.city);
    }
  }

  /** The sample holds neither `aqi` nor a leakage column, as a column or as a
      cell. */
  lemma SampleHasNoLeakage(table: seq<FeatureRow>)
    ensures var x := LatestSample(Prepared(table));
            forall k :: k in LeakageColumns + [Target] ==>
              k !in x.columns && forall i :: 0 <= i < |x.rows| ==> k !in x.rows[i]
  {
    SampleColumns(table);
    InputColumnsClean(Categories(table));
    if |table| > 0 {
      SampleIsLastRow(table);
      var st := SortBy(table, FeatureKey);
      InputHasNoLeakage(Categories(table), st[|st| - 1]);
    }
  }

  /** The script raises exactly on an empty table. */
  lemma PipelineRaisesIffEmpty(table: seq<FeatureRow>, model: Frame -> real)
    ensures RunPipeline(table, model).None? <==> |table| == 0
  {
    SampleColumns(table);
  }

  /** On a non-empty table the script prints what `predict_latest` answers
      for the lexicographically greatest city: the same row, the same model
      input, the same category, scores and advisory. */
  lemma PipelineIsServiceForLastCity(table: seq<FeatureRow>, model: Frame -> real)
    requires |table| > 0
    ensures var st := SortBy(table, FeatureKey);
            var cs := Categories(table);
            var x := Frame(InputColumns(cs), [FeatureInput(cs, st[|st| - 1])]);
            && st[|st| - 1].rec.city in Load(table, model).availableCities
            && RunPipeline(table, model) == Some(Assess(model(x)))
            && PredictLatest(Load(table, model), st[|st| - 1].rec.city) == Answer(Assess(model(x)))
  {
    LoadIsLoadedFrom(table, model);
    var j := ServedLastCity(Load(table, model), table);
    SampleIsLastRow(table);
  }

  /** A service loaded from a non-empty table answers for the city of the last
      sorted row with the model input of that very row. */
  lemma ServedLastCity(s: Service, table: seq<FeatureRow>) returns (j: nat)
    requires LoadedFrom(s, table) && |table| > 0
    ensures var st := SortBy(table, FeatureKey);
            var cs := Categories(table);
            && j == |st| - 1
            && st[j].rec.city in s.availableCities
            && PredictLatest(s, st[j].rec.city)
                 == Answer(Assess(s.model(Frame(InputColumns(cs), [FeatureInput(cs, st[j])]))))
  {
    var st := SortBy(table, FeatureKey);
    SortedCityIsCategory(table, |st| - 1);
    j := LatestRow(s, table, st[|st| - 1].rec.city);
  }
}
