/** The three programs that prepare a feature table (the training script,
    the prediction service, the stand-alone prediction script) agree on the
    model's input layout when they are given the same table. */
module Consistency {
  import opened Table
  import opened BuildFeatures
  import opened Encoding
  import opened Assessment
  import opened Train
  import opened Predictor
  import opened PredictPipeline

  /** A model input row holds exactly the cells of the input columns. */
  lemma FeatureInputKeys(cs: seq<string>, r: FeatureRow)
    ensures FeatureInput(cs, r).Keys == ColumnSet(InputColumns(cs))
  {
    var all := BaseColumns + DerivedColumns + DummyColumns(cs);
    EncodeRowKeys(cs, r);
    AllDropsAtOnce(cs);
    WithoutMembers(all, LeakageColumns + [Target]);
  }

  /** The training inputs, the test inputs and the service's model input all
      have the columns of `X_train`, in the same order, and the service feeds
      the model the latest row of the requested city in that layout. */
  lemma TrainServeLayout(table: seq<FeatureRow>, model: Frame -> real, city: string, d: int) returns (j: nat)
    requires city in Categories(table)
    ensures var st := SortBy(table, FeatureKey);
            var p := Preprocess(table, d);
            && j < |st| && st[j].rec.city == city
            && p.xTest.columns == p.xTrain.columns
            && PredictLatest(Load(table, model), city)
                 == Answer(Assess(model(Frame(p.xTrain.columns, [FeatureInput(Categories(table), st[j])]))))
  {
    j := KnownCityAnswers(table, model, city);
    PreprocessRows(table, d);
  }

  /** The stand-alone script's sample has the columns of `X_train`, in the
      same order. */
  lemma PipelineTrainLayout(table: seq<FeatureRow>, d: int)
    ensures var p := Preprocess(table, d);
            && LatestSample(Prepared(table)).columns == p.xTrain.columns
            && p.xTest.columns == p.xTrain.columns
  {
    SampleColumns(table);
    PreprocessRows(table, d);
  }

  /** Every row of `X_train` and `X_test` has exactly the cells of the
      layout's columns, as the service's and the script's inputs do. */
  lemma InputRowsMatchLayout(table: seq<FeatureRow>, d: int)
    ensures var p := Preprocess(table, d);
            && (forall i :: 0 <= i < |p.xTrain.rows| ==> p.xTrain.rows[i].Keys == ColumnSet(p.xTrain.columns))
            && (forall i :: 0 <= i < |p.xTest.rows| ==> p.xTest.rows[i].Keys == ColumnSet(p.xTest.columns))
            && (forall i :: 0 <= i < |LatestSample(Prepared(table)).rows| ==>
                  LatestSample(Prepared(table)).rows[i].Keys == ColumnSet(p.xTrain.columns))
  {
    var p := Preprocess(table, d);
    var st := SortBy(table, FeatureKey);
    var cs := Categories(table);
    PreprocessRows(table, d);
    forall i | 0 <= i < |p.xTrain.rows| ensures p.xTrain.rows[i].Keys == ColumnSet(p.xTrain.columns) {
      FeatureInputKeys(cs, RowsBefore(st, d)[i]);
    }
    forall i | 0 <= i < |p.xTest.rows| ensures p.xTest.rows[i].Keys == ColumnSet(p.xTest.columns) {
      FeatureInputKeys(cs, RowsFrom(st, d)[i]);
    }
    SampleColumns(table);
    if |table| > 0 {
      SampleIsLastRow(table);
      FeatureInputKeys(cs, st[|st| - 1]);
    }
  }
}
