/** The prediction service: a table prepared once when the service loads, and
    `predict_latest`, which scores the latest row of a requested city. */
module Predictor {
  import opened Wrappers
  import opened Strings
  import opened Table
  import opened BuildFeatures
  import opened Encoding
  import opened Assessment

  /** The state built when the service loads and only read afterwards; the
      regressor is an uninterpreted function of its one-row input frame. */
  datatype Service = Service(encoded: Frame, availableCities: seq<string>, model: Frame -> real)

  /** Module-level setup: sort the feature table by `(city, date)`, encode it,
      drop the leakage columns and list the cities in order of appearance. */
  function Load(table: seq<FeatureRow>, model: Frame -> real): Service
  {
    Service(Prepared(table), Unique(Cities(SortBy(table, FeatureKey))), model)
  }

  /** The dictionary `predict_latest` returns, or the exception it raises when
      a selection finds no row (`model.predict` of an empty frame). */
  datatype Response = Answer(forecast: Forecast) | ErrorDict(error: string) | Raises

  const NotFound: string := "City not found. Available cities: "

  /** Python's `repr` of a string without quotes or backslashes. */
  function Quote(c: string): string
  {
    "'" + c + "'"
  }

  function JoinQuoted(cs: seq<string>): string
  {
    if |cs| == 0 then ""
    else if |cs| == 1 then Quote(cs[0])
    else Quote(cs[0]) + ", " + JoinQuoted(cs[1..])
  }

  /** Python's `str` of a list of strings. */
  function PyList(cs: seq<string>): string
  {
    "[" + JoinQuoted(cs) + "]"
  }

  /** The row mask for `city`: its indicator column when the frame has one,
      otherwise the rows where no `city_` column is set. */
  function Selector(columns: seq<Col>, city: string): RowTest
  {
    var col := Indicator(city);
    if col !in columns then NoIndicator(CityColumns(columns)) else HasIndicator(col)
  }

  /** `.iloc[-1:]` of a masked frame: the last passing row. */
  function LastIndex(rows: seq<Row>, test: RowTest): (j: Option<nat>)
    ensures j.Some? ==> j.value < |rows| && Passes(rows[j.value], test)
                        && forall k :: j.value < k < |rows| ==> !Passes(rows[k], test)
    ensures j.None? ==> forall k :: 0 <= k < |rows| ==> !Passes(rows[k], test)
  {
    if |rows| == 0 then None
    else if Passes(rows[|rows| - 1], test) then Some(|rows| - 1)
    else LastIndex(rows[..|rows| - 1], test)
  }

  /** `predict_latest(city)`. */
  function PredictLatest(s: Service, city: string): Response
  {
    if city !in s.availableCities then ErrorDict(NotFound + PyList(s.availableCities))
    else
      match LastIndex(s.encoded.rows, Selector(s.encoded.columns, city))
      case None => Raises
      case Some(j) =>
        var latest := Frame(s.encoded.columns, [s.encoded.rows[j]]);
        var x := DropColumns(latest, [Target]);
        Answer(Assess(s.model(x)))
  }

  predicate Contains(s: string, part: string)
  {
    exists i, j :: 0 <= i <= j <= |s| && s[i..j] == part
  }

  lemma ContainsExtend(a: string, part: string, b: string, c: string)
    requires Contains(a, part)
    ensures Contains(b + a + c, part)
  {
    var i, j :| 0 <= i <= j <= |a| && a[i..j] == part;
    assert (b + a + c)[|b| + i..|b| + j] == a[i..j];
  }

  lemma {:induction false} JoinQuotedContains(cs: seq<string>, k: nat)
    requires k < |cs|
    ensures Contains(JoinQuoted(cs), Quote(cs[k]))
    decreases |cs|
  {
    if |cs| == 1 || k == 0 {
      var q := Quote(cs[k]);
      assert JoinQuoted(cs)[0..|q|] == q;
    } else {
      JoinQuotedContains(cs[1..], k - 1);
      ContainsExtend(JoinQuoted(cs[1..]), Quote(cs[k]), Quote(cs[0]) + ", ", "");
      assert Quote(cs[0]) + ", " + JoinQuoted(cs[1..]) + "" == JoinQuoted(cs);
    }
  }

  /** A message made of a prefix and a list starts with the prefix and
      quotes every element of the list. */
  lemma ListMessage(p: string, cs: seq<string>)
    ensures HasPrefix(p + PyList(cs), p)
    ensures forall k :: 0 <= k < |cs| ==> Contains(p + PyList(cs), Quote(cs[k]))
  {
    var msg := p + PyList(cs);
    assert msg[..|p|] == p;
    forall k | 0 <= k < |cs| ensures Contains(msg, Quote(cs[k])) {
      ListMessageQuotes(p, cs, k);
    }
  }

  lemma ListMessageQuotes(p: string, cs: seq<string>, k: nat)
    requires k < |cs|
    ensures Contains(p + PyList(cs), Quote(cs[k]))
  {
    var j := JoinQuoted(cs);
    JoinQuotedContains(cs, k);
    ContainsExtend(j, Quote(cs[k]), p + "[", "]");
    assert p + "[" + j + "]" == p + ("[" + j + "]");
  }

  /** An unknown city gets the error dictionary, whose message names every
      available city; the model is not consulted. */
  lemma UnknownCity(s: Service, city: string, other: Frame -> real)
    requires city !in s.availableCities
    ensures PredictLatest(s, city) == ErrorDict(NotFound + PyList(s.availableCities))
    ensures HasPrefix(PredictLatest(s, city).error, NotFound)
    ensures forall k :: 0 <= k < |s.availableCities| ==>
              Contains(PredictLatest(s, city).error, Quote(s.availableCities[k]))
    ensures PredictLatest(s.(model := other), city) == PredictLatest(s, city)
  {
    ListMessage(NotFound, s.availableCities);
  }

  /** The city list of a loaded service is the categories of its encoding. */
  lemma LoadedCities(table: seq<FeatureRow>, model: Frame -> real)
    ensures Load(table, model).availableCities == Categories(table)
    ensures Load(table, model).encoded.columns == [Target] + InputColumns(Categories(table))
    ensures |Load(table, model).encoded.rows| == |table|
  {
    var st := SortBy(table, FeatureKey);
    SortSorted(table, FeatureKey);
    UniqueIsCategories(st);
    PreparedShape(table);
  }

  /** The prepared frame has `aqi`, then the model's input columns, and one
      row per table row. */
  lemma PreparedShape(table: seq<FeatureRow>)
    ensures Prepared(table).columns == [Target] + InputColumns(Categories(table))
    ensures |Prepared(table).rows| == |table|
  {
    CategoriesOfSorted(table);
    PreparedColumns(Categories(table));
    assert Prepared(table).columns
        == Without(BaseColumns + DerivedColumns + DummyColumns(Categories(table)), LeakageColumns);
  }

  /** For a known city the service takes the no-indicator branch exactly when
      the city is the first, lexicographically smallest, of the list. */
  lemma ReferenceBranch(table: seq<FeatureRow>, model: Frame -> real, city: string)
    requires city in Load(table, model).availableCities
    ensures var s := Load(table, model);
            (Indicator(city) !in s.encoded.columns <==> city == s.availableCities[0])
    ensures var s := Load(table, model);
            forall i :: 0 <= i < |table| ==> StrLe(s.availableCities[0], table[i].rec.city)
  {
    LoadedCities(table, model);
    CategoriesFacts(table);
    ReferenceIndicator(Categories(table), city);
  }

  /** What preparing `table` produces: the prepared columns and, row for
      row, the sorted table encoded without its leakage columns. */
  ghost predicate PreparedFrom(df: Frame, table: seq<FeatureRow>)
  {
    var st := SortBy(table, FeatureKey);
    var cs := Categories(table);
    && df.columns == [Target] + InputColumns(cs)
    && |df.rows| == |st|
    && forall i {:trigger df.rows[i]} :: 0 <= i < |st| ==> df.rows[i] == Restrict(EncodeRow(cs, st[i]), LeakageColumns)
  }

  /** What loading `table` produces: the category list and the prepared frame. */
  ghost predicate LoadedFrom(s: Service, table: seq<FeatureRow>)
  {
    s.availableCities == Categories(table) && PreparedFrom(s.encoded, table)
  }

  lemma LoadIsLoadedFrom(table: seq<FeatureRow>, model: Frame -> real)
    ensures LoadedFrom(Load(table, model), table)
    ensures Load(table, model).model == model
  {
    LoadedCities(table, model);
    PreparedFromTable(table);
  }

  lemma PreparedFromTable(table: seq<FeatureRow>)
    ensures PreparedFrom(Prepared(table), table)
  {
    PreparedShape(table);
    PreparedRows(table);
  }

  lemma PreparedRows(table: seq<FeatureRow>)
    ensures var st := SortBy(table, FeatureKey);
            forall i :: 0 <= i < |st| ==> Prepared(table).rows[i] == Restrict(EncodeRow(Categories(table), st[i]), LeakageColumns)
  {
    CategoriesOfSorted(table);
  }

  /** Every city of the sorted table is a category. */
  lemma SortedCityIsCategory(table: seq<FeatureRow>, i: nat)
    requires i < |table|
    ensures SortBy(table, FeatureKey)[i].rec.city in Categories(table)
  {
    var st := SortBy(table, FeatureKey);
    CategoriesOfSorted(table);
    CategoriesFacts(st);
  }

  /** Every category is the city of some row of the sorted table. */
  lemma CategoryHasRow(table: seq<FeatureRow>, city: string) returns (v: nat)
    requires city in Categories(table)
    ensures v < |table| && SortBy(table, FeatureKey)[v].rec.city == city
  {
    var st := SortBy(table, FeatureKey);
    CategoriesOfSorted(table);
    CategoriesFacts(st);
    v :| 0 <= v < |st| && st[v].rec.city == city;
  }

  /** On a prepared row, the mask for a category selects exactly the rows of
      that city. */
  lemma SelectorOnPrepared(cs: seq<string>, r: FeatureRow, city: string, row: Row, columns: seq<Col>)
    requires Distinct(cs) && r.rec.city in cs && city in cs
    requires row == Restrict(EncodeRow(cs, r), LeakageColumns)
    requires columns == [Target] + InputColumns(cs)
    ensures Passes(row, Selector(columns, city)) <==> r.rec.city == city
  {
    ReferenceIndicator(cs, city);
    if city == cs[0] {
      PreparedCityColumns(cs);
      NoIndicatorCell(cs, r);
    } else {
      IndicatorCell(cs, r, city);
    }
  }

  /** Row `i` of the loaded frame passes the mask for a known city exactly
      when row `i` of the sorted table is of that city. */
  lemma SelectorMatchesCity(s: Service, table: seq<FeatureRow>, city: string, i: nat)
    requires LoadedFrom(s, table) && city in s.availableCities
    requires i < |table|
    ensures Passes(s.encoded.rows[i], Selector(s.encoded.columns, city))
            <==> SortBy(table, FeatureKey)[i].rec.city == city
  {
    var st := SortBy(table, FeatureKey);
    SortedCityIsCategory(table, i);
    SelectorOnPrepared(Categories(table), st[i], city, s.encoded.rows[i], s.encoded.columns);
  }

  /** The mask for a known city selects a last row, and that row is the last
      row of the city in the sorted table. */
  lemma LastOfCity(s: Service, table: seq<FeatureRow>, city: string) returns (j: nat)
    requires LoadedFrom(s, table) && city in s.availableCities
    ensures LastIndex(s.encoded.rows, Selector(s.encoded.columns, city)) == Some(j)
    ensures var st := SortBy(table, FeatureKey);
            && j < |st| && st[j].rec.city == city
            && (forall i :: j < i < |st| ==> st[i].rec.city != city)
  {
    var st := SortBy(table, FeatureKey);
    var sel := Selector(s.encoded.columns, city);
    var v := CategoryHasRow(table, city);
    SelectorMatchesCity(s, table, city, v);
    var found := LastIndex(s.encoded.rows, sel);
    assert Passes(s.encoded.rows[v], sel);
    j := found.value;
    SelectorMatchesCity(s, table, city, j);
    forall i | j < i < |st| ensures st[i].rec.city != city {
      SelectorMatchesCity(s, table, city, i);
    }
  }

  /** In the `(city, date)`-sorted table the last row of a city carries the
      city's latest date. */
  lemma LastIsLatest(table: seq<FeatureRow>, j: nat)
    requires var st := SortBy(table, FeatureKey);
             j < |st| && forall i :: j < i < |st| ==> st[i].rec.city != st[j].rec.city
    ensures var st := SortBy(table, FeatureKey);
            forall i :: 0 <= i < |st| && st[i].rec.city == st[j].rec.city ==> st[i].rec.date <= st[j].rec.date
  {
    SortSorted(table, FeatureKey);
    LastIsLatestIn(SortBy(table, FeatureKey), j);
  }

  lemma LastIsLatestIn(st: seq<FeatureRow>, j: nat)
    requires SortedBy(st, FeatureKey)
    requires j < |st| && forall i :: j < i < |st| ==> st[i].rec.city != st[j].rec.city
    ensures forall i :: 0 <= i < |st| && st[i].rec.city == st[j].rec.city ==> st[i].rec.date <= st[j].rec.date
  {
    forall i | 0 <= i < j && st[i].rec.city == st[j].rec.city ensures st[i].rec.date <= st[j].rec.date {
      assert KeyLe(FeatureKey(st[i]), FeatureKey(st[j]));
    }
  }

  /** For a known city, `predict_latest` scores the last row of that city in
      the sorted table, which carries the city's latest date; the model input
      is that row's derived features and indicators, in training's column
      order. */
  lemma LatestRow(s: Service, table: seq<FeatureRow>, city: string) returns (j: nat)
    requires LoadedFrom(s, table) && city in s.availableCities
    ensures var st := SortBy(table, FeatureKey);
            && j < |st| && st[j].rec.city == city
            && (forall i :: j < i < |st| ==> st[i].rec.city != city)
            && (forall i :: 0 <= i < |st| && st[i].rec.city == city ==> st[i].rec.date <= st[j].rec.date)
    ensures var cs := Categories(table);
            PredictLatest(s, city)
              == Answer(Assess(s.model(Frame(InputColumns(cs), [FeatureInput(cs, SortBy(table, FeatureKey)[j])]))))
  {
    j := LastOfCity(s, table, city);
    LastIsLatest(table, j);
    var st := SortBy(table, FeatureKey);
    DropTargetOfPrepared(Categories(table), st[j], s.encoded.columns, s.encoded.rows[j]);
  }

  /** Dropping `aqi` from one prepared row leaves the model input of that row. */
  lemma DropTargetOfPrepared(cs: seq<string>, r: FeatureRow, columns: seq<Col>, row: Row)
    requires columns == [Target] + InputColumns(cs)
    requires row == Restrict(EncodeRow(cs, r), LeakageColumns)
    ensures DropColumns(Frame(columns, [row]), [Target]) == Frame(InputColumns(cs), [FeatureInput(cs, r)])
  {
    TargetThenDrop(cs);
    RestrictTwice(EncodeRow(cs, r), LeakageColumns, [Target]);
  }

  /** The model input of `predict_latest` holds none of the leakage columns
      and not `aqi`, as columns or as cells. */
  lemma InputHasNoLeakage(cs: seq<string>, r: FeatureRow)
    ensures forall k :: k in LeakageColumns + [Target] ==> k !in InputColumns(cs) && k !in FeatureInput(cs, r)
  {
    InputColumnsClean(cs);
  }

  /** A known city of a loaded service never makes `predict_latest` raise: it
      is answered from the city's latest row. */
  lemma KnownCityAnswers(table: seq<FeatureRow>, model: Frame -> real, city: string) returns (j: nat)
    requires city in Categories(table)
    ensures var st := SortBy(table, FeatureKey);
            j < |st| && st[j].rec.city == city && forall i :: j < i < |st| ==> st[i].rec.city != city
    ensures var cs := Categories(table);
            PredictLatest(Load(table, model), city)
              == Answer(Assess(model(Frame(InputColumns(cs), [FeatureInput(cs, SortBy(table, FeatureKey)[j])]))))
  {
    LoadIsLoadedFrom(table, model);
    j := LatestRow(Load(table, model), table, city);
  }
}
