/** The feature builder: calendar features, per-city lags and the trailing
    7-row mean of `aqi`, followed by dropping every row with a missing value. */
module BuildFeatures {
  import opened Wrappers
  import opened Strings
  import opened Table
  import Calendar

  /** A row of the feature table: the canonical record and the derived columns,
      each `None` until computed or when pandas yields NaN. */
  datatype FeatureRow = FeatureRow(
    rec: Record,
    month: Option<int>,
    dayOfWeek: Option<int>,
    dayOfYear: Option<int>,
    aqiLag1: Option<real>,
    pm25Lag1: Option<real>,
    aqiLag3: Option<real>,
    pm25Lag3: Option<real>,
    aqiLag7: Option<real>,
    pm25Lag7: Option<real>,
    aqiRoll7: Option<real>)

  /** A canonical row before any derived column exists. */
  function FromRecord(r: Record): FeatureRow
  {
    FeatureRow(r, None, None, None, None, None, None, None, None, None, None)
  }

  function FeatureKey(r: FeatureRow): Key
  {
    RecordKey(r.rec)
  }

  /** The canonical part of each row. */
  function Recs(s: seq<FeatureRow>): (t: seq<Record>)
    ensures |t| == |s| && forall i :: 0 <= i < |s| ==> t[i] == s[i].rec
  {
    seq(|s|, i requires 0 <= i < |s| => s[i].rec)
  }

  /** The columns that are shifted. */
  datatype Measure = OfAqi | OfPm25

  function Value(r: Record, m: Measure): Option<real>
  {
    match m
    case OfAqi => r.aqi
    case OfPm25 => r.pm25
  }

  const LagDays: seq<nat> := [1, 3, 7]
  const Window: nat := 7

  /** The rows of city `c`, in table order (one pandas group). */
  function CityRows(t: seq<Record>, c: string): (g: seq<Record>)
    ensures |g| <= |t|
  {
    if |t| == 0 then []
    else (if t[0].city == c then [t[0]] else []) + CityRows(t[1..], c)
  }

  /** `groupby("city")[m].shift(k)` at row `i`: the value `k` rows earlier
      among the rows of `i`'s city, or NaN when the city has fewer earlier rows. */
  function GroupShift(t: seq<Record>, i: nat, k: nat, m: Measure): Option<real>
    requires i < |t|
  {
    LagValue(CityRows(t[..i], t[i].city), k, m)
  }

  /** The value `k` rows before the end of `earlier`, NaN when there is none. */
  function LagValue(earlier: seq<Record>, k: nat, m: Measure): Option<real>
  {
    if 0 < k <= |earlier| then Value(earlier[|earlier| - k], m) else None
  }

  /** Sum of the `aqi` values of `w`, NaN as soon as one is missing. */
  function AqiSum(w: seq<Record>): (r: Option<real>)
    ensures r.Some? <==> forall x :: x in w ==> x.aqi.Some?
  {
    if |w| == 0 then Some(0.0)
    else match (w[0].aqi, AqiSum(w[1..]))
      case (Some(v), Some(s)) => Some(v + s)
      case _ => None
  }

  /** Arithmetic mean of the `aqi` values of a non-empty window. */
  function WindowMean(w: seq<Record>): Option<real>
  {
    if |w| == 0 then None
    else match AqiSum(w)
      case Some(s) => Some(s / |w| as real)
      case None => None
  }

  /** `groupby("city")["aqi"].rolling(7).mean()` at row `i`: the mean over the
      last 7 rows of `i`'s city up to and including `i`, NaN before the city has
      7 rows or when one of them misses `aqi`. */
  function GroupRolling(t: seq<Record>, i: nat): Option<real>
    requires i < |t|
  {
    TrailingMean(CityRows(t[..i + 1], t[i].city))
  }

  /** The mean over the last `Window` rows, NaN while there are fewer. */
  function TrailingMean(rows: seq<Record>): Option<real>
  {
    if Window <= |rows| then WindowMean(rows[|rows| - Window..]) else None
  }

  /** `create_time_features` on one row. */
  function WithTime(r: FeatureRow): (u: FeatureRow)
    ensures u.rec == r.rec
    ensures u.month.Some? && 1 <= u.month.value <= 12
    ensures u.dayOfWeek.Some? && 0 <= u.dayOfWeek.value <= 6
    ensures u.dayOfYear.Some? && 1 <= u.dayOfYear.value <= 366
  {
    r.(month := Some(Calendar.Month(r.rec.date)),
       dayOfWeek := Some(Calendar.DayOfWeek(r.rec.date)),
       dayOfYear := Some(Calendar.DayOfYear(r.rec.date)))
  }

  /** Sets the two lag-`k` columns of a row. */
  function SetLag(r: FeatureRow, k: nat, aqiValue: Option<real>, pm25Value: Option<real>): FeatureRow
  {
    if k == 1 then r.(aqiLag1 := aqiValue, pm25Lag1 := pm25Value)
    else if k == 3 then r.(aqiLag3 := aqiValue, pm25Lag3 := pm25Value)
    else if k == 7 then r.(aqiLag7 := aqiValue, pm25Lag7 := pm25Value)
    else r
  }

  /** Row `r` (row `i` of table `t`) after the first `n` passes of the loop over
      `lag_days`. */
  function LagsThrough(r: FeatureRow, t: seq<Record>, i: nat, n: nat): FeatureRow
    requires i < |t| && n <= |LagDays|
  {
    if n == 0 then r
    else
      var k := LagDays[n - 1];
      SetLag(LagsThrough(r, t, i, n - 1), k, GroupShift(t, i, k, OfAqi), GroupShift(t, i, k, OfPm25))
  }

  /** `create_lag_features` on row `i`. */
  function WithLags(r: FeatureRow, t: seq<Record>, i: nat): FeatureRow
    requires i < |t|
  {
    r.(aqiLag1 := GroupShift(t, i, 1, OfAqi), pm25Lag1 := GroupShift(t, i, 1, OfPm25),
       aqiLag3 := GroupShift(t, i, 3, OfAqi), pm25Lag3 := GroupShift(t, i, 3, OfPm25),
       aqiLag7 := GroupShift(t, i, 7, OfAqi), pm25Lag7 := GroupShift(t, i, 7, OfPm25))
  }

  lemma LagsThroughAll(r: FeatureRow, t: seq<Record>, i: nat)
    requires i < |t|
    ensures LagsThrough(r, t, i, |LagDays|) == WithLags(r, t, i)
  {
    assert LagDays[0] == 1 && LagDays[1] == 3 && LagDays[2] == 7;
    assert LagsThrough(r, t, i, 0) == r;
    var r1 := LagsThrough(r, t, i, 1);
    var r3 := LagsThrough(r, t, i, 2);
    assert r1 == r.(aqiLag1 := GroupShift(t, i, 1, OfAqi), pm25Lag1 := GroupShift(t, i, 1, OfPm25));
    assert r3 == r1.(aqiLag3 := GroupShift(t, i, 3, OfAqi), pm25Lag3 := GroupShift(t, i, 3, OfPm25));
  }

  /** Extending a prefix by one row adds that row to its city's group only. */
  lemma CityRowsSnoc(t: seq<Record>, i: nat, c: string)
    requires i < |t|
    ensures CityRows(t[..i + 1], c) == CityRows(t[..i], c) + (if t[i].city == c then [t[i]] else [])
  {
    assert t[..i + 1] == t[..i] + [t[i]];
    CityRowsConcat(t[..i], [t[i]], c);
  }

  /** A group holds rows of the table of its own city only. */
  lemma {:induction false} CityRowsMembers(t: seq<Record>, c: string)
    ensures forall x :: x in CityRows(t, c) ==> x in t && x.city == c
    decreases |t|
  {
    if |t| > 0 {
      CityRowsMembers(t[1..], c);
    }
  }

  lemma {:induction false} CityRowsConcat(a: seq<Record>, b: seq<Record>, c: string)
    ensures CityRows(a + b, c) == CityRows(a, c) + CityRows(b, c)
    decreases |a|
  {
    if |a| == 0 {
      assert a + b == b;
    } else {
      var h := if a[0].city == c then [a[0]] else [];
      assert (a + b)[0] == a[0] && (a + b)[1..] == a[1..] + b;
      CityRowsConcat(a[1..], b, c);
      assert CityRows(a + b, c) == h + (CityRows(a[1..], c) + CityRows(b, c));
      assert h + (CityRows(a[1..], c) + CityRows(b, c)) == (h + CityRows(a[1..], c)) + CityRows(b, c);
    }
  }

  lemma {:induction false} CityRowsAll(b: seq<Record>, c: string)
    requires forall x :: x in b ==> x.city == c
    ensures CityRows(b, c) == b
    decreases |b|
  {
    if |b| > 0 {
      CityRowsAll(b[1..], c);
    }
  }

  lemma {:induction false} CityRowsNone(b: seq<Record>, c: string)
    requires forall x :: x in b ==> x.city != c
    ensures CityRows(b, c) == []
    decreases |b|
  {
    if |b| > 0 {
      CityRowsNone(b[1..], c);
    }
  }

  /** In a sorted table, when row `i - k` has `i`'s city, the group of `i` up to
      `i` ends with the rows `i - k .. i`. */
  lemma GroupTail(t: seq<Record>, i: nat, k: nat)
    requires SortedBy(t, RecordKey)
    requires k <= i < |t| && t[i - k].city == t[i].city
    ensures CityRows(t[..i + 1], t[i].city) == CityRows(t[..i - k], t[i].city) + t[i - k..i + 1]
  {
    var c := t[i].city;
    assert t[..i + 1] == t[..i - k] + t[i - k..i + 1];
    CityRowsConcat(t[..i - k], t[i - k..i + 1], c);
    forall x | x in t[i - k..i + 1] ensures x.city == c {
      var m :| i - k <= m <= i && t[m] == x;
      Contiguous(t, RecordKey, i - k, m, i);
    }
    CityRowsAll(t[i - k..i + 1], c);
  }

  /** In a sorted table, when row `i - k` does not exist or has another city,
      the group of `i` up to `i` has at most `k` rows. */
  lemma GroupShort(t: seq<Record>, i: nat, k: nat)
    requires SortedBy(t, RecordKey)
    requires i < |t|
    requires k > i || t[i - k].city != t[i].city
    ensures |CityRows(t[..i + 1], t[i].city)| <= k
  {
    var c := t[i].city;
    if k <= i {
      assert t[..i + 1] == t[..i - k + 1] + t[i - k + 1..i + 1];
      CityRowsConcat(t[..i - k + 1], t[i - k + 1..i + 1], c);
      OtherCitiesBefore(t, i - k, i);
      CityRowsNone(t[..i - k + 1], c);
    }
  }

  /** In a sorted table, when row `j` has another city than row `i > j`, so
      has every row up to `j`. */
  lemma OtherCitiesBefore(t: seq<Record>, j: nat, i: nat)
    requires SortedBy(t, RecordKey)
    requires j < i < |t| && t[j].city != t[i].city
    ensures forall x :: x in t[..j + 1] ==> x.city != t[i].city
  {
    forall x | x in t[..j + 1] ensures x.city != t[i].city {
      var m :| 0 <= m <= j && t[m] == x;
      if x.city == t[i].city { Contiguous(t, RecordKey, m, j, i); }
    }
  }

  /** On the sorted table the lag is positional: the value `k` rows earlier
      when that row has the same city, otherwise missing; it never comes from
      another city and ignores gaps in the dates. */
  lemma ShiftIsPositional(t: seq<Record>, i: nat, k: nat, m: Measure)
    requires SortedBy(t, RecordKey)
    requires i < |t| && k > 0
    ensures GroupShift(t, i, k, m)
         == if k <= i && t[i - k].city == t[i].city then Value(t[i - k], m) else None
  {
    var c := t[i].city;
    CityRowsSnoc(t, i, c);
    if k <= i && t[i - k].city == c {
      GroupTail(t, i, k);
      LagFromSuffix(CityRows(t[..i], c), t[i], CityRows(t[..i - k], c), t[i - k..i + 1], k, m);
      assert t[i - k..i + 1][0] == t[i - k];
    } else {
      GroupShort(t, i, k);
    }
  }

  /** When the group so far followed by the current row ends in `w`, the lag
      of `|w| - 1` rows is the first row of `w`. */
  lemma LagFromSuffix(e: seq<Record>, x: Record, p: seq<Record>, w: seq<Record>, k: nat, m: Measure)
    requires e + [x] == p + w && |w| == k + 1 && k > 0
    ensures LagValue(e, k, m) == Value(w[0], m)
  {
    assert |e| == |p| + k;
    assert (e + [x])[|p|] == e[|p|];
  }

  /** On the sorted table the rolling mean is the mean of rows `i - 6 .. i` when
      they all belong to `i`'s city, otherwise missing. */
  lemma RollingIsTrailingWindow(t: seq<Record>, i: nat)
    requires SortedBy(t, RecordKey)
    requires i < |t|
    ensures GroupRolling(t, i)
         == if Window - 1 <= i && t[i - (Window - 1)].city == t[i].city
            then WindowMean(t[i - (Window - 1)..i + 1]) else None
  {
    var c := t[i].city;
    if Window - 1 <= i && t[i - (Window - 1)].city == c {
      GroupTail(t, i, Window - 1);
      var p := CityRows(t[..i - (Window - 1)], c);
      assert (p + t[i - (Window - 1)..i + 1])[|p|..] == t[i - (Window - 1)..i + 1];
    } else {
      GroupShort(t, i, Window - 1);
    }
  }

  /** Whatever the row order, a lag value is the value of an earlier row of the
      same city. */
  lemma ShiftFromSameCity(t: seq<Record>, i: nat, k: nat, m: Measure)
    requires i < |t|
    requires GroupShift(t, i, k, m).Some?
    ensures exists j :: 0 <= j < i && t[j].city == t[i].city && Value(t[j], m) == GroupShift(t, i, k, m)
  {
    var earlier := CityRows(t[..i], t[i].city);
    CityRowsMembers(t[..i], t[i].city);
    var x := earlier[|earlier| - k];
    assert x in earlier;
    assert x in t[..i];
    var j :| 0 <= j < i && t[..i][j] == x;
  }

  /** Lags count rows, not days: with a five-day gap, the lag-1 value is the
      previous observation. */
  lemma PositionalNotCalendar()
    ensures var t := [Record("Delhi", 0, Some(10.0), None, None, None, None, None, None),
                      Record("Delhi", 5, Some(20.0), None, None, None, None, None, None)];
            GroupShift(t, 1, 1, OfAqi) == Some(10.0)
  {
    var t := [Record("Delhi", 0, Some(10.0), None, None, None, None, None, None),
              Record("Delhi", 5, Some(20.0), None, None, None, None, None, None)];
    assert t[..1] == [t[0]];
  }

  /** The first row of a city gets no lag from the city before it. */
  lemma NoLagAcrossCities()
    ensures var t := [Record("Agra", 0, Some(10.0), None, None, None, None, None, None),
                      Record("Delhi", 1, Some(20.0), None, None, None, None, None, None)];
            GroupShift(t, 1, 1, OfAqi) == None
  {
    var t := [Record("Agra", 0, Some(10.0), None, None, None, None, None, None),
              Record("Delhi", 1, Some(20.0), None, None, None, None, None, None)];
    assert t[..1] == [t[0]];
  }

  /** `seen` maps each city to its rows among the first `i` rows of `t`. */
  ghost predicate Tracks(seen: map<string, seq<Record>>, t: seq<Record>, i: nat)
    requires i <= |t|
  {
    forall c :: CityRows(t[..i], c) == Earlier(seen, c)
  }

  /** The rows of city `c` recorded in `seen`. */
  function Earlier(seen: map<string, seq<Record>>, c: string): seq<Record>
  {
    if c in seen then seen[c] else []
  }

  lemma TracksStep(seen: map<string, seq<Record>>, t: seq<Record>, i: nat)
    requires i < |t| && Tracks(seen, t, i)
    ensures Earlier(seen, t[i].city) == CityRows(t[..i], t[i].city)
    ensures Tracks(seen[t[i].city := Earlier(seen, t[i].city) + [t[i]]], t, i + 1)
  {
    var c := t[i].city;
    var next := seen[c := Earlier(seen, c) + [t[i]]];
    forall d ensures CityRows(t[..i + 1], d) == Earlier(next, d) {
      CityRowsSnoc(t, i, d);
      assert CityRows(t[..i], d) == Earlier(seen, d);
    }
  }

  lemma TracksEmpty(t: seq<Record>)
    ensures Tracks(map[], t, 0)
  {
    assert t[..0] == [];
  }

  /** The value the lag loop reads is the group shift. */
  lemma LagRead(t: seq<Record>, i: nat, k: nat, seen: map<string, seq<Record>>)
    requires i < |t| && Tracks(seen, t, i)
    ensures LagValue(Earlier(seen, t[i].city), k, OfAqi) == GroupShift(t, i, k, OfAqi)
    ensures LagValue(Earlier(seen, t[i].city), k, OfPm25) == GroupShift(t, i, k, OfPm25)
  {
    TracksStep(seen, t, i);
  }

  /** The value the rolling loop computes is the group rolling mean. */
  lemma RollingRead(t: seq<Record>, i: nat, seen: map<string, seq<Record>>)
    requires i < |t| && Tracks(seen, t, i)
    ensures TrailingMean(Earlier(seen, t[i].city) + [t[i]]) == GroupRolling(t, i)
  {
    TracksStep(seen, t, i);
    CityRowsSnoc(t, i, t[i].city);
  }

  /** One more pass of the lag loop. */
  lemma LagPassDone(r: FeatureRow, t: seq<Record>, i: nat, n: nat)
    requires i < |t| && n < |LagDays|
    ensures SetLag(LagsThrough(r, t, i, n), LagDays[n], GroupShift(t, i, LagDays[n], OfAqi), GroupShift(t, i, LagDays[n], OfPm25))
         == LagsThrough(r, t, i, n + 1)
  {
  }

  /** Every derived column of row `i` of the sorted canonical table. */
  function Derive(t: seq<Record>, i: nat): FeatureRow
    requires i < |t|
  {
    SetRolling(WithLags(WithTime(FromRecord(t[i])), t, i), GroupRolling(t, i))
  }

  /** Sets the rolling-mean column of a row. */
  function SetRolling(r: FeatureRow, v: Option<real>): FeatureRow
  {
    r.(aqiRoll7 := v)
  }

  /** No column of the row is missing. */
  predicate Complete(r: FeatureRow)
  {
    && r.rec.aqi.Some? && r.rec.pm25.Some? && r.rec.pm10.Some? && r.rec.no2.Some?
    && r.rec.so2.Some? && r.rec.co.Some? && r.rec.o3.Some?
    && r.month.Some? && r.dayOfWeek.Some? && r.dayOfYear.Some?
    && r.aqiLag1.Some? && r.pm25Lag1.Some? && r.aqiLag3.Some? && r.pm25Lag3.Some?
    && r.aqiLag7.Some? && r.pm25Lag7.Some? && r.aqiRoll7.Some?
  }

  /** `dropna()`: keeps the complete rows, in order. */
  function DropNa(s: seq<FeatureRow>): (r: seq<FeatureRow>)
    ensures forall x :: x in r <==> x in s && Complete(x)
    ensures Subseq(r, s)
  {
    if |s| == 0 then []
    else if Complete(s[0]) then [s[0]] + DropNa(s[1..])
    else DropNa(s[1..])
  }

  /** The feature table before `dropna()`. */
  function Featurize(t: seq<Record>): (f: seq<FeatureRow>)
    ensures |f| == |t|
  {
    seq(|t|, i requires 0 <= i < |t| => Derive(t, i))
  }

  /** What `main` writes: sort, derive, drop incomplete rows. */
  function FeatureTable(input: seq<Record>): seq<FeatureRow>
  {
    DropNa(Featurize(SortBy(input, RecordKey)))
  }

  /** `dropna()` keeps every occurrence of a complete row and none of an
      incomplete one: with `Subseq`, the output is exactly the complete rows
      of the input, in order. */
  lemma {:induction false} DropNaCount(s: seq<FeatureRow>, x: FeatureRow)
    ensures multiset(DropNa(s))[x] == if Complete(x) then multiset(s)[x] else 0
    decreases |s|
  {
    if |s| > 0 {
      DropNaCount(s[1..], x);
      assert s == [s[0]] + s[1..];
    }
  }

  /** A row that survives `dropna()` has at least 7 earlier rows of its city,
      and on the sorted table these are the 7 rows just before it. */
  lemma SurvivorHasHistory(t: seq<Record>, i: nat)
    requires SortedBy(t, RecordKey)
    requires i < |t| && Complete(Derive(t, i))
    ensures |CityRows(t[..i], t[i].city)| >= 7
    ensures 7 <= i && t[i - 7].city == t[i].city
  {
    ShiftIsPositional(t, i, 7, OfAqi);
  }

  /** The derived table keeps the sorted order of its records. */
  lemma FeaturizeSorted(t: seq<Record>)
    requires SortedBy(t, RecordKey)
    ensures SortedBy(Featurize(t), FeatureKey)
  {
    var f := Featurize(t);
    forall i, j | 0 <= i < j < |f| ensures KeyLe(FeatureKey(f[i]), FeatureKey(f[j])) {
      assert f[i].rec == t[i] && f[j].rec == t[j];
    }
  }

  /** The builder adds no rows: the output is a subsequence of the derived
      sorted input, each output row's record is an input row, and the output is
      sorted by `(city, date)` and complete. */
  lemma FeatureTableShape(input: seq<Record>)
    ensures |FeatureTable(input)| <= |input|
    ensures Subseq(FeatureTable(input), Featurize(SortBy(input, RecordKey)))
    ensures forall r :: r in FeatureTable(input) ==> Complete(r) && r.rec in input
    ensures SortedBy(FeatureTable(input), FeatureKey)
    ensures forall i :: 0 <= i < |input| && Complete(Derive(SortBy(input, RecordKey), i)) ==>
              Derive(SortBy(input, RecordKey), i) in FeatureTable(input)
  {
    var t := SortBy(input, RecordKey);
    var f := Featurize(t);
    var out := DropNa(f);
    SubseqLength(out, f);
    forall r | r in out ensures r.rec in input {
      var i :| 0 <= i < |f| && f[i] == r;
      assert t[i] in multiset(t);
    }
    SortSorted(input, RecordKey);
    FeaturizeSorted(t);
    SubseqSorted(out, f, FeatureKey);
    forall i | 0 <= i < |input| && Complete(Derive(t, i)) ensures Derive(t, i) in out {
      assert f[i] == Derive(t, i);
    }
  }

  /** `create_time_features`: fills `month`, `day_of_week` and `day_of_year`. */
  method CreateTimeFeatures(a: array<FeatureRow>)
    modifies a
    ensures forall i :: 0 <= i < a.Length ==> a[i] == WithTime(old(a[i]))
  {
    for i := 0 to a.Length
      invariant forall j :: 0 <= j < i ==> a[j] == WithTime(old(a[j]))
      invariant forall j :: i <= j < a.Length ==> a[j] == old(a[j])
    {
      a[i] := WithTime(a[i]);
    }
  }

  /** `df.groupby("city")[m].shift(k)`: a pass over the rows that keeps, per
      city, the rows seen so far (the pandas group). */
  method ShiftColumn(t: seq<Record>, k: nat, m: Measure) returns (col: seq<Option<real>>)
    ensures |col| == |t|
    ensures forall j :: 0 <= j < |t| ==> col[j] == GroupShift(t, j, k, m)
  {
    col := [];
    var seen: map<string, seq<Record>> := map[];
    TracksEmpty(t);
    for i := 0 to |t|
      invariant Tracks(seen, t, i)
      invariant |col| == i
      invariant forall j :: 0 <= j < i ==> col[j] == GroupShift(t, j, k, m)
    {
      var c := t[i].city;
      var earlier := Earlier(seen, c);
      LagRead(t, i, k, seen);
      col := col + [LagValue(earlier, k, m)];
      TracksStep(seen, t, i);
      seen := seen[c := earlier + [t[i]]];
    }
  }

  /** Stores the lag-`k` columns into the rows. */
  method AssignLag(a: array<FeatureRow>, k: nat, aqiCol: seq<Option<real>>, pm25Col: seq<Option<real>>)
    requires |aqiCol| == |pm25Col| == a.Length
    modifies a
    ensures forall j :: 0 <= j < a.Length ==> a[j] == SetLag(old(a[j]), k, aqiCol[j], pm25Col[j])
  {
    for i := 0 to a.Length
      invariant forall j :: 0 <= j < i ==> a[j] == SetLag(old(a[j]), k, aqiCol[j], pm25Col[j])
      invariant forall j :: i <= j < a.Length ==> a[j] == old(a[j])
    {
      a[i] := SetLag(a[i], k, aqiCol[i], pm25Col[i]);
    }
  }

  /** `create_lag_features`: one shift pass for each lag in `lag_days`. */
  method CreateLagFeatures(a: array<FeatureRow>)
    modifies a
    ensures forall i :: 0 <= i < a.Length ==> a[i] == WithLags(old(a[i]), Recs(old(a[..])), i)
  {
    var t := Recs(a[..]);
    for n := 0 to |LagDays|
      invariant forall j :: 0 <= j < a.Length ==> a[j] == LagsThrough(old(a[j]), t, j, n)
    {
      var k := LagDays[n];
      var aqiCol := ShiftColumn(t, k, OfAqi);
      var pm25Col := ShiftColumn(t, k, OfPm25);
      AssignLag(a, k, aqiCol, pm25Col);
      forall j | 0 <= j < a.Length ensures a[j] == LagsThrough(old(a[j]), t, j, n + 1) {
        LagPassDone(old(a[j]), t, j, n);
      }
    }
    forall j | 0 <= j < a.Length ensures a[j] == WithLags(old(a[j]), Recs(old(a[..])), j) {
      LagsThroughAll(old(a[j]), t, j);
    }
  }

  /** `df.groupby("city")["aqi"].rolling(7).mean()`: a pass over the rows
      that keeps, per city, the rows seen so far. */
  method RollingColumn(t: seq<Record>) returns (col: seq<Option<real>>)
    ensures |col| == |t|
    ensures forall j :: 0 <= j < |t| ==> col[j] == GroupRolling(t, j)
  {
    col := [];
    var seen: map<string, seq<Record>> := map[];
    TracksEmpty(t);
    for i := 0 to |t|
      invariant Tracks(seen, t, i)
      invariant |col| == i
      invariant forall j :: 0 <= j < i ==> col[j] == GroupRolling(t, j)
    {
      var c := t[i].city;
      var mean := WindowOfGroup(t, i, seen);
      col := col + [mean];
      TracksStep(seen, t, i);
      seen := seen[c := Earlier(seen, c) + [t[i]]];
    }
  }

  /** The mean of the last 7 rows of the city of row `i`, read from the rows
      seen so far. */
  method WindowOfGroup(t: seq<Record>, i: nat, seen: map<string, seq<Record>>) returns (mean: Option<real>)
    requires i < |t| && Tracks(seen, t, i)
    ensures mean == GroupRolling(t, i)
  {
    mean := TrailingMean(Earlier(seen, t[i].city) + [t[i]]);
    RollingRead(t, i, seen);
  }

  /** `create_rolling_features`: the rolling column, aligned back to the rows
      by index. */
  method CreateRollingFeatures(a: array<FeatureRow>)
    modifies a
    ensures forall i :: 0 <= i < a.Length ==> a[i] == SetRolling(old(a[i]), GroupRolling(Recs(old(a[..])), i))
  {
    var t := Recs(a[..]);
    var col := RollingColumn(t);
    for i := 0 to a.Length
      invariant forall j :: 0 <= j < i ==> a[j] == SetRolling(old(a[j]), col[j])
      invariant forall j :: i <= j < a.Length ==> a[j] == old(a[j])
    {
      a[i] := SetRolling(a[i], col[i]);
    }
  }

  /** `main`: sort by `(city, date)`, add the derived columns, `dropna()`. */
  method BuildFeatures(input: seq<Record>) returns (out: seq<FeatureRow>)
    ensures out == FeatureTable(input)
  {
    var sorted := SortBy(input, RecordKey);
    var a := new FeatureRow[|sorted|](i requires 0 <= i < |sorted| => FromRecord(sorted[i]));
    assert Recs(a[..]) == sorted;
    CreateTimeFeatures(a);
    assert Recs(a[..]) == sorted;
    CreateLagFeatures(a);
    assert Recs(a[..]) == sorted;
    CreateRollingFeatures(a);
    assert a[..] == Featurize(sorted);
    out := DropNa(a[..]);
  }
}
