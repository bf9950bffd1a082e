/** The dashboard's own band helpers `getAQIColor` and `getCategory`: a chain of
    inclusive upper thresholds with no gaps, unlike the backend's closed bands. */
module Frontend {
  import RiskModel

  /** `getAQIColor`. */
  function GetAQIColor(aqi: real): string
  {
    if aqi <= 50.0 then "#22c55e"
    else if aqi <= 100.0 then "#84cc16"
    else if aqi <= 200.0 then "#facc15"
    else if aqi <= 300.0 then "#f97316"
    else if aqi <= 400.0 then "#ef4444"
    else "#7f1d1d"
  }

  /** `getCategory`. */
  function GetCategory(aqi: real): string
  {
    if aqi <= 50.0 then "Good"
    else if aqi <= 100.0 then "Moderate"
    else if aqi <= 200.0 then "Unhealthy for Sensitive Groups"
    else if aqi <= 300.0 then "Poor"
    else if aqi <= 400.0 then "Very Poor"
    else "Severe"
  }

  const Labels: seq<string> := ["Good", "Moderate", "Unhealthy for Sensitive Groups", "Poor", "Very Poor", "Severe"]
  const Colors: seq<string> := ["#22c55e", "#84cc16", "#facc15", "#f97316", "#ef4444", "#7f1d1d"]

  /** Upper bound (inclusive) of each of the first five bands. */
  const Thresholds: seq<real> := [50.0, 100.0, 200.0, 300.0, 400.0]

  /** Number of thresholds strictly below `aqi`: the band both helpers pick. */
  function BandIndex(aqi: real): (k: nat)
    ensures k < 6
    ensures forall j :: 0 <= j < k ==> Thresholds[j] < aqi
    ensures k < 5 ==> aqi <= Thresholds[k]
  {
    if aqi <= 50.0 then 0
    else if aqi <= 100.0 then 1
    else if aqi <= 200.0 then 2
    else if aqi <= 300.0 then 3
    else if aqi <= 400.0 then 4
    else 5
  }

  /** Both helpers read the same band, so colour and label always agree. */
  lemma HelpersAgree(aqi: real)
    ensures GetCategory(aqi) == Labels[BandIndex(aqi)]
    ensures GetAQIColor(aqi) == Colors[BandIndex(aqi)]
  {
  }

  /** A higher AQI never gets a lower band. */
  lemma BandIndexMonotone(a: real, b: real)
    requires a <= b
    ensures BandIndex(a) <= BandIndex(b)
  {
  }

  /** `getCategory` is total: every number gets one of the six labels, never "Unknown". */
  lemma CategoryTotal(aqi: real)
    ensures GetCategory(aqi) in Labels
    ensures GetCategory(aqi) != RiskModel.Unknown
  {
    HelpersAgree(aqi);
  }

  /** Upper bounds are inclusive and there are no gaps. */
  lemma Boundaries(aqi: real)
    ensures GetCategory(aqi) == "Good" <==> aqi <= 50.0
    ensures GetCategory(aqi) == "Severe" <==> aqi > 400.0
    ensures GetCategory(50.0) == "Good" && GetCategory(50.5) == "Moderate"
    ensures GetCategory(-20.0) == "Good" && GetCategory(1500.0) == "Severe"
  {
  }

  /** Against the backend: on every integer AQI in [0, 1000] both pick the band
      with the same index (the first is called "Good" here and "Low" there),
      while 50.5 is "Moderate" here and "Unknown" there. */
  lemma AgreesWithBackendOnIntegers(n: int, i: int)
    requires 0 <= n <= 1000 && 0 <= i < |RiskModel.Categories|
    ensures RiskModel.InBand(RiskModel.Categories[i], n as real) <==> BandIndex(n as real) == i
  {
  }

  lemma DiffersFromBackendInGaps()
    ensures GetCategory(50.5) == "Moderate" && RiskModel.GetCategory(50.5) == RiskModel.Unknown
    ensures GetCategory(1200.0) == "Severe" && RiskModel.GetCategory(1200.0) == RiskModel.Unknown
    ensures GetCategory(-5.0) == "Good" && RiskModel.GetCategory(-5.0) == RiskModel.Unknown
  {
    RiskModel.UnknownExamples();
    RiskModel.GetCategoryUnknownIff(1200.0);
    RiskModel.GetCategoryUnknownIff(-5.0);
  }
}
