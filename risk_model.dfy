/** `HealthRiskModel`: AQI bands, the normalised risk score, the
    population-weighted score and the advisory text. All arithmetic is on
    exact reals. */
module RiskModel {

  /** A closed AQI interval `[lower, upper]` and its label. */
  datatype Band = Band(lower: int, upper: int, name: string)

  /** The six bands, in the order `get_category` tries them. */
  const Categories: seq<Band> := [
    Band(0, 50, "Low"),
    Band(51, 100, "Moderate"),
    Band(101, 200, "Unhealthy for Sensitive Groups"),
    Band(201, 300, "Poor"),
    Band(301, 400, "Very Poor"),
    Band(401, 1000, "Severe")
  ]

  const Unknown: string := "Unknown"

  predicate InBand(b: Band, aqi: real)
  {
    b.lower as real <= aqi <= b.upper as real
  }

  /** The label of the first band of `bands` holding `aqi`, else "Unknown". */
  function FindCategory(bands: seq<Band>, aqi: real): (name: string)
    ensures (forall i :: 0 <= i < |bands| ==> !InBand(bands[i], aqi)) ==> name == Unknown
    ensures forall i :: 0 <= i < |bands| && InBand(bands[i], aqi)
              && (forall j :: 0 <= j < i ==> !InBand(bands[j], aqi))
              ==> name == bands[i].name
  {
    if |bands| == 0 then Unknown
    else if InBand(bands[0], aqi) then bands[0].name
    else
      var rest := FindCategory(bands[1..], aqi);
      assert forall i :: 1 <= i < |bands| ==> bands[i] == bands[1..][i - 1];
      rest
  }

  /** `get_category`. */
  function GetCategory(aqi: real): string
  {
    FindCategory(Categories, aqi)
  }

  /** No real lies in two bands. */
  lemma BandsDisjoint(aqi: real, i: int, j: int)
    requires 0 <= i < j < |Categories|
    ensures !(InBand(Categories[i], aqi) && InBand(Categories[j], aqi))
  {
  }

  lemma LabelsDistinct()
    ensures forall i, j :: 0 <= i < j < |Categories| ==> Categories[i].name != Categories[j].name
    ensures forall i :: 0 <= i < |Categories| ==> Categories[i].name != Unknown
  {
  }

  /** The category is a band's label exactly when `aqi` lies in that band. */
  lemma GetCategoryIff(aqi: real, i: int)
    requires 0 <= i < |Categories|
    ensures GetCategory(aqi) == Categories[i].name <==> InBand(Categories[i], aqi)
  {
    LabelsDistinct();
    if InBand(Categories[i], aqi) {
      forall j | 0 <= j < i ensures !InBand(Categories[j], aqi) { BandsDisjoint(aqi, j, i); }
    } else if k :| 0 <= k < |Categories| && InBand(Categories[k], aqi) {
      forall j | 0 <= j < k ensures !InBand(Categories[j], aqi) { BandsDisjoint(aqi, j, k); }
      assert GetCategory(aqi) == Categories[k].name && k != i;
    } else {
      assert GetCategory(aqi) == Unknown;
    }
  }

  /** The values that lie in some band. */
  predicate Covered(aqi: real)
  {
    exists i :: 0 <= i < |Categories| && InBand(Categories[i], aqi)
  }

  lemma CoveredIff(aqi: real)
    ensures Covered(aqi) <==>
      !(aqi < 0.0 || aqi > 1000.0 || (50.0 < aqi < 51.0) || (100.0 < aqi < 101.0)
        || (200.0 < aqi < 201.0) || (300.0 < aqi < 301.0) || (400.0 < aqi < 401.0))
  {
    if 0.0 <= aqi <= 50.0 { assert InBand(Categories[0], aqi); }
    if 51.0 <= aqi <= 100.0 { assert InBand(Categories[1], aqi); }
    if 101.0 <= aqi <= 200.0 { assert InBand(Categories[2], aqi); }
    if 201.0 <= aqi <= 300.0 { assert InBand(Categories[3], aqi); }
    if 301.0 <= aqi <= 400.0 { assert InBand(Categories[4], aqi); }
    if 401.0 <= aqi <= 1000.0 { assert InBand(Categories[5], aqi); }
  }

  /** "Unknown" exactly below 0, above 1000, and in the open gaps between two
      bands (such as 50.5), since the bands have integer end points. */
  lemma GetCategoryUnknownIff(aqi: real)
    ensures GetCategory(aqi) == Unknown <==>
      aqi < 0.0 || aqi > 1000.0 || (50.0 < aqi < 51.0) || (100.0 < aqi < 101.0)
      || (200.0 < aqi < 201.0) || (300.0 < aqi < 301.0) || (400.0 < aqi < 401.0)
  {
    CoveredIff(aqi);
    LabelsDistinct();
    if Covered(aqi) {
      var i :| 0 <= i < |Categories| && InBand(Categories[i], aqi);
      GetCategoryIff(aqi, i);
    }
  }

  /** Every integer AQI in [0, 1000] lies in exactly one band. */
  lemma IntegerCoverage(n: int)
    requires 0 <= n <= 1000
    ensures Covered(n as real)
    ensures forall i, j :: 0 <= i < |Categories| && 0 <= j < |Categories|
              && InBand(Categories[i], n as real) && InBand(Categories[j], n as real)
              ==> i == j
    ensures GetCategory(n as real) != Unknown
  {
    CoveredIff(n as real);
    GetCategoryUnknownIff(n as real);
    forall i, j | 0 <= i < j < |Categories| ensures !(InBand(Categories[i], n as real) && InBand(Categories[j], n as real)) {
      BandsDisjoint(n as real, i, j);
    }
  }

  lemma CategoryExamples()
    ensures GetCategory(0.0) == "Low" && GetCategory(50.0) == "Low"
    ensures GetCategory(51.0) == "Moderate" && GetCategory(1000.0) == "Severe"
    ensures GetCategory(245.0) == "Poor" && GetCategory(180.0) == "Unhealthy for Sensitive Groups"
  {
    GetCategoryIff(0.0, 0);
    GetCategoryIff(50.0, 0);
    GetCategoryIff(51.0, 1);
    GetCategoryIff(1000.0, 5);
    GetCategoryIff(245.0, 3);
    GetCategoryIff(180.0, 2);
  }

  lemma UnknownExamples()
    ensures GetCategory(-1.0) == Unknown && GetCategory(1001.0) == Unknown
    ensures GetCategory(50.5) == Unknown && GetCategory(100.5) == Unknown
  {
    GetCategoryUnknownIff(-1.0);
    GetCategoryUnknownIff(1001.0);
    GetCategoryUnknownIff(50.5);
    GetCategoryUnknownIff(100.5);
  }

  const MaxAqi: real := 500.0

  /** `get_risk_score`: `min(aqi / 500, 1.0)`. */
  function GetRiskScore(aqi: real): (score: real)
    ensures score <= 1.0
    ensures aqi >= MaxAqi ==> score == 1.0
    ensures aqi <= MaxAqi ==> score == aqi / MaxAqi
    ensures aqi >= 0.0 ==> 0.0 <= score
  {
    if aqi / MaxAqi <= 1.0 then aqi / MaxAqi else 1.0
  }

  lemma RiskScoreMonotone(a: real, b: real)
    requires a <= b
    ensures GetRiskScore(a) <= GetRiskScore(b)
  {
  }

  /** The `sensitivity_weights` table with its default of 1.0. */
  function Weight(group: string): (w: real)
    ensures w >= 1.0
  {
    if group == "general" then 1.0
    else if group == "children" then 1.2
    else if group == "elderly" then 1.3
    else if group == "asthma" then 1.5
    else 1.0
  }

  predicate KnownGroup(group: string)
  {
    group == "general" || group == "children" || group == "elderly" || group == "asthma"
  }

  /** `population_adjusted_risk`: the weighted score, clamped at 1. */
  function PopulationAdjustedRisk(aqi: real, group: string := "general"): (risk: real)
    ensures risk <= 1.0
    ensures GetRiskScore(aqi) * Weight(group) <= 1.0 ==> risk == GetRiskScore(aqi) * Weight(group)
    ensures GetRiskScore(aqi) * Weight(group) > 1.0 ==> risk == 1.0
  {
    var adjusted := GetRiskScore(aqi) * Weight(group);
    if adjusted <= 1.0 then adjusted else 1.0
  }

  /** An unrecognised group is weighted like "general", so its risk is the base score. */
  lemma UnknownGroupIsBase(aqi: real, group: string)
    requires !KnownGroup(group)
    ensures PopulationAdjustedRisk(aqi, group) == GetRiskScore(aqi)
    ensures PopulationAdjustedRisk(aqi) == GetRiskScore(aqi)
  {
  }

  /** For a non-negative AQI: base <= general <= children <= elderly <= asthma. */
  lemma GroupOrdering(aqi: real)
    requires aqi >= 0.0
    ensures GetRiskScore(aqi) <= PopulationAdjustedRisk(aqi, "general")
    ensures PopulationAdjustedRisk(aqi, "general") <= PopulationAdjustedRisk(aqi, "children")
    ensures PopulationAdjustedRisk(aqi, "children") <= PopulationAdjustedRisk(aqi, "elderly")
    ensures PopulationAdjustedRisk(aqi, "elderly") <= PopulationAdjustedRisk(aqi, "asthma")
  {
    var s := GetRiskScore(aqi);
    assert 0.0 <= s;
    assert s * 1.0 <= s * 1.2 <= s * 1.3 <= s * 1.5;
  }

  const NoAdvisory: string := "No advisory available."

  /** The six labels `get_category` can return besides "Unknown". */
  predicate IsBandLabel(category: string)
  {
    category == "Low" || category == "Moderate" || category == "Unhealthy for Sensitive Groups"
    || category == "Poor" || category == "Very Poor" || category == "Severe"
  }

  lemma BandLabels(category: string)
    ensures IsBandLabel(category) <==> exists i :: 0 <= i < |Categories| && Categories[i].name == category
  {
    if IsBandLabel(category) {
      if category == "Low" { assert Categories[0].name == category; }
      else if category == "Moderate" { assert Categories[1].name == category; }
      else if category == "Unhealthy for Sensitive Groups" { assert Categories[2].name == category; }
      else if category == "Poor" { assert Categories[3].name == category; }
      else if category == "Very Poor" { assert Categories[4].name == category; }
      else { assert Categories[5].name == category; }
    }
  }

  const LowAdvice: string := "Air quality is satisfactory. Normal outdoor activity is safe."
  const ModerateAdvice: string := "Sensitive individuals should consider reducing prolonged outdoor exertion."
  const SensitiveAdvice: string := "Children, elderly, and respiratory patients should limit outdoor exposure."
  const PoorAdvice: string := "Reduce outdoor activity. Consider wearing masks."
  const VeryPoorAdvice: string := "Avoid outdoor exposure. Use air purification indoors."
  const SevereAdvice: string := "Stay indoors. Health alert issued for all populations."

  /** `get_category` returns a band label or "Unknown", and nothing else. */
  lemma CategoryIsLabel(aqi: real)
    ensures IsBandLabel(GetCategory(aqi)) <==> GetCategory(aqi) != Unknown
  {
    if Covered(aqi) {
      var i :| 0 <= i < |Categories| && InBand(Categories[i], aqi);
      GetCategoryIff(aqi, i);
      BandLabels(GetCategory(aqi));
      LabelsDistinct();
    } else {
      CoveredIff(aqi);
      GetCategoryUnknownIff(aqi);
    }
  }

  /** `advisory_message`: one fixed text per band label, else the fallback. */
  function AdvisoryMessage(category: string): string
  {
    if category == "Low" then LowAdvice
    else if category == "Moderate" then ModerateAdvice
    else if category == "Unhealthy for Sensitive Groups" then SensitiveAdvice
    else if category == "Poor" then PoorAdvice
    else if category == "Very Poor" then VeryPoorAdvice
    else if category == "Severe" then SevereAdvice
    else NoAdvisory
  }

  /** The six texts and the fallback differ in length, except two that differ
      in their next-to-last letter. */
  lemma AdviceLengths()
    ensures |LowAdvice| == 61 && |ModerateAdvice| == 74 && |SensitiveAdvice| == 74
    ensures |PoorAdvice| == 48 && |VeryPoorAdvice| == 53 && |SevereAdvice| == 54
    ensures |NoAdvisory| == 22
  {
  }

  lemma ModerateIsNotSensitive()
    ensures ModerateAdvice[72] == 'n' && SensitiveAdvice[72] == 'e'
  {
  }

  /** The fallback text is returned exactly for the strings that are not band
      labels, "Unknown" among them. */
  lemma AdvisoryFallback(category: string)
    ensures AdvisoryMessage(category) == NoAdvisory <==> !IsBandLabel(category)
    ensures AdvisoryMessage(Unknown) == NoAdvisory
  {
    AdviceLengths();
  }

  /** Different band labels get different advice. */
  lemma AdvisoryDistinct(a: string, b: string)
    requires IsBandLabel(a) && IsBandLabel(b) && a != b
    ensures AdvisoryMessage(a) != AdvisoryMessage(b)
  {
    AdviceLengths();
    ModerateIsNotSensitive();
  }

  /** The worked example at the bottom of the source: AQI 245. */
  lemma WorkedExample()
    ensures GetCategory(245.0) == "Poor"
    ensures GetRiskScore(245.0) == 0.49
    ensures PopulationAdjustedRisk(245.0, "asthma") == 0.735
    ensures AdvisoryMessage(GetCategory(245.0)) == "Reduce outdoor activity. Consider wearing masks."
  {
    GetCategoryIff(245.0, 3);
  }
}
