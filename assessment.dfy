/** The risk summary the prediction service returns and the prediction script
    prints for one predicted AQI. */
module Assessment {
  import opened RiskModel

  /** `round(x, 2)` on an exact value: the nearest multiple of 0.01, a tie
      going to the even multiple. */
  function Round2(x: real): (r: real)
    ensures (r * 100.0).Floor as real == r * 100.0
    ensures -0.005 <= r - x <= 0.005
  {
    var m := RoundHalfEven(x * 100.0);
    Hundredths(m, x);
    m as real / 100.0
  }

  /** The integer nearest to `y`, a tie going to the even one. */
  function RoundHalfEven(y: real): (m: int)
    ensures -0.5 <= m as real - y <= 0.5
    ensures y.Floor <= m <= y.Floor + 1
  {
    var n := y.Floor;
    var frac := y - n as real;
    if frac < 0.5 then n else if frac > 0.5 then n + 1 else if n % 2 == 0 then n else n + 1
  }

  lemma Hundredths(m: int, x: real)
    requires -0.5 <= m as real - x * 100.0 <= 0.5
    ensures (m as real / 100.0 * 100.0).Floor as real == m as real / 100.0 * 100.0
    ensures -0.005 <= m as real / 100.0 - x <= 0.005
  {
    assert m as real / 100.0 * 100.0 == m as real;
  }

  function Abs(x: real): real
  {
    if x < 0.0 then -x else x
  }

  /** No multiple of 0.01 is closer to `x` than `Round2(x)`. */
  lemma Round2Nearest(x: real, k: int)
    ensures Abs(Round2(x) - x) <= Abs(k as real / 100.0 - x)
  {
    var n := (x * 100.0).Floor;
    assert n as real <= x * 100.0 < n as real + 1.0;
    if k <= n {
      assert k as real / 100.0 <= n as real / 100.0;
    } else {
      assert k as real / 100.0 >= (n + 1) as real / 100.0;
    }
  }

  /** A value with at most two decimals is left unchanged. */
  lemma Round2Exact(k: int)
    ensures Round2(k as real / 100.0) == k as real / 100.0
  {
    assert (k as real / 100.0) * 100.0 == k as real;
  }

  /** Rounding is monotone. */
  lemma Round2Monotone(x: real, y: real)
    requires x <= y
    ensures Round2(x) <= Round2(y)
  {
    var nx := (x * 100.0).Floor;
    var ny := (y * 100.0).Floor;
    assert nx <= ny;
    assert RoundHalfEven(x * 100.0) <= RoundHalfEven(y * 100.0);
  }

  /** The dictionary `predict_latest` returns for a prediction. */
  datatype Forecast = Forecast(
    predictedAqi: real,
    category: string,
    riskScore: real,
    asthmaRisk: real,
    advisory: string)

  /** Category, score, asthma risk and advisory of one predicted AQI; the three
      numbers rounded to two places, each computed from the unrounded AQI. */
  function Assess(predicted: real): Forecast
  {
    var category := GetCategory(predicted);
    Forecast(
      Round2(predicted),
      category,
      Round2(GetRiskScore(predicted)),
      Round2(PopulationAdjustedRisk(predicted, "asthma")),
      AdvisoryMessage(category))
  }

  /** The scores of an assessment lie in [0, 1] for a non-negative AQI, and
      the asthma risk is never below the base score. */
  lemma AssessScores(predicted: real)
    ensures Assess(predicted).riskScore <= 1.0 && Assess(predicted).asthmaRisk <= 1.0
    ensures predicted >= 0.0 ==> 0.0 <= Assess(predicted).riskScore <= Assess(predicted).asthmaRisk
  {
    Round2Exact(100);
    Round2Exact(0);
    assert 100 as real / 100.0 == 1.0;
    assert 0 as real / 100.0 == 0.0;
    Round2Monotone(GetRiskScore(predicted), 1.0);
    Round2Monotone(PopulationAdjustedRisk(predicted, "asthma"), 1.0);
    if predicted >= 0.0 {
      GroupOrdering(predicted);
      Round2Monotone(0.0, GetRiskScore(predicted));
      Round2Monotone(GetRiskScore(predicted), PopulationAdjustedRisk(predicted, "asthma"));
    }
  }

  /** The category is "Unknown" exactly when the AQI falls in no band, and
      then, and only then, the advisory is the fallback text. */
  lemma AssessAdvisory(predicted: real)
    ensures Assess(predicted).category == Unknown <==> !Covered(predicted)
    ensures Assess(predicted).advisory == NoAdvisory <==> Assess(predicted).category == Unknown
  {
    GetCategoryUnknownIff(predicted);
    CoveredIff(predicted);
    AdvisoryFallback(GetCategory(predicted));
    CategoryIsLabel(predicted);
  }

  /** A forecast of 180 reads "Unhealthy for Sensitive Groups", risk 0.36 and
      asthma risk 0.54. */
  lemma Forecast180()
    ensures Assess(180.0) == Forecast(180.0, "Unhealthy for Sensitive Groups", 0.36, 0.54,
                                      "Children, elderly, and respiratory patients should limit outdoor exposure.")
  {
    GetCategoryIff(180.0, 2);
    Round2Exact(18000);
    Round2Exact(36);
    Round2Exact(54);
  }

  /** A forecast of 245: the exact asthma risk 0.735 is a tie, which rounds to
      the even 0.74. */
  lemma Forecast245()
    ensures Assess(245.0) == Forecast(245.0, "Poor", 0.49, 0.74,
                                      "Reduce outdoor activity. Consider wearing masks.")
  {
    WorkedExample();
    Round2Exact(24500);
    Round2Exact(49);
    Round2Tie();
  }

  /** 0.735 lies halfway between 0.73 and 0.74 and goes to the even 0.74. */
  lemma Round2Tie()
    ensures Round2(0.735) == 0.74
  {
    assert (73.5).Floor == 73;
  }
}
