/** aqi_action (src/action_recommendation.py): advice text for an AQI value. */
module ActionRecommendation {
  import opened AqiLogic

  /** The five advice texts, from the cleanest band to the most polluted. */
  const ADVICE: seq<string> := [
    "Good air quality. No action needed.",
    "Moderate air quality. Sensitive individuals should limit outdoor activity.",
    "Unhealthy air. Reduce outdoor exposure. Wear masks if needed.",
    "Very unhealthy air. Avoid outdoor activity. Issue public health alerts.",
    "Hazardous air. Emergency response required."
  ]

  /** aqi_action's own if/elif chain. Its thresholds are those of aqi_details:
      the advice is the entry of ADVICE at the rank of the band aqi_details chooses. */
  function AqiAction(aqi: real): (advice: string)
    ensures advice in ADVICE
    ensures advice == ADVICE[Rank(BandOf(aqi))]
  {
    if aqi <= 50.0 then "Good air quality. No action needed."
    else if aqi <= 100.0 then "Moderate air quality. Sensitive individuals should limit outdoor activity."
    else if aqi <= 200.0 then "Unhealthy air. Reduce outdoor exposure. Wear masks if needed."
    else if aqi <= 300.0 then "Very unhealthy air. Avoid outdoor activity. Issue public health alerts."
    else "Hazardous air. Emergency response required."
  }

  /** The advice texts are pairwise distinct, so an advice text names one band. */
  lemma AdviceDistinct(i: nat, j: nat)
    requires i < 5 && j < 5 && i != j
    ensures ADVICE[i] != ADVICE[j]
  {
    // The five texts have five different lengths.
    assert |ADVICE[0]| == 35 && |ADVICE[1]| == 74 && |ADVICE[2]| == 61 && |ADVICE[3]| == 71 && |ADVICE[4]| == 43;
  }

  /** Two values get the same advice exactly when aqi_details puts them in the same band,
      that is, exactly when aqi_details gives them the same category. */
  lemma ActionAgreesWithDetails(a: real, b: real)
    ensures AqiAction(a) == AqiAction(b) <==> BandOf(a) == BandOf(b)
    ensures AqiAction(a) == AqiAction(b) <==> AqiDetails(a).category == AqiDetails(b).category
  {
    if BandOf(a) != BandOf(b) {
      AdviceDistinct(Rank(BandOf(a)), Rank(BandOf(b)));
    }
    CategoryDeterminesDetails(a, b);
  }

  /** The advice never gets milder as the AQI grows: if a <= b, the advice for a
      stands at a position of ADVICE no later than the advice for b. */
  lemma ActionMonotone(a: real, b: real, i: nat, j: nat)
    requires a <= b
    requires i < 5 && j < 5 && AqiAction(a) == ADVICE[i] && AqiAction(b) == ADVICE[j]
    ensures i <= j
  {
    BandMonotone(a, b);
    if i != Rank(BandOf(a)) {
      AdviceDistinct(i, Rank(BandOf(a)));
    }
    if j != Rank(BandOf(b)) {
      AdviceDistinct(j, Rank(BandOf(b)));
    }
  }

  /** The example in the module, and the boundary at 300. */
  lemma ActionExamples(aqi: real)
    ensures AqiAction(180.0) == "Unhealthy air. Reduce outdoor exposure. Wear masks if needed."
    ensures AqiAction(300.0) == "Very unhealthy air. Avoid outdoor activity. Issue public health alerts."
    ensures aqi > 300.0 ==> AqiAction(aqi) == "Hazardous air. Emergency response required."
  {
  }
}
