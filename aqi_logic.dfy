/** The AQI category table and the environmental safety check of the dashboard
    (app.py, "AQI LOGIC" and the status cards). */
module AqiLogic {

  /** The five AQI bands, from cleanest to most polluted. */
  datatype Band = Good | Moderate | Unhealthy | VeryUnhealthy | Hazardous

  /** Inclusive upper bounds of the first four bands; Hazardous has none. */
  const UPPER_BOUNDS: seq<real> := [50.0, 100.0, 200.0, 300.0]

  /** Position of a band in the order of increasing pollution. */
  function Rank(b: Band): (n: nat)
    ensures n < 5
  {
    match b
    case Good => 0
    case Moderate => 1
    case Unhealthy => 2
    case VeryUnhealthy => 3
    case Hazardous => 4
  }

  /** The band of an AQI value, as the if/elif chain of aqi_details decides it. */
  function BandOf(aqi: real): (b: Band)
    ensures InBand(aqi, b)
  {
    if aqi <= 50.0 then Good
    else if aqi <= 100.0 then Moderate
    else if aqi <= 200.0 then Unhealthy
    else if aqi <= 300.0 then VeryUnhealthy
    else Hazardous
  }

  /** The band table read as intervals: band b covers (UPPER_BOUNDS[b-1], UPPER_BOUNDS[b]],
      unbounded below for Good and above for Hazardous. */
  predicate InBand(aqi: real, b: Band)
  {
    var n := Rank(b);
    (n == 0 || UPPER_BOUNDS[n - 1] < aqi) && (n == 4 || aqi <= UPPER_BOUNDS[n])
  }

  /** The bands partition the real line: every value lies in exactly one band, the one BandOf picks. */
  lemma BandPartition(aqi: real, b: Band)
    ensures InBand(aqi, b) <==> b == BandOf(aqi)
  {
  }

  /** How many bounds lie strictly below v: a reference count for the rank of v's band. */
  function CountBelow(bounds: seq<real>, v: real): (n: nat)
    ensures n <= |bounds|
  {
    if bounds == [] then 0 else (if bounds[0] < v then 1 else 0) + CountBelow(bounds[1..], v)
  }

  lemma {:induction false} CountBelowMonotone(bounds: seq<real>, a: real, b: real)
    requires a <= b
    ensures CountBelow(bounds, a) <= CountBelow(bounds, b)
  {
    if bounds != [] {
      CountBelowMonotone(bounds[1..], a, b);
    }
  }

  /** The rank of the band is the number of thresholds the value exceeds. */
  lemma RankCountsBounds(aqi: real)
    ensures Rank(BandOf(aqi)) == CountBelow(UPPER_BOUNDS, aqi)
  {
    var c4 := CountBelow([300.0], aqi);
    assert c4 == if 300.0 < aqi then 1 else 0 by {
      assert [300.0][1..] == [];
    }
    var c3 := CountBelow([200.0, 300.0], aqi);
    assert c3 == (if 200.0 < aqi then 1 else 0) + c4 by {
      assert [200.0, 300.0][1..] == [300.0];
    }
    var c2 := CountBelow([100.0, 200.0, 300.0], aqi);
    assert c2 == (if 100.0 < aqi then 1 else 0) + c3 by {
      assert [100.0, 200.0, 300.0][1..] == [200.0, 300.0];
    }
    assert CountBelow(UPPER_BOUNDS, aqi) == (if 50.0 < aqi then 1 else 0) + c2 by {
      assert UPPER_BOUNDS[1..] == [100.0, 200.0, 300.0];
    }
  }

  /** A higher AQI never falls in a cleaner band. */
  lemma BandMonotone(a: real, b: real)
    requires a <= b
    ensures Rank(BandOf(a)) <= Rank(BandOf(b))
  {
    RankCountsBounds(a);
    RankCountsBounds(b);
    CountBelowMonotone(UPPER_BOUNDS, a, b);
  }

  /** The four values aqi_details returns; the emoji is kept although only the page shows it. */
  datatype Details = Details(category: string, emoji: string, impact: string, action: string)

  /** The fixed category, emoji, health impact and action of each band. */
  function DetailsOf(b: Band): (d: Details)
    ensures d.category == CATEGORIES[Rank(b)]
    ensures d.impact == IMPACTS[Rank(b)] && d.action == ACTIONS[Rank(b)]
  {
    match b
    case Good => Details("Good", "🟢", "Air quality is satisfactory.", "No action required.")
    case Moderate => Details("Moderate", "🟡", "Minor discomfort to sensitive groups.", "Limit prolonged outdoor activity.")
    case Unhealthy => Details("Unhealthy", "🟠", "Breathing discomfort possible.", "Reduce outdoor exposure.")
    case VeryUnhealthy => Details("Very Unhealthy", "🔴", "High risk of respiratory effects.", "Avoid outdoor activity.")
    case Hazardous => Details("Hazardous", "🟣", "Serious health impacts.", "Emergency response required.")
  }

  /** aqi_details: the category, emoji, health impact and action for a predicted AQI. */
  function AqiDetails(aqi: real): (d: Details)
    ensures d.category in CATEGORIES
    ensures d.category == CATEGORIES[Rank(BandOf(aqi))]
    ensures d.impact == IMPACTS[Rank(BandOf(aqi))] && d.action == ACTIONS[Rank(BandOf(aqi))]
  {
    DetailsOf(BandOf(aqi))
  }

  /** The five category labels, in band order. */
  const CATEGORIES: seq<string> := ["Good", "Moderate", "Unhealthy", "Very Unhealthy", "Hazardous"]

  /** The five health-impact texts, in band order. */
  const IMPACTS: seq<string> := [
    "Air quality is satisfactory.",
    "Minor discomfort to sensitive groups.",
    "Breathing discomfort possible.",
    "High risk of respiratory effects.",
    "Serious health impacts."]

  /** The five action texts, in band order. */
  const ACTIONS: seq<string> := [
    "No action required.",
    "Limit prolonged outdoor activity.",
    "Reduce outdoor exposure.",
    "Avoid outdoor activity.",
    "Emergency response required."]

  /** The category of every value is one of the five labels, the one at its band's rank,
      and the bounds are inclusive upper bounds. */
  lemma CategoryBoundaries(aqi: real)
    ensures AqiDetails(aqi).category in CATEGORIES
    ensures AqiDetails(aqi).category == CATEGORIES[Rank(BandOf(aqi))]
    ensures aqi <= 50.0 <==> AqiDetails(aqi).category == "Good"
    ensures 50.0 < aqi <= 100.0 <==> AqiDetails(aqi).category == "Moderate"
    ensures 100.0 < aqi <= 200.0 <==> AqiDetails(aqi).category == "Unhealthy"
    ensures 200.0 < aqi <= 300.0 <==> AqiDetails(aqi).category == "Very Unhealthy"
    ensures 300.0 < aqi <==> AqiDetails(aqi).category == "Hazardous"
  {
  }

  /** A predicted 85.0 is Moderate, with the moderate emoji, impact and action. */
  lemma ModerateExample()
    ensures AqiDetails(85.0) == Details("Moderate", "🟡", "Minor discomfort to sensitive groups.", "Limit prolonged outdoor activity.")
  {
  }

  /** Different bands have different labels, so the label identifies the band
      and with it the whole impact/action pair. */
  lemma CategoryDeterminesDetails(a: real, b: real)
    ensures AqiDetails(a).category == AqiDetails(b).category <==> BandOf(a) == BandOf(b)
    ensures AqiDetails(a).category == AqiDetails(b).category ==> AqiDetails(a) == AqiDetails(b)
  {
    if BandOf(a) != BandOf(b) {
      var ca, cb := AqiDetails(a).category, AqiDetails(b).category;
      assert ca[0] != cb[0] || |ca| != |cb|;
    }
  }

  /** The outcome of one environmental safety card. */
  datatype Status = Safe | Unsafe

  const TEMPERATURE_LIMIT: real := 35.0
  const HUMIDITY_LIMIT: real := 80.0
  const WIND_SPEED_LIMIT: real := 6.0

  /** status_card's check: a reading is safe when it does not exceed its limit. */
  function StatusOf(value: real, limit: real): (s: Status)
    ensures s == Safe <==> value <= limit
  {
    if value <= limit then Safe else Unsafe
  }

  /** The label the card shows for a status. */
  function StatusLabel(s: Status): (text: string)
    ensures text == "SAFE" || text == "UNSAFE"
    ensures text == "SAFE" <==> s == Safe
  {
    if s == Safe then "SAFE" else "UNSAFE"
  }

  /** The three cards, for temperature, humidity and wind speed, with their fixed limits.
      Each card is given its reading rounded to two decimals, by `round2`. */
  function SafetyCards(temperature: real, humidity: real, windSpeed: real, round2: real -> real): (cards: seq<Status>)
    ensures |cards| == 3
    ensures cards[0] == Safe <==> round2(temperature) <= 35.0
    ensures cards[1] == Safe <==> round2(humidity) <= 80.0
    ensures cards[2] == Safe <==> round2(windSpeed) <= 6.0
    ensures forall i :: 0 <= i < 3 ==> (StatusLabel(cards[i]) == "SAFE" <==> cards[i] == Safe)
  {
    [StatusOf(round2(temperature), TEMPERATURE_LIMIT), StatusOf(round2(humidity), HUMIDITY_LIMIT),
     StatusOf(round2(windSpeed), WIND_SPEED_LIMIT)]
  }

  /** Safety is downward closed: a reading below a safe one is safe too, and one above an unsafe one is unsafe. */
  lemma StatusMonotone(v: real, w: real, limit: real)
    requires v <= w
    ensures StatusOf(w, limit) == Safe ==> StatusOf(v, limit) == Safe
    ensures StatusOf(v, limit) == Unsafe ==> StatusOf(w, limit) == Unsafe
  {
  }
}
