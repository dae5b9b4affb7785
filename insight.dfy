/**
 * The "AI insight" of GET /ai-insight/:city in server/server.js: a fixed template
 * chosen by two strict temperature thresholds, followed by a rain sentence when
 * the provider's weather description mentions rain. The provider call itself is
 * not modelled; its temperature (degrees Celsius) and description are inputs.
 */
module Insight {
  import opened Http
  import opened Text
  import opened Wrappers

  /** The three templates. */
  datatype Mood = Cool | Balanced | Warm

  /** Warm strictly above 30, cool strictly below 15, balanced from 15 to 30 inclusive. */
  function MoodOf(temp: real): (m: Mood)
    ensures m == Warm <==> temp > 30.0
    ensures m == Cool <==> temp < 15.0
    ensures m == Balanced <==> 15.0 <= temp <= 30.0
  {
    if temp > 30.0 then Warm
    else if temp < 15.0 then Cool
    else Balanced
  }

  /** The template of a mood, with the city name inserted where the source interpolates it. */
  function Opening(mood: Mood, city: string): string {
    match mood
    case Warm => "It's a warm and intense day in " + city + WarmEnd
    case Cool => "A cool and quiet mood wraps around " + city + CoolEnd
    case Balanced => "The weather in " + city + BalancedEnd
  }

  const WarmEnd: string := ". Perfect for slowing down and letting the evening breeze do the magic."
  const CoolEnd: string := ". Feels like a day for comfort and soft moments indoors."
  const BalancedEnd: string := " feels balanced and gentle. A calm day to move softly and breathe deeply."

  /** The sentence appended when the description contains "rain". */
  const RainClause: string := " A little rain adds romance to the air."

  predicate Rainy(condition: string) {
    Contains(condition, "rain")
  }

  /** The text that follows the city name in a mood's template. */
  function Ending(mood: Mood): string {
    match mood
    case Warm => WarmEnd
    case Cool => CoolEnd
    case Balanced => BalancedEnd
  }

  /** No template ends with the rain sentence, so its presence is always visible. */
  lemma OpeningNotRainy(mood: Mood, city: string)
    ensures !EndsWith(Opening(mood, city), RainClause)
  {
    var o := Opening(mood, city);
    var e := Ending(mood);
    assert |e| >= |RainClause|;
    assert o[|o| - 2] == e[|e| - 2] != RainClause[|RainClause| - 2];
  }

  /** The insight text: the template of the temperature's mood, and the rain sentence exactly
      when the description contains "rain". */
  function InsightText(city: string, temp: real, condition: string): (r: string)
    ensures StartsWith(r, Opening(MoodOf(temp), city))
    ensures EndsWith(r, RainClause) <==> Rainy(condition)
    ensures |r| == |Opening(MoodOf(temp), city)| + (if Rainy(condition) then |RainClause| else 0)
  {
    var insight := Opening(MoodOf(temp), city);
    OpeningNotRainy(MoodOf(temp), city);
    if Rainy(condition) then insight + RainClause else insight
  }

  /** What the provider reports and the insight reads: temperature and weather description. */
  datatype Reading = Reading(temp: real, condition: string)

  const InsightFailed: string := "AI insight failed"

  /** GET /ai-insight/:city: a provider failure (None) is a 500; otherwise the insight text. */
  function AiInsight(city: string, reading: Option<Reading>): (r: Response<string>)
    ensures r.Ok? <==> reading.Some?
    ensures reading.None? ==> r == ServerError(InsightFailed)
    ensures reading.Some? ==> r == Ok(InsightText(city, reading.value.temp, reading.value.condition))
    ensures reading.Some? ==>
              && StartsWith(r.value, Opening(MoodOf(reading.value.temp), city))
              && (EndsWith(r.value, RainClause) <==> Rainy(reading.value.condition))
  {
    match reading
    case None => ServerError(InsightFailed)
    case Some(Reading(temp, condition)) => Ok(InsightText(city, temp, condition))
  }

  /** The thresholds are strict: 30 and 15 degrees both give the balanced template, while
      anything above 30 gives the warm one and anything below 15 the cool one. */
  lemma {:induction false} ThresholdsStrict(city: string, condition: string, temp: real)
    ensures StartsWith(InsightText(city, 30.0, condition), Opening(Balanced, city))
    ensures StartsWith(InsightText(city, 15.0, condition), Opening(Balanced, city))
    ensures InsightText(city, 30.0, condition) == InsightText(city, 15.0, condition)
    ensures temp > 30.0 ==> StartsWith(InsightText(city, temp, condition), Opening(Warm, city))
    ensures temp < 15.0 ==> StartsWith(InsightText(city, temp, condition), Opening(Cool, city))
  {
    var r30, r15 := InsightText(city, 30.0, condition), InsightText(city, 15.0, condition);
    assert r30 == r15 by {
      assert |r30| == |r15|;
      assert r30[..|Opening(Balanced, city)|] == r15[..|Opening(Balanced, city)|];
      if Rainy(condition) {
        assert r30[|r30| - |RainClause|..] == r15[|r15| - |RainClause|..];
        assert r30 == r30[..|Opening(Balanced, city)|] + r30[|r30| - |RainClause|..];
        assert r15 == r15[..|Opening(Balanced, city)|] + r15[|r15| - |RainClause|..];
      } else {
        assert r30 == r30[..|Opening(Balanced, city)|];
        assert r15 == r15[..|Opening(Balanced, city)|];
      }
    }
  }

  /** The first character of a template tells which template it is. */
  function Initial(mood: Mood): char {
    match mood
    case Warm => 'I'
    case Cool => 'A'
    case Balanced => 'T'
  }

  /** An insight text tells which template was chosen and whether rain was mentioned, whatever
      the cities: two equal texts come from the same mood and the same rain answer. */
  lemma InsightRecoversMoodAndRain(city1: string, temp1: real, condition1: string,
                                   city2: string, temp2: real, condition2: string)
    requires InsightText(city1, temp1, condition1) == InsightText(city2, temp2, condition2)
    ensures MoodOf(temp1) == MoodOf(temp2)
    ensures Rainy(condition1) <==> Rainy(condition2)
  {
    var r := InsightText(city1, temp1, condition1);
    var o1, o2 := Opening(MoodOf(temp1), city1), Opening(MoodOf(temp2), city2);
    OpeningInitial(MoodOf(temp1), city1);
    OpeningInitial(MoodOf(temp2), city2);
    assert r[0] == o1[0] by { assert r[..|o1|] == o1; }
    assert r[0] == o2[0] by { assert r[..|o2|] == o2; }
  }

  lemma OpeningInitial(mood: Mood, city: string)
    ensures |Opening(mood, city)| > 0 && Opening(mood, city)[0] == Initial(mood)
  {
  }

  /** A warmer reading never gives a cooler template. */
  function Rank(mood: Mood): nat {
    match mood
    case Cool => 0
    case Balanced => 1
    case Warm => 2
  }

  lemma MoodMonotonic(t1: real, t2: real)
    requires t1 <= t2
    ensures Rank(MoodOf(t1)) <= Rank(MoodOf(t2))
  {
  }

  /** A stubbed provider reporting 10 degrees with "light rain" for paris gives the cool
      template followed by the rain sentence. */
  lemma CoolRainyParis()
    ensures InsightText("paris", 10.0, "light rain") == Opening(Cool, "paris") + RainClause
  {
    assert OccursAt("light rain", "rain", 6);
    assert Rainy("light rain");
    assert MoodOf(10.0) == Cool;
  }

  /** With "clear sky" instead, the rain sentence is absent. */
  lemma CoolDryParis()
    ensures InsightText("paris", 10.0, "clear sky") == Opening(Cool, "paris")
  {
    var sky := "clear sky";
    forall i | 0 <= i <= |sky| - 4 ensures !OccursAt(sky, "rain", i) {
      assert sky[i] != 'r' || sky[i + 2] != 'i';
    }
    assert !Rainy(sky);
    assert MoodOf(10.0) == Cool;
  }
}
