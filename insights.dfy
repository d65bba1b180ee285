/** The mood-insight logic of `mental_health_bot.py`: the early return
    of `generate_mood_insights` and the rule-based `get_fallback_insights`
    it falls back on when the remote model call fails. */
module Insights {
  import opened Wrappers

  const KeepTracking: string := "Keep tracking your mood for a few more days to get personalized insights! 📈"

  const MoodHigh: string := "Your mood levels look positive overall - keep up whatever you're doing! 🌟"
  const MoodBalanced: string := "Your mood is in a balanced range. Consider small daily practices to boost it further."
  const MoodLow: string := "I notice your mood has been lower lately. Remember, it's okay to have difficult periods."
  const SleepNote: string := "Your sleep quality could use some attention - good sleep is crucial for mental wellness."
  const AnxietyNote: string := "Your anxiety levels seem elevated. Consider practicing relaxation techniques daily."
  const Closing: string := "\n\nRemember, you're doing great by tracking and being aware of your patterns. 💙"

  /** The one mood sentence: `>= 7`, else `>= 5`, else the low-mood one. */
  function MoodSentence(avgMood: real): (s: string)
    ensures s == MoodHigh || s == MoodBalanced || s == MoodLow
    ensures s == MoodHigh <==> avgMood >= 7.0
    ensures s == MoodLow <==> avgMood < 5.0
  {
    if avgMood >= 7.0 then MoodHigh
    else if avgMood >= 5.0 then MoodBalanced
    else MoodLow
  }

  predicate IsMoodSentence(s: string) {
    s == MoodHigh || s == MoodBalanced || s == MoodLow
  }

  /** The sentences the fallback picks, in the order it appends them. */
  function ChosenInsights(avgMood: real, avgAnxiety: real, avgSleep: real): seq<string> {
    [MoodSentence(avgMood)]
    + (if avgSleep < 5.0 then [SleepNote] else [])
    + (if avgAnxiety > 7.0 then [AnxietyNote] else [])
  }

  /** Python `sep.join(parts)`. */
  function Join(parts: seq<string>, sep: string): string {
    if parts == [] then ""
    else if |parts| == 1 then parts[0]
    else parts[0] + sep + Join(parts[1..], sep)
  }

  /** Exactly one mood sentence, the first; the sleep sentence exactly when
      `avg_sleep < 5`; the anxiety sentence exactly when `avg_anxiety > 7`. */
  lemma ChosenInsightsContents(avgMood: real, avgAnxiety: real, avgSleep: real)
    ensures var c := ChosenInsights(avgMood, avgAnxiety, avgSleep);
      && c[0] == MoodSentence(avgMood)
      && (forall i :: 1 <= i < |c| ==> !IsMoodSentence(c[i]))
      && (SleepNote in c <==> avgSleep < 5.0)
      && (AnxietyNote in c <==> avgAnxiety > 7.0)
      && |c| == 1 + (if avgSleep < 5.0 then 1 else 0) + (if avgAnxiety > 7.0 then 1 else 0)
  {
    var c := ChosenInsights(avgMood, avgAnxiety, avgSleep);
    assert |MoodHigh| == 73 && |MoodBalanced| == 85 && |MoodLow| == 88;
    assert |SleepNote| == 88 && |AnxietyNote| == 83;
    assert SleepNote[85] == 's' && MoodLow[85] == 'd';
    assert !IsMoodSentence(SleepNote) && !IsMoodSentence(AnxietyNote);
    assert SleepNote != AnxietyNote && !IsMoodSentence(AnxietyNote);
  }

  /** `sep.join` of a head and up to two optional further parts. */
  lemma {:induction false} JoinOptional(m: string, x: string, y: string, withX: bool, withY: bool, sep: string)
    ensures Join([m] + (if withX then [x] else []) + (if withY then [y] else []), sep)
         == m + (if withX then sep + x else []) + (if withY then sep + y else [])
  {
    var parts := [m] + (if withX then [x] else []) + (if withY then [y] else []);
    if withX && withY {
      assert parts == [m, x, y] && parts[1..] == [x, y] && parts[1..][1..] == [y];
      assert Join(parts[1..], sep) == x + sep + y;
      assert Join(parts, sep) == m + sep + (x + sep + y);
    } else if withX {
      assert parts == [m, x] && parts[1..] == [x];
      assert Join(parts, sep) == m + sep + x;
    } else if withY {
      assert parts == [m, y] && parts[1..] == [y];
      assert Join(parts, sep) == m + sep + y;
    } else {
      assert parts == [m];
    }
  }

  /** The text in closed form: the mood sentence, then " " and the sleep
      sentence when chosen, then " " and the anxiety sentence when chosen,
      then the closing paragraph. */
  lemma FallbackTextShape(avgMood: real, avgAnxiety: real, avgSleep: real)
    ensures Join(ChosenInsights(avgMood, avgAnxiety, avgSleep), " ") + Closing
         == MoodSentence(avgMood)
            + (if avgSleep < 5.0 then " " + SleepNote else "")
            + (if avgAnxiety > 7.0 then " " + AnxietyNote else "")
            + Closing
  {
    JoinOptional(MoodSentence(avgMood), SleepNote, AnxietyNote, avgSleep < 5.0, avgAnxiety > 7.0, " ");
  }

  /** `get_fallback_insights`: append the chosen sentences one by one,
      join them with single spaces and add the closing paragraph. The
      average energy is taken and never read. */
  method FallbackInsights(avgMood: real, avgEnergy: real, avgAnxiety: real, avgSleep: real)
    returns (text: string)
    ensures text == Join(ChosenInsights(avgMood, avgAnxiety, avgSleep), " ") + Closing
  {
    var insights: seq<string> := [];
    if avgMood >= 7.0 {
      insights := insights + [MoodHigh];
    } else if avgMood >= 5.0 {
      insights := insights + [MoodBalanced];
    } else {
      insights := insights + [MoodLow];
    }
    if avgSleep < 5.0 {
      insights := insights + [SleepNote];
    }
    if avgAnxiety > 7.0 {
      insights := insights + [AnxietyNote];
    }
    assert insights == ChosenInsights(avgMood, avgAnxiety, avgSleep);
    text := Join(insights, " ") + Closing;
  }

  /** One mood-tracker entry as `generate_mood_insights` reads it. */
  datatype MoodReading = MoodReading(moodScale: int, energyLevel: int, anxietyLevel: int, sleepQuality: int)

  function Sum(xs: seq<int>): int {
    if xs == [] then 0 else xs[0] + Sum(xs[1..])
  }

  /** `sum(xs) / len(xs)`, exactly. */
  function Mean(xs: seq<int>): real
    requires xs != []
  {
    Sum(xs) as real / |xs| as real
  }

  function MoodScales(data: seq<MoodReading>): (r: seq<int>)
    ensures |r| == |data|
  {
    seq(|data|, i requires 0 <= i < |data| => data[i].moodScale)
  }

  function AnxietyLevels(data: seq<MoodReading>): (r: seq<int>)
    ensures |r| == |data|
  {
    seq(|data|, i requires 0 <= i < |data| => data[i].anxietyLevel)
  }

  function EnergyLevels(data: seq<MoodReading>): (r: seq<int>)
    ensures |r| == |data|
  {
    seq(|data|, i requires 0 <= i < |data| => data[i].energyLevel)
  }

  function SleepQualities(data: seq<MoodReading>): (r: seq<int>)
    ensures |r| == |data|
  {
    seq(|data|, i requires 0 <= i < |data| => data[i].sleepQuality)
  }

  /** `generate_mood_insights`: fewer than three entries (none included)
      give the fixed "keep tracking" message; otherwise the remote reply
      when there is one (`reply`), and the fallback over the four averages
      when the call raised (`None`). */
  method GenerateMoodInsights(moodData: seq<MoodReading>, reply: Option<string>) returns (text: string)
    ensures |moodData| < 3 ==> text == KeepTracking
    ensures |moodData| >= 3 && reply.Some? ==> text == reply.value
    ensures |moodData| >= 3 && reply.None? ==>
              text == Join(ChosenInsights(Mean(MoodScales(moodData)), Mean(AnxietyLevels(moodData)),
                                          Mean(SleepQualities(moodData))), " ") + Closing
  {
    if moodData == [] || |moodData| < 3 {
      return KeepTracking;
    }
    var avgMood := Mean(MoodScales(moodData));
    var avgEnergy := Mean(EnergyLevels(moodData));
    var avgAnxiety := Mean(AnxietyLevels(moodData));
    var avgSleep := Mean(SleepQualities(moodData));
    match reply {
      case Some(t) => text := t;
      case None => text := FallbackInsights(avgMood, avgEnergy, avgAnxiety, avgSleep);
    }
  }
}
