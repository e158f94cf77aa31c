/** The week view's pure parts: the icon chosen for a weather condition
    and the guards of the two inline "add" forms. */
module WeekView {
  import opened Options
  import opened JsText
  import opened CalendarTypes

  // ---------------------------------------------------------------------
  // getWeatherIcon
  // ---------------------------------------------------------------------

  /** The react-icons weather glyphs the view can draw. */
  datatype Icon =
    | Na | DaySunny | NightClear | DayCloudy | Cloud | Cloudy | Fog | DayShowers
    | Raindrop | Raindrops | Rain | RainMix
    | DaySnow | Snow | SnowflakeCold
    | Sleet | Thunderstorm | StrongWindAndSnow | DaySleet | Dust

  datatype Animation = NoAnimation | SpinSlow | Float

  /** The element returned: the bare icon, or the icon wrapped in a span
      carrying an animation class. */
  datatype IconView = Plain(icon: Icon) | Animated(icon: Icon, animation: Animation)

  /** `condition?.toLowerCase() || ''`. */
  function LowerCondition(condition: Option<string>): (lower: string)
    ensures condition.None? ==> lower == ""
    ensures condition.Some? ==> lower == ToLower(condition.value)
  {
    if condition.Some? then ToLower(condition.value) else ""
  }

  /** Which of the words the ladder tests for occur in the lower-cased
      condition. */
  datatype Words = Words(
    sunny: bool, clear: bool, partlyCloudy: bool, cloudy: bool, overcast: bool,
    mist: bool, fog: bool, haze: bool, patchyRainPossible: bool, lightRainShower: bool,
    rain: bool, snow: bool, sleet: bool, thunder: bool, blizzard: bool,
    icePellets: bool, dust: bool, sand: bool,
    light: bool, moderate: bool, heavy: bool, freezing: bool, patchy: bool)

  /** `lower.includes(...)` for every word of the ladder. */
  function WordsIn(lower: string): Words {
    Words(
      Includes(lower, "sunny"), Includes(lower, "clear"), Includes(lower, "partly cloudy"),
      Includes(lower, "cloudy"), Includes(lower, "overcast"),
      Includes(lower, "mist"), Includes(lower, "fog"), Includes(lower, "haze"),
      Includes(lower, "patchy rain possible"), Includes(lower, "light rain shower"),
      Includes(lower, "rain"), Includes(lower, "snow"), Includes(lower, "sleet"),
      Includes(lower, "thunder"), Includes(lower, "blizzard"),
      Includes(lower, "ice pellets"), Includes(lower, "dust"), Includes(lower, "sand"),
      Includes(lower, "light"), Includes(lower, "moderate"), Includes(lower, "heavy"),
      Includes(lower, "freezing"), Includes(lower, "patchy"))
  }

  /** The sub-ladder for rain. */
  function RainIcon(w: Words): Icon {
    if w.light then Raindrop
    else if w.moderate then Raindrops
    else if w.heavy then Rain
    else if w.freezing then RainMix
    else Rain
  }

  /** The sub-ladder for snow. */
  function SnowIcon(w: Words): Icon {
    if w.light then DaySnow
    else if w.moderate then Snow
    else if w.heavy then SnowflakeCold
    else if w.patchy then DaySnow
    else Snow
  }

  /** The main ladder: the first test that matches picks the icon and the
      animation class. */
  function Ladder(w: Words): (choice: (Icon, Animation)) {
    if w.sunny then (DaySunny, SpinSlow)
    else if w.clear then (NightClear, SpinSlow)
    else if w.partlyCloudy then (DayCloudy, Float)
    else if w.cloudy then (Cloud, Float)
    else if w.overcast then (Cloudy, Float)
    else if w.mist || w.fog || w.haze then (Fog, NoAnimation)
    else if w.patchyRainPossible || w.lightRainShower then (DayShowers, NoAnimation)
    else if w.rain then (RainIcon(w), NoAnimation)
    else if w.snow then (SnowIcon(w), NoAnimation)
    else if w.sleet then (Sleet, NoAnimation)
    else if w.thunder then (Thunderstorm, NoAnimation)
    else if w.blizzard then (StrongWindAndSnow, NoAnimation)
    else if w.icePellets then (DaySleet, NoAnimation)
    else if w.dust || w.sand then (Dust, NoAnimation)
    else (Na, NoAnimation)
  }

  /** `getWeatherIcon`: an animated icon is returned unwrapped when the
      condition mentions a blizzard. */
  function WeatherIcon(condition: Option<string>): (view: IconView)
    ensures view.Animated? ==> view.animation != NoAnimation
  {
    var w := WordsIn(LowerCondition(condition));
    var (icon, animation) := Ladder(w);
    if animation != NoAnimation && !w.blizzard then Animated(icon, animation)
    else Plain(icon)
  }

  /** The words found in the condition of this view. */
  function WordsOf(condition: Option<string>): Words {
    WordsIn(LowerCondition(condition))
  }

  /** Some word of the ladder occurs. */
  predicate Recognised(w: Words) {
    || w.sunny || w.clear || w.cloudy || w.overcast || w.mist || w.fog || w.haze
    || w.rain || w.snow || w.sleet || w.thunder || w.blizzard || w.icePellets || w.dust || w.sand
  }

  /** A phrase that contains `pre + part + post` contains `part`. */
  lemma IncludesPart(s: string, pre: string, part: string, post: string)
    requires Includes(s, pre + part + post)
    ensures Includes(s, part)
  {
    var sub := pre + part + post;
    IncludesIsSubstring(s, sub);
    var i :| OccursAt(s, sub, i);
    var k := |pre|;
    forall j | 0 <= j < |part| ensures s[i + k + j] == part[j] {
      assert s[i + k + j] == s[i..i + |sub|][k + j];
      assert sub[k + j] == part[j];
    }
    assert s[i + k..i + k + |part|] == part;
    assert OccursAt(s, part, i + k);
    IncludesIsSubstring(s, part);
  }

  /** The phrases of the ladder contain its single words. */
  predicate Consistent(w: Words) {
    && (w.partlyCloudy ==> w.cloudy)
    && (w.patchyRainPossible ==> w.rain)
    && (w.lightRainShower ==> w.rain)
  }

  lemma PartlyCloudyIsCloudy(lower: string)
    ensures Includes(lower, "partly cloudy") ==> Includes(lower, "cloudy")
  {
    if Includes(lower, "partly cloudy") {
      assert "partly cloudy" == "partly " + "cloudy" + "";
      IncludesPart(lower, "partly ", "cloudy", "");
    }
  }

  lemma ShowersAreRain(lower: string)
    ensures Includes(lower, "patchy rain possible") ==> Includes(lower, "rain")
    ensures Includes(lower, "light rain shower") ==> Includes(lower, "rain")
  {
    if Includes(lower, "patchy rain possible") {
      assert "patchy rain possible" == "patchy " + "rain" + " possible";
      IncludesPart(lower, "patchy ", "rain", " possible");
    }
    if Includes(lower, "light rain shower") {
      assert "light rain shower" == "light " + "rain" + " shower";
      IncludesPart(lower, "light ", "rain", " shower");
    }
  }

  lemma WordsConsistent(lower: string)
    ensures Consistent(WordsIn(lower))
  {
    PartlyCloudyIsCloudy(lower);
    ShowersAreRain(lower);
  }

  /** The fallback icon is drawn exactly when no word of the ladder
      occurs. */
  lemma NaIffUnrecognised(condition: Option<string>)
    ensures WeatherIcon(condition).icon == Na <==> !Recognised(WordsOf(condition))
  {
    WordsConsistent(LowerCondition(condition));
  }

  /** A non-empty word never occurs in the empty string. */
  lemma NotInEmpty(sub: string)
    requires sub != ""
    ensures !Includes("", sub)
  {
  }

  /** A missing condition gets the fallback icon, unanimated. */
  lemma MissingConditionIsNa()
    ensures WeatherIcon(None) == Plain(Na)
  {
    NotInEmpty("sunny"); NotInEmpty("clear"); NotInEmpty("partly cloudy"); NotInEmpty("cloudy");
    NotInEmpty("overcast"); NotInEmpty("mist"); NotInEmpty("fog"); NotInEmpty("haze");
    NotInEmpty("patchy rain possible"); NotInEmpty("light rain shower"); NotInEmpty("rain");
    NotInEmpty("snow"); NotInEmpty("sleet"); NotInEmpty("thunder"); NotInEmpty("blizzard");
    NotInEmpty("ice pellets"); NotInEmpty("dust"); NotInEmpty("sand");
  }

  /** Only the sunny, clear and cloud branches animate, and never when a
      blizzard is mentioned. */
  lemma AnimatedExactly(condition: Option<string>)
    ensures WeatherIcon(condition).Animated? <==>
      var w := WordsOf(condition);
      (w.sunny || w.clear || w.cloudy || w.overcast) && !w.blizzard
  {
    WordsConsistent(LowerCondition(condition));
  }

  /** Sunny and clear spin; the cloud branches float. */
  lemma AnimationKind(condition: Option<string>)
    requires WeatherIcon(condition).Animated?
    ensures WeatherIcon(condition).animation == SpinSlow <==> WordsOf(condition).sunny || WordsOf(condition).clear
    ensures WeatherIcon(condition).animation == Float <==> !WordsOf(condition).sunny && !WordsOf(condition).clear
  {
  }

  /** The icon does not depend on the case of the condition's letters. */
  lemma IconIgnoresCase(a: string, b: string)
    requires ToLower(a) == ToLower(b)
    ensures WeatherIcon(Some(a)) == WeatherIcon(Some(b))
  {
  }

  /** A condition given in lower case already is read as it stands. */
  lemma IconOfLowered(s: string)
    ensures WeatherIcon(Some(ToLower(s))) == WeatherIcon(Some(s))
  {
    ToLowerIdempotent(s);
  }

  /** An earlier test shadows every later one: "sunny" wins over anything
      else in the condition. */
  lemma SunnyWins(condition: Option<string>)
    requires WordsOf(condition).sunny
    ensures WeatherIcon(condition).icon == DaySunny
  {
  }

  /** No branch before the showers matches. */
  predicate BeforeRain(w: Words) {
    !w.sunny && !w.clear && !w.cloudy && !w.overcast && !w.mist && !w.fog && !w.haze
  }

  /** A rain condition that reaches the rain branches is drawn as showers
      or by the rain sub-ladder; a snow condition without rain by the snow
      sub-ladder; neither animates. Within both sub-ladders "light" wins
      over any later qualifier such as "freezing". */
  lemma PrecipitationBranches(condition: Option<string>)
    requires BeforeRain(WordsOf(condition))
    ensures WordsOf(condition).rain ==>
      WeatherIcon(condition) == Plain(DayShowers) || WeatherIcon(condition) == Plain(RainIcon(WordsOf(condition)))
    ensures !WordsOf(condition).rain && WordsOf(condition).snow ==>
      WeatherIcon(condition) == Plain(SnowIcon(WordsOf(condition)))
    ensures WordsOf(condition).light ==>
      RainIcon(WordsOf(condition)) == Raindrop && SnowIcon(WordsOf(condition)) == DaySnow
  {
    WordsConsistent(LowerCondition(condition));
  }

  // ---------------------------------------------------------------------
  // The inline forms
  // ---------------------------------------------------------------------

  /** The "add city" form: the day it is open for and the typed text. */
  datatype CityForm = CityForm(date: Option<Instant>, text: string)

  /** The "add activity" form: the record it is open for and the text. */
  datatype ActivityForm = ActivityForm(recordId: Option<string>, text: string)

  /** What confirming the city form does: the record submitted, if any,
      and the form afterwards. */
  datatype CityConfirm = CityConfirm(submitted: Option<(Instant, string)>, form: CityForm)

  datatype ActivityConfirm = ActivityConfirm(submitted: Option<(Instant, string, string)>, form: ActivityForm)

  /** `handleConfirmAddCity`: submits the text as typed when its trimmed
      form is not empty and a day is chosen, then closes and clears the
      form; otherwise nothing happens. */
  function ConfirmAddCity(form: CityForm): (r: CityConfirm)
    ensures r.submitted.Some? <==> Trim(form.text) != "" && form.date.Some?
    ensures r.submitted.Some? ==> r.submitted.value == (form.date.value, form.text) && r.form == CityForm(None, "")
    ensures r.submitted.None? ==> r.form == form
  {
    if Trim(form.text) != "" && form.date.Some? then CityConfirm(Some((form.date.value, form.text)), CityForm(None, ""))
    else CityConfirm(None, form)
  }

  /** `handleConfirmAddActivity`: same guard on the text only; the day and
      the record come from the button that was pressed. */
  function ConfirmAddActivity(form: ActivityForm, date: Instant, recordId: string): (r: ActivityConfirm)
    ensures r.submitted.Some? <==> Trim(form.text) != ""
    ensures r.submitted.Some? ==> r.submitted.value == (date, recordId, form.text) && r.form == ActivityForm(None, "")
    ensures r.submitted.None? ==> r.form == form
  {
    if Trim(form.text) != "" then ActivityConfirm(Some((date, recordId, form.text)), ActivityForm(None, ""))
    else ActivityConfirm(None, form)
  }

  /** Text made only of white space is never submitted, from either
      form, and any other text is (given a chosen day for a city). */
  lemma BlankNeverSubmitted(text: string, date: Instant, recordId: string)
    ensures ConfirmAddCity(CityForm(Some(date), text)).submitted.None? <==> AllSpace(text)
    ensures ConfirmAddActivity(ActivityForm(Some(recordId), text), date, recordId).submitted.None? <==> AllSpace(text)
  {
    TrimShape(text);
  }

  /** A second confirm, made once the first has completed, submits
      nothing: a submission clears the form, and a refused confirm leaves
      the blank text or the missing day in place. */
  lemma ConfirmOnce(form: CityForm, aform: ActivityForm, date: Instant, recordId: string)
    ensures ConfirmAddCity(ConfirmAddCity(form).form).submitted.None?
    ensures ConfirmAddActivity(ConfirmAddActivity(aform, date, recordId).form, date, recordId).submitted.None?
  {
    TrimShape("");
  }
}
