/**
 * `WeatherHTMLParser`'s two page parsers. The HTML library and the regular
 * expression engine are not modelled: a page is given as what they deliver,
 * the first capture of each pattern and the cells of each table row, and the
 * parsers' own logic (which field each hit goes to, in what order, how the
 * text becomes a number, when the timestamp is stamped) is modelled exactly.
 */
module HtmlParser {
  import opened Wrappers
  import opened Text
  import opened FieldExtractor
  import opened Models

  // ---------------------------------------------------------------------
  // The current-conditions page (currant.html)
  // ---------------------------------------------------------------------

  /**
   * The solar table's hits, from the first table that holds the word
   * "Ensoleillement": the `H:MM` text after each period name, and the
   * integer before `W/m` after the maximum and the average labels.
   */
  datatype SolarTable = SolarTable(
    today: Option<string>,
    month: Option<string>,
    year: Option<string>,
    radiationMax: Option<nat>,
    radiationCurrent: Option<nat>)

  /**
   * The current-conditions page as the pattern table sees it: for each field
   * path whose pattern matched, the text of the first match's group, and the
   * solar table's hits if a solar table was found.
   */
  datatype CurrantPage = CurrantPage(captures: map<Field, string>, solarTable: Option<SolarTable>)

  /** The field paths of the pattern table, in its order. */
  const CurrantPatterns: seq<Field> := [
    TemperatureCurrent, TemperatureMin, TemperatureMax, TemperatureAverage,
    HumidityCurrent, HumidityMin, HumidityMax,
    PressureCurrent, PressureTrend,
    WindSpeed, WindGustMax,
    RainToday,
    DewPoint]

  /** `float(value_str)` of a capture once its decimal comma is a dot; `None` is the `ValueError`. */
  function CaptureValue(v: string): Option<real> {
    ParseFloat(ReplaceChar(v, ',', '.'))
  }

  /** Writes `x` to field `f` when there is a value, and leaves the reading as it is otherwise. */
  function SetSome(w: WeatherData, f: Field, v: Option<real>): WeatherData {
    match v
    case Some(x) => Set(w, f, x)
    case None => w
  }

  /** Writes each field of `fields`, in order, with its value from `value` when it has one. */
  function WriteAll(w: WeatherData, fields: seq<Field>, value: Field -> Option<real>): WeatherData {
    if fields == [] then w
    else SetSome(WriteAll(w, fields[..|fields| - 1], value), fields[|fields| - 1], value(fields[|fields| - 1]))
  }

  /** A run of writes leaves in each listed field its value, if it has one, and touches nothing else. */
  lemma {:induction false} WriteAllFields(w: WeatherData, fields: seq<Field>, value: Field -> Option<real>, f: Field)
    ensures Get(WriteAll(w, fields, value), f) ==
            if f in fields && value(f).Some? then Stored(f, value(f).value) else Get(w, f)
    ensures SameUntracked(WriteAll(w, fields, value), w)
  {
    if fields != [] {
      var init, g := fields[..|fields| - 1], fields[|fields| - 1];
      WriteAllFields(w, init, value, f);
      assert f in fields <==> f in init || f == g by {
        assert fields == init + [g];
      }
    }
  }

  /** The value each pattern hit gives its field: `None` when it did not match or `float()` rejected it. */
  function CaptureOf(captures: map<Field, string>): Field -> Option<real> {
    f => if f in captures then CaptureValue(captures[f]) else None
  }

  /** `_extract_duration_minutes` of a period's `H:MM` text, as a float. */
  function SunshineMinutes(hit: Option<string>, previous: Option<real>): Option<real> {
    match hit
    case Some(s) => Some(ExtractDurationMinutes(s) as real)
    case None => previous
  }

  /** The solar table's step: the sunshine attributes appear, the radiation fields are overwritten, for each hit. */
  function SolarOf(s: Solar, t: SolarTable): Solar {
    var s := s.(sunshineTodayMinutes := SunshineMinutes(t.today, s.sunshineTodayMinutes));
    var s := s.(sunshineMonthMinutes := SunshineMinutes(t.month, s.sunshineMonthMinutes));
    var s := s.(sunshineYearMinutes := SunshineMinutes(t.year, s.sunshineYearMinutes));
    var s := if t.radiationMax.Some? then s.(radiationMax := t.radiationMax.value as real) else s;
    if t.radiationCurrent.Some? then s.(radiationCurrent := t.radiationCurrent.value as real) else s
  }

  function ApplySolar(w: WeatherData, t: SolarTable): WeatherData {
    w.(solar := SolarOf(w.solar, t))
  }

  /** The reading `parse_currant_html` returns for a page parsed at time `now`. */
  function CurrantReading(page: CurrantPage, now: int): WeatherData {
    var w := WriteAll(NewWeatherData(), CurrantPatterns, CaptureOf(page.captures));
    var w := if page.solarTable.Some? then ApplySolar(w, page.solarTable.value) else w;
    w.(timestamp := Some(now))
  }

  /** The solar table's walk in `parse_currant_html`: each row it recognises sets its attribute. */
  method ReadSolarTable(previous: Solar, table: SolarTable) returns (solar: Solar)
    ensures solar == SolarOf(previous, table)
  {
    solar := previous;
    if table.today.Some? {
      solar := solar.(sunshineTodayMinutes := Some(ExtractDurationMinutes(table.today.value) as real));
    }
    if table.month.Some? {
      solar := solar.(sunshineMonthMinutes := Some(ExtractDurationMinutes(table.month.value) as real));
    }
    if table.year.Some? {
      solar := solar.(sunshineYearMinutes := Some(ExtractDurationMinutes(table.year.value) as real));
    }
    if table.radiationMax.Some? {
      solar := solar.(radiationMax := table.radiationMax.value as real);
    }
    if table.radiationCurrent.Some? {
      solar := solar.(radiationCurrent := table.radiationCurrent.value as real);
    }
  }

  /** `parse_currant_html`: walk the pattern table into a fresh reading, read the solar table, stamp it. */
  method ParseCurrant(page: CurrantPage, now: int) returns (weather: WeatherData)
    ensures weather == CurrantReading(page, now)
  {
    weather := NewWeatherData();
    for i := 0 to |CurrantPatterns|
      invariant weather == WriteAll(NewWeatherData(), CurrantPatterns[..i], CaptureOf(page.captures))
    {
      var field := CurrantPatterns[i];
      assert CurrantPatterns[..i + 1][..i] == CurrantPatterns[..i];
      if field in page.captures {
        var parsed := CaptureValue(page.captures[field]);
        if parsed.Some? {
          weather := Set(weather, field, parsed.value);
        }
      }
    }
    assert CurrantPatterns[..|CurrantPatterns|] == CurrantPatterns;
    if page.solarTable.Some? {
      var solar := ReadSolarTable(weather.solar, page.solarTable.value);
      weather := weather.(solar := solar);
    }
    weather := weather.(timestamp := Some(now));
  }

  /**
   * Every field of the parsed current-conditions page: the value its pattern
   * captured, truncated for humidity, when the pattern table has the field
   * and `float()` accepts the capture; otherwise the zero default.
   */
  lemma CurrantFields(page: CurrantPage, now: int, f: Field)
    ensures Get(CurrantReading(page, now), f) ==
            if f in CurrantPatterns && f in page.captures && CaptureValue(page.captures[f]).Some?
            then Stored(f, CaptureValue(page.captures[f]).value)
            else 0.0
  {
    var w := WriteAll(NewWeatherData(), CurrantPatterns, CaptureOf(page.captures));
    WriteAllFields(NewWeatherData(), CurrantPatterns, CaptureOf(page.captures), f);
    assert Get(NewWeatherData(), f) == 0.0;
    FinishKeepsFields(w, page.solarTable, now, f);
  }

  /** The solar table and the timestamp touch none of the numeric fields. */
  lemma FinishKeepsFields(w: WeatherData, table: Option<SolarTable>, now: int, f: Field)
    ensures Get((if table.Some? then ApplySolar(w, table.value) else w).(timestamp := Some(now)), f) == Get(w, f)
  {
  }

  /** The fields no pattern of the current-conditions page reads. */
  lemma CurrantPatternTable(f: Field)
    ensures f !in CurrantPatterns <==> f in {PressureMin, PressureMax, RainMonth, RainYear, RainRate, RainRateMax, HeatIndex, ThswIndex}
  {
  }

  /** The current-conditions parser always stamps its reading with the parse time. */
  lemma CurrantStamped(page: CurrantPage, now: int)
    ensures CurrantReading(page, now).timestamp == Some(now)
    ensures CurrantReading(page, now).stationInfo == NewStationInfo()
  {
    WriteAllFields(NewWeatherData(), CurrantPatterns, CaptureOf(page.captures), TemperatureCurrent);
  }

  /** Parsing the same page at two times gives the same reading but for its timestamp. */
  lemma CurrantIdempotent(page: CurrantPage, t1: int, t2: int)
    ensures CurrantReading(page, t1) == CurrantReading(page, t2).(timestamp := Some(t1))
  {
  }

  /**
   * A capture `[+-]ip,fp` or `[+-]ip.fp` is read as the signed decimal it
   * writes; the pressure trend's capture is the signed one.
   */
  lemma CaptureReadsDecimal(sign: string, ip: string, sep: char, fp: string)
    requires IsSign(sign)
    requires AllDigits(ip) && |ip| > 0 && AllDigits(fp)
    requires sep == ',' || sep == '.'
    ensures CaptureValue(sign + ip + [sep] + fp) == Some(Signed(sign == "-", DecimalValue(ip, fp)))
  {
    ReplaceSignedComma(sign, ip, sep, fp);
    ParseFloatReads(sign, ip, fp);
  }

  /** A capture of digits alone, with or without a sign, is read as its value: `"98"` is 98.0. */
  lemma CaptureReadsWhole(sign: string, ds: string)
    requires IsSign(sign)
    requires AllDigits(ds) && |ds| > 0
    ensures CaptureValue(sign + ds) == Some(Signed(sign == "-", DigitsValue(ds) as real))
  {
    SignedDigitsNoComma(sign, ds);
    ParseFloatWhole(sign, ds);
  }

  /** A signed run of digits has no decimal comma to replace. */
  lemma SignedDigitsNoComma(sign: string, ds: string)
    requires IsSign(sign)
    requires AllDigits(ds)
    ensures ReplaceChar(sign + ds, ',', '.') == sign + ds
  {
    var num := sign + ds;
    forall k | 0 <= k < |num| ensures num[k] != ',' {
      if k >= |sign| {
        assert num[k] == ds[k - |sign|];
      }
    }
    ReplaceNothing(num, ',', '.');
  }

  /**
   * The humidity patterns capture digits only, so the truncation never bites
   * on a real capture: a humidity field holds exactly the number captured.
   */
  lemma CurrantHumidityExact(page: CurrantPage, now: int, f: Field, ds: string)
    requires IsHumidity(f) && f in page.captures && page.captures[f] == ds
    requires AllDigits(ds) && |ds| > 0
    ensures Get(CurrantReading(page, now), f) == DigitsValue(ds) as real
  {
    assert "" + ds == ds;
    CaptureReadsWhole("", ds);
    TruncOfInt(DigitsValue(ds));
    CurrantFields(page, now, f);
  }

  lemma TruncDecimal(ip: string, fp: string)
    requires AllDigits(ip) && AllDigits(fp)
    ensures Trunc(DecimalValue(ip, fp)) == DigitsValue(ip)
  {
  }

  /**
   * A humidity field keeps the integer part of a decimal written to it, as
   * `int(float(...))` does. The humidity patterns capture digits only, so on
   * a real page the fraction is always empty (see `CurrantHumidityExact`).
   */
  lemma StoredDecimal(f: Field, ip: string, fp: string)
    requires AllDigits(ip) && AllDigits(fp)
    ensures Stored(f, DecimalValue(ip, fp)) == if IsHumidity(f) then DigitsValue(ip) as real else DecimalValue(ip, fp)
  {
    TruncDecimal(ip, fp);
  }

  /** The pattern table writes numeric fields only: the solar record it leaves is the default one. */
  lemma PatternsLeaveSolar(page: CurrantPage)
    ensures WriteAll(NewWeatherData(), CurrantPatterns, CaptureOf(page.captures)).solar == NewSolar()
  {
    WriteAllFields(NewWeatherData(), CurrantPatterns, CaptureOf(page.captures), TemperatureCurrent);
  }

  /**
   * The sunshine totals exist on the parsed reading exactly when the solar
   * table gave the period's `H:MM` text; a page without a solar table leaves
   * all three absent.
   */
  lemma CurrantSunshine(page: CurrantPage, now: int)
    ensures var s := CurrantReading(page, now).solar;
            (s.sunshineTodayMinutes.Some? <==> page.solarTable.Some? && page.solarTable.value.today.Some?) &&
            (s.sunshineMonthMinutes.Some? <==> page.solarTable.Some? && page.solarTable.value.month.Some?) &&
            (s.sunshineYearMinutes.Some? <==> page.solarTable.Some? && page.solarTable.value.year.Some?)
  {
    PatternsLeaveSolar(page);
  }

  /** A period's total is the duration its `H:MM` text reads as, in minutes. */
  lemma CurrantSunshineToday(page: CurrantPage, now: int)
    requires page.solarTable.Some? && page.solarTable.value.today.Some?
    ensures CurrantReading(page, now).solar.sunshineTodayMinutes ==
            Some(ExtractDurationMinutes(page.solarTable.value.today.value) as real)
  {
  }

  // ---------------------------------------------------------------------
  // The data page (valeurs.htm)
  // ---------------------------------------------------------------------

  /**
   * The page-wide searches over the data page's text, each the number of its
   * first match if there is one: the `High`/`Low` temperatures, the
   * `High`/`Low` humidities, the gust before `km/hr at`, the first two
   * 4-digit `hPa` values in the order they appear, and the rate before `mm/hr`.
   */
  datatype ValeursHits = ValeursHits(
    temperatureHigh: Option<real>,
    temperatureLow: Option<real>,
    humidityHigh: Option<nat>,
    humidityLow: Option<nat>,
    gust: Option<real>,
    pressureRange: Option<(real, real)>,
    rainRateMax: Option<real>)

  /** The data page: the stripped text of each table row's cells, in document order, and the page-wide hits. */
  datatype ValeursPage = ValeursPage(rows: seq<seq<string>>, hits: ValeursHits)

  /** The row dispatch: the field a lower-cased caption selects, by the first test it passes. */
  function Classify(caption: string): Option<Field> {
    if Contains(caption, "temperature") && !Contains(caption, "air") then Some(TemperatureCurrent)
    else if Contains(caption, "humidity") || Contains(caption, "humidit") then Some(HumidityCurrent)
    else if Contains(caption, "pressure") || Contains(caption, "pression") then Some(PressureCurrent)
    else if Contains(caption, "wind") && Contains(caption, "10-min") then Some(WindSpeed)
    else if Contains(caption, "daily") && Contains(caption, "rain") then Some(RainToday)
    else if Contains(caption, "monthly") then Some(RainMonth)
    else if Contains(caption, "yearly") then Some(RainYear)
    else if Contains(caption, "rain rate") || Contains(caption, "rainfall rate") then Some(RainRate)
    else if Contains(caption, "dew point") then Some(DewPoint)
    else if Contains(caption, "heat index") then Some(HeatIndex)
    else if Contains(caption, "thsw") then Some(ThswIndex)
    else None
  }

  /**
   * One test of the dispatch as data: the caption holds one of `anyOf`, all of
   * `allOf` and none of `noneOf`.
   */
  datatype Rule = Rule(anyOf: seq<string>, allOf: seq<string>, noneOf: seq<string>, target: Field)

  predicate RuleMatches(r: Rule, caption: string) {
    (exists i :: 0 <= i < |r.anyOf| && Contains(caption, r.anyOf[i])) &&
    (forall i :: 0 <= i < |r.allOf| ==> Contains(caption, r.allOf[i])) &&
    (forall i :: 0 <= i < |r.noneOf| ==> !Contains(caption, r.noneOf[i]))
  }

  /** The dispatch's tests in their order. */
  const RowRules: seq<Rule> := [
    Rule(["temperature"], [], ["air"], TemperatureCurrent),
    Rule(["humidity", "humidit"], [], [], HumidityCurrent),
    Rule(["pressure", "pression"], [], [], PressureCurrent),
    Rule(["wind"], ["10-min"], [], WindSpeed),
    Rule(["daily"], ["rain"], [], RainToday),
    Rule(["monthly"], [], [], RainMonth),
    Rule(["yearly"], [], [], RainYear),
    Rule(["rain rate", "rainfall rate"], [], [], RainRate),
    Rule(["dew point"], [], [], DewPoint),
    Rule(["heat index"], [], [], HeatIndex),
    Rule(["thsw"], [], [], ThswIndex)]

  /** The target of the first rule a caption matches. */
  function FirstMatch(rules: seq<Rule>, caption: string): Option<Field> {
    if rules == [] then None
    else if RuleMatches(rules[0], caption) then Some(rules[0].target)
    else FirstMatch(rules[1..], caption)
  }

  /** `FirstMatch` picks the target of a matching rule that no earlier rule precedes, and `None` only when no rule matches. */
  lemma {:induction false} FirstMatchIsFirst(rules: seq<Rule>, caption: string)
    ensures FirstMatch(rules, caption).Some? ==>
            exists i :: 0 <= i < |rules| && RuleMatches(rules[i], caption) && rules[i].target == FirstMatch(rules, caption).value &&
                        forall j :: 0 <= j < i ==> !RuleMatches(rules[j], caption)
    ensures FirstMatch(rules, caption).None? <==> forall i :: 0 <= i < |rules| ==> !RuleMatches(rules[i], caption)
  {
    if rules != [] && !RuleMatches(rules[0], caption) {
      FirstMatchIsFirst(rules[1..], caption);
      assert forall i :: 1 <= i < |rules| ==> rules[i] == rules[1..][i - 1];
      if FirstMatch(rules, caption).Some? {
        var i :| 0 <= i < |rules[1..]| && RuleMatches(rules[1..][i], caption) && rules[1..][i].target == FirstMatch(rules, caption).value &&
                 forall j :: 0 <= j < i ==> !RuleMatches(rules[1..][j], caption);
        assert forall j :: 0 <= j < i + 1 ==> !RuleMatches(rules[j], caption) by {
          forall j | 0 <= j < i + 1 ensures !RuleMatches(rules[j], caption) {
            if j > 0 { assert rules[j] == rules[1..][j - 1]; }
          }
        }
        assert RuleMatches(rules[i + 1], caption) && rules[i + 1].target == FirstMatch(rules, caption).value;
      }
    } else if rules != [] {
      assert RuleMatches(rules[0], caption) && rules[0].target == FirstMatch(rules, caption).value;
    }
  }

  lemma MatchesOne(a: string, caption: string, target: Field)
    ensures RuleMatches(Rule([a], [], [], target), caption) <==> Contains(caption, a)
  {
    if Contains(caption, a) {
      assert [a][0] == a;
    }
  }

  lemma MatchesEither(a: string, b: string, caption: string, target: Field)
    ensures RuleMatches(Rule([a, b], [], [], target), caption) <==> Contains(caption, a) || Contains(caption, b)
  {
    var r := Rule([a, b], [], [], target);
    if Contains(caption, a) {
      assert r.anyOf[0] == a;
    } else if Contains(caption, b) {
      assert r.anyOf[1] == b;
    }
  }

  lemma MatchesBoth(a: string, b: string, caption: string, target: Field)
    ensures RuleMatches(Rule([a], [b], [], target), caption) <==> Contains(caption, a) && Contains(caption, b)
  {
    var r := Rule([a], [b], [], target);
    assert r.anyOf[0] == a && r.allOf[0] == b;
  }

  lemma MatchesButNot(a: string, b: string, caption: string, target: Field)
    ensures RuleMatches(Rule([a], [], [b], target), caption) <==> Contains(caption, a) && !Contains(caption, b)
  {
    var r := Rule([a], [], [b], target);
    assert r.anyOf[0] == a && r.noneOf[0] == b;
  }

  lemma FirstMatchStep(rules: seq<Rule>, k: nat, caption: string)
    requires k < |rules|
    ensures FirstMatch(rules[k..], caption) ==
            if RuleMatches(rules[k], caption) then Some(rules[k].target) else FirstMatch(rules[k + 1..], caption)
  {
    assert rules[k..][1..] == rules[k + 1..];
  }

  /** The last six rules of the table, as the tail of the if-chain. */
  lemma LaterRules(caption: string)
    ensures FirstMatch(RowRules[5..], caption) ==
            if Contains(caption, "monthly") then Some(RainMonth)
            else if Contains(caption, "yearly") then Some(RainYear)
            else if Contains(caption, "rain rate") || Contains(caption, "rainfall rate") then Some(RainRate)
            else if Contains(caption, "dew point") then Some(DewPoint)
            else if Contains(caption, "heat index") then Some(HeatIndex)
            else if Contains(caption, "thsw") then Some(ThswIndex)
            else None
  {
    var rs := RowRules;
    assert rs[5] == Rule(["monthly"], [], [], RainMonth);
    MatchesOne("monthly", caption, RainMonth);
    assert rs[6] == Rule(["yearly"], [], [], RainYear);
    MatchesOne("yearly", caption, RainYear);
    assert rs[7] == Rule(["rain rate", "rainfall rate"], [], [], RainRate);
    MatchesEither("rain rate", "rainfall rate", caption, RainRate);
    assert rs[8] == Rule(["dew point"], [], [], DewPoint);
    MatchesOne("dew point", caption, DewPoint);
    assert rs[9] == Rule(["heat index"], [], [], HeatIndex);
    MatchesOne("heat index", caption, HeatIndex);
    assert rs[10] == Rule(["thsw"], [], [], ThswIndex);
    MatchesOne("thsw", caption, ThswIndex);
    assert rs[11..] == [];
    FirstMatchStep(rs, 10, caption);
    FirstMatchStep(rs, 9, caption);
    FirstMatchStep(rs, 8, caption);
    FirstMatchStep(rs, 7, caption);
    FirstMatchStep(rs, 6, caption);
    FirstMatchStep(rs, 5, caption);
  }

  /** Rules three to five of the table, as the middle of the if-chain. */
  lemma MiddleRules(caption: string)
    ensures FirstMatch(RowRules[2..], caption) ==
            if Contains(caption, "pressure") || Contains(caption, "pression") then Some(PressureCurrent)
            else if Contains(caption, "wind") && Contains(caption, "10-min") then Some(WindSpeed)
            else if Contains(caption, "daily") && Contains(caption, "rain") then Some(RainToday)
            else FirstMatch(RowRules[5..], caption)
  {
    var rs := RowRules;
    assert rs[2] == Rule(["pressure", "pression"], [], [], PressureCurrent);
    MatchesEither("pressure", "pression", caption, PressureCurrent);
    assert rs[3] == Rule(["wind"], ["10-min"], [], WindSpeed);
    MatchesBoth("wind", "10-min", caption, WindSpeed);
    assert rs[4] == Rule(["daily"], ["rain"], [], RainToday);
    MatchesBoth("daily", "rain", caption, RainToday);
    FirstMatchStep(rs, 4, caption);
    FirstMatchStep(rs, 3, caption);
    FirstMatchStep(rs, 2, caption);
  }

  /** The if-chain of the dispatch picks what the rule table picks, for every caption. */
  lemma ClassifyFollowsRules(caption: string)
    ensures Classify(caption) == FirstMatch(RowRules, caption)
  {
    var rs := RowRules;
    assert rs[0] == Rule(["temperature"], [], ["air"], TemperatureCurrent);
    MatchesButNot("temperature", "air", caption, TemperatureCurrent);
    assert rs[1] == Rule(["humidity", "humidit"], [], [], HumidityCurrent);
    MatchesEither("humidity", "humidit", caption, HumidityCurrent);
    MiddleRules(caption);
    LaterRules(caption);
    FirstMatchStep(rs, 1, caption);
    FirstMatchStep(rs, 0, caption);
    assert rs[0..] == rs;
  }

  /** A caption sets the current temperature exactly when it says "temperature" and not "air". */
  lemma CurrentTemperatureLabels(caption: string)
    ensures Classify(caption) == Some(TemperatureCurrent) <==> Contains(caption, "temperature") && !Contains(caption, "air")
  {
  }

  /**
   * Order matters: a caption that says "daily" and "rain" sets today's rain
   * even when it also says "rain rate", unless an earlier test took it.
   */
  lemma DailyRainBeforeRate(caption: string)
    requires Contains(caption, "daily") && Contains(caption, "rain")
    ensures Classify(caption) != Some(RainRate)
    ensures Classify(caption) == Some(RainToday) <==>
            !(Contains(caption, "temperature") && !Contains(caption, "air")) &&
            !Contains(caption, "humidity") && !Contains(caption, "humidit") &&
            !Contains(caption, "pressure") && !Contains(caption, "pression") &&
            !(Contains(caption, "wind") && Contains(caption, "10-min"))
  {
  }

  /** `_extract_int` for the humidity row, `_extract_float` for every other row. */
  function RowValue(f: Field, text: string): (x: real)
    ensures f == HumidityCurrent ==> x == x.Floor as real
  {
    if f == HumidityCurrent then ExtractInt(text) as real else ExtractFloat(text)
  }

  /** The field a row sets: none for a row of fewer than two cells, else the dispatch of its lower-cased caption. */
  function RowTarget(cells: seq<string>): Option<Field> {
    if |cells| < 2 then None else Classify(Lower(cells[0]))
  }

  function ApplyRow(w: WeatherData, cells: seq<string>): WeatherData {
    match RowTarget(cells)
    case None => w
    case Some(f) => Set(w, f, RowValue(f, cells[1]))
  }

  /** The row loop over the first `|rows|` rows, each overwriting what came before. */
  function ApplyRows(w: WeatherData, rows: seq<seq<string>>): WeatherData {
    if rows == [] then w else ApplyRow(ApplyRows(w, rows[..|rows| - 1]), rows[|rows| - 1])
  }

  /** The fields the page-wide searches write, in the order the parser runs them. */
  const HitFields: seq<Field> := [
    TemperatureMax, TemperatureMin, HumidityMax, HumidityMin, WindGustMax, PressureMax, PressureMin, RainRateMax]

  /** The hit, if any, that the page-wide searches write to a field. */
  function HitFor(h: ValeursHits, f: Field): Option<real> {
    match f
    case TemperatureMax => h.temperatureHigh
    case TemperatureMin => h.temperatureLow
    case HumidityMax => if h.humidityHigh.Some? then Some(h.humidityHigh.value as real) else None
    case HumidityMin => if h.humidityLow.Some? then Some(h.humidityLow.value as real) else None
    case WindGustMax => h.gust
    case PressureMax => if h.pressureRange.Some? then Some(h.pressureRange.value.0) else None
    case PressureMin => if h.pressureRange.Some? then Some(h.pressureRange.value.1) else None
    case RainRateMax => h.rainRateMax
    case _ => None
  }

  /** The page-wide searches' writes, after the rows. */
  function ApplyHits(w: WeatherData, h: ValeursHits): WeatherData {
    WriteAll(w, HitFields, f => HitFor(h, f))
  }

  /** The reading `parse_valeurs_html` returns: the given one (or a fresh one) enriched, stamped only if unstamped. */
  function ValeursReading(page: ValeursPage, weather: Option<WeatherData>, now: int): WeatherData {
    var w := ApplyHits(ApplyRows(weather.GetOr(NewWeatherData()), page.rows), page.hits);
    if w.timestamp.None? then w.(timestamp := Some(now)) else w
  }

  /** `parse_valeurs_html`. */
  method ParseValeurs(page: ValeursPage, weather: Option<WeatherData>, now: int) returns (result: WeatherData)
    ensures result == ValeursReading(page, weather, now)
  {
    var w: WeatherData;
    if weather.None? {
      w := NewWeatherData();
    } else {
      w := weather.value;
    }
    ghost var start := w;
    var i := 0;
    while i < |page.rows|
      invariant 0 <= i <= |page.rows|
      invariant w == ApplyRows(start, page.rows[..i])
    {
      var cells := page.rows[i];
      assert page.rows[..i + 1][..i] == page.rows[..i];
      i := i + 1;
      if |cells| < 2 {
        continue;
      }
      var caption := Lower(cells[0]);
      var field := Classify(caption);
      if field.Some? {
        w := Set(w, field.value, RowValue(field.value, cells[1]));
      }
    }
    assert page.rows[..|page.rows|] == page.rows;
    w := ApplyHits(w, page.hits);
    if w.timestamp.None? {
      w := w.(timestamp := Some(now));
    }
    result := w;
  }

  /** A row changes at most one field, the one its caption selects, and nothing besides fields. */
  lemma RowSetsAtMostOneField(w: WeatherData, cells: seq<string>, g: Field)
    ensures RowTarget(cells) != Some(g) ==> Get(ApplyRow(w, cells), g) == Get(w, g)
    ensures RowTarget(cells) == Some(g) ==> Get(ApplyRow(w, cells), g) == Stored(g, RowValue(g, cells[1]))
    ensures SameUntracked(ApplyRow(w, cells), w)
    ensures |cells| < 2 ==> ApplyRow(w, cells) == w
  {
  }

  /** A field no row selects keeps the value it had before the rows were read. */
  lemma {:induction false} UntargetedFieldKept(w: WeatherData, rows: seq<seq<string>>, f: Field)
    requires forall i :: 0 <= i < |rows| ==> RowTarget(rows[i]) != Some(f)
    ensures Get(ApplyRows(w, rows), f) == Get(w, f)
    ensures SameUntracked(ApplyRows(w, rows), w)
  {
    if rows != [] {
      var init := rows[..|rows| - 1];
      UntargetedFieldKept(w, init, f);
      RowSetsAtMostOneField(ApplyRows(w, init), rows[|rows| - 1], f);
    }
  }

  /** The last row that selects a field decides its value: later rows overwrite earlier ones. */
  lemma {:induction false} LastRowWins(w: WeatherData, rows: seq<seq<string>>, i: nat, f: Field)
    requires i < |rows| && RowTarget(rows[i]) == Some(f)
    requires forall j :: i < j < |rows| ==> RowTarget(rows[j]) != Some(f)
    ensures Get(ApplyRows(w, rows), f) == Stored(f, RowValue(f, rows[i][1]))
  {
    var init := rows[..|rows| - 1];
    RowSetsAtMostOneField(ApplyRows(w, init), rows[|rows| - 1], f);
    if i < |rows| - 1 {
      LastRowWins(w, init, i, f);
    }
  }

  /** Each page-wide hit lands in its own field; every other field and everything else is kept. */
  lemma ApplyHitsFields(w: WeatherData, h: ValeursHits, f: Field)
    ensures Get(ApplyHits(w, h), f) == if HitFor(h, f).Some? then Stored(f, HitFor(h, f).value) else Get(w, f)
    ensures SameUntracked(ApplyHits(w, h), w)
  {
    WriteAllFields(w, HitFields, g => HitFor(h, g), f);
  }

  /**
   * The fields of the parsed data page: a page-wide hit beats any row, the
   * last row that selects a field beats earlier rows, and a field neither
   * touches keeps the given reading's value.
   */
  lemma ValeursFields(page: ValeursPage, weather: Option<WeatherData>, now: int, f: Field)
    ensures Get(ValeursReading(page, weather, now), f) ==
            if HitFor(page.hits, f).Some? then Stored(f, HitFor(page.hits, f).value)
            else Get(ApplyRows(weather.GetOr(NewWeatherData()), page.rows), f)
  {
    ApplyHitsFields(ApplyRows(weather.GetOr(NewWeatherData()), page.rows), page.hits, f);
  }

  /**
   * The data page keeps the given reading's timestamp, solar data and station
   * information, and stamps `now` only on a reading that had no timestamp.
   */
  lemma ValeursKeepsTimestamp(page: ValeursPage, weather: Option<WeatherData>, now: int)
    ensures var r := ValeursReading(page, weather, now);
            r.timestamp == (if weather.Some? && weather.value.timestamp.Some? then weather.value.timestamp else Some(now)) &&
            r.solar == weather.GetOr(NewWeatherData()).solar &&
            r.stationInfo == weather.GetOr(NewWeatherData()).stationInfo
  {
    var w0 := weather.GetOr(NewWeatherData());
    UntargetedFieldKept(w0, [], TemperatureCurrent);
    RowsKeepUntracked(w0, page.rows);
    ApplyHitsFields(ApplyRows(w0, page.rows), page.hits, TemperatureCurrent);
  }

  lemma {:induction false} RowsKeepUntracked(w: WeatherData, rows: seq<seq<string>>)
    ensures SameUntracked(ApplyRows(w, rows), w)
  {
    if rows != [] {
      RowsKeepUntracked(w, rows[..|rows| - 1]);
      RowSetsAtMostOneField(ApplyRows(w, rows[..|rows| - 1]), rows[|rows| - 1], TemperatureCurrent);
    }
  }

  /** Parsing the same data page onto the same reading at two times gives the same reading but for a stamp it adds. */
  lemma ValeursIdempotent(page: ValeursPage, weather: Option<WeatherData>, t1: int, t2: int)
    ensures ValeursReading(page, weather, t1).(timestamp := None) == ValeursReading(page, weather, t2).(timestamp := None)
  {
  }

  /** The pressure pair is taken in the order it is written: the first value is the maximum, the second the minimum. */
  lemma PressureRangeInTextOrder(page: ValeursPage, weather: Option<WeatherData>, now: int)
    requires page.hits.pressureRange.Some?
    ensures Get(ValeursReading(page, weather, now), PressureMax) == page.hits.pressureRange.value.0
    ensures Get(ValeursReading(page, weather, now), PressureMin) == page.hits.pressureRange.value.1
  {
    ValeursFields(page, weather, now, PressureMax);
    ValeursFields(page, weather, now, PressureMin);
  }

  /** Nothing orders the pair: a page that writes the lower value first yields a maximum below the minimum. */
  lemma PressureRangeMayInvert(now: int)
    ensures var hits := ValeursHits(None, None, None, None, None, Some((1009.5, 1013.2)), None);
            var r := ValeursReading(ValeursPage([], hits), None, now);
            r.pressure.max < r.pressure.min
  {
    var hits := ValeursHits(None, None, None, None, None, Some((1009.5, 1013.2)), None);
    PressureRangeInTextOrder(ValeursPage([], hits), None, now);
  }
}
