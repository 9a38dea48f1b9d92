# Weather station scraper: scrape, merge and cache, in Dafny

This project models the core of a weather-station exporter. The exporter
fetches two HTML pages from a station web site. It turns the
current-conditions page (`meteo/currant.html`) and the data page
(`meteo/vantage/valeurs.htm`) into one weather reading. It then serves that
reading from a cache with a time-to-live, and falls back to the last valid
reading when a refresh fails. The project proves properties of the model.

The model follows the program's three source files, in six modules:

- `Wrappers` (`wrappers.dfy`): `Option`, standing for Python's value-or-`None`.
- `Text` (`text.dfy`): the `str` operations the parsers rely on, written
  over `seq<char>`: `strip`, single-character `replace`, `re.sub` with a
  negated character class, `in`, `lower`, and decimal digits.
- `FieldExtractor` (`field_extractor.dfy`): the three extractors
  `_extract_float`, `_extract_int` and `_extract_duration_minutes`, with
  Python's `float()` and `int()` on the strings they receive. They are
  total functions that fall back to 0 on anything malformed.
- `Models` (`models.dfy`): the reading (`WeatherData` and its sub-records,
  with their defaults), a field-path setter standing for `setattr`, and
  `is_valid`.
- `HtmlParser` (`html_parser.dfy`): `parse_currant_html` and
  `parse_valeurs_html`, each as a method with a loop, proved equal to a
  specification function. A page is given as what the HTML library and
  the regular expressions find in it:
  - for the current-conditions page, the first capture of each pattern and
    the solar table's hits;
  - for the data page, the cells of each table row and the page-wide hits.

  The parsers' own logic is modelled exactly: which field each hit goes
  to, in what order, how text becomes a number, and when the reading is
  stamped. The HTML library itself is assumed never to raise (see
  "## Left out").
- `Scraper` (`scraper.dfy`): the `WeatherScraper` class. Its fields are
  the cache, the cache timestamp, the last duration and the last success
  flag. Its methods are `Scrape`, `Refresh` and `FetchPage`. A value-level
  `ScrapeStep` function states what one call does. The network and the
  HTML library form one `Upstream` value, and the clock is given as
  parameters.

The reading has three sunshine totals: today, this month and this year.
The source record `Solar` declares only `sunshine_minutes`. The
current-conditions parser attaches the three totals as new attributes, and
only when it finds them. The model therefore holds each total as an
`Option<real>` that is `None` until the parser sets it.

Notes on the code as written, which the model follows:

- The solar searches look in one table only. The code takes the nearest enclosing table of the first "Ensoleillement" text that has one, reads it, and stops there (`break` at `src/scraper/html_parser.py:161`). Later anchors are never looked at, so the model's page holds one optional solar table.
- `_extract_duration_minutes` is annotated `-> float` (`src/scraper/html_parser.py:42`). It returns the integer `hours * 60 + minutes` when it finds a token and `0.0` otherwise. The model keeps a natural number and converts it to `real` where the parser stores it, which gives the same stored value.

## Model

| member | source | states |
|---|---|---|
| Text.TrimStart | src/scraper/html_parser.py:26 | `lstrip()` leaves a suffix of its input, no longer than it. |
| Text.TrimEnd | src/scraper/html_parser.py:26 | `rstrip()` leaves a prefix of its input, no longer than it. |
| Text.Strip | src/scraper/html_parser.py:26 | No contract of its own: `strip()` is `rstrip()` after `lstrip()`, characterised by `Text.TrimStartDropsSpace` and `Text.TrimEndDropsSpace`. |
| Text.TrimStartDropsSpace | src/scraper/html_parser.py:26 | `strip()` drops only whitespace at the start, and all of it: what is left is empty or starts with a non-space. |
| Text.TrimEndDropsSpace | src/scraper/html_parser.py:26 | `strip()` drops only whitespace at the end, and all of it: what is left is empty or ends with a non-space. |
| Text.ReplaceChar | src/scraper/html_parser.py:26 | `replace(',', '.')` keeps the length, and every comma becomes a dot while every other character stays. |
| Text.Filter | src/scraper/html_parser.py:27 | `re.sub(r'[^...]', '', s)` leaves no longer text, made only of characters of the class. |
| Text.FilterKeepsAll | src/scraper/html_parser.py:27 | Text made only of characters of the class comes out of the filter unchanged. |
| Text.FilterEmptyIff | src/scraper/html_parser.py:27-28 | The cleaned text is empty exactly when no character of the input is in the class. |
| Text.FilterAppend | src/scraper/html_parser.py:27 | Filtering distributes over concatenation. |
| Text.Contains | src/scraper/html_parser.py:198 | `sub in s` holds exactly when `sub` occurs at some position of `s`. |
| Text.Lower | src/scraper/html_parser.py:194 | `lower()` keeps the length and lower-cases each character. |
| FieldExtractor.FractionValue | src/scraper/html_parser.py:28 | The digits after a decimal point are worth at least 0 and less than 1. |
| FieldExtractor.ParseUnsigned | src/scraper/html_parser.py:28 | `float()` accepts a text without a sign only if it holds a digit; which texts it accepts, and their values, are stated by `FieldExtractor.ParseUnsignedAccepts`, `FieldExtractor.ParseUnsignedDecimal` and `FieldExtractor.ParseUnsignedWhole`. |
| FieldExtractor.ParseFloat | src/scraper/html_parser.py:28 | `float()` never accepts a text without a digit, such as `""`, `"-"` or `"."`; see `FieldExtractor.ParseFloatAccepts` for exactly what it accepts. |
| FieldExtractor.ParseInt | src/scraper/html_parser.py:37 | `int()` accepts a text only if it holds a digit and every character after the first is a digit; `FieldExtractor.ParseIntSigned` gives the value. |
| FieldExtractor.ParseUnsignedAccepts | src/scraper/html_parser.py:28 | `float()` without a sign accepts a text exactly when it is digits with at most one dot and at least one digit: `"18"`, `"18."`, `".5"` and `"18.1"` are accepted, `"."` and `"1.2.3"` are not. |
| FieldExtractor.ParseFloatAccepts | src/scraper/html_parser.py:28 | `float()` accepts a text exactly when it is such a decimal literal, with an optional leading `+` or `-`. |
| FieldExtractor.ParseUnsignedDecimal | src/scraper/html_parser.py:28 | `float("ip.fp")` is the decimal value of the digits, either side of the dot possibly empty: `".5"` is 0.5 and `"18."` is 18. |
| FieldExtractor.ParseUnsignedWhole | src/scraper/html_parser.py:28 | `float()` of a run of digits is its value: `"18"` is 18. |
| FieldExtractor.ParseFloatSigned | src/scraper/html_parser.py:28 | A leading `+` or `-` in front of an unsigned text: `float()` accepts it exactly when it accepts the text, and negates the value for `-`. |
| FieldExtractor.ParseFloatReads | src/scraper/html_parser.py:28 | `float("[+-]ip.fp")` is the signed decimal value of the digits. |
| FieldExtractor.ParseFloatWhole | src/scraper/html_parser.py:28 | `float("[+-]ds")` is the signed value of the digits. |
| FieldExtractor.ParseIntSigned | src/scraper/html_parser.py:37 | `int("[+-]ds")` is the signed value of the digits: `int("-5")` is -5. |
| FieldExtractor.CleanFloat | src/scraper/html_parser.py:26-27 | No contract of its own: what `_extract_float` hands to `float()`, characterised by `FieldExtractor.CleanFloatIgnoresStrip`, `FieldExtractor.CleanFloatOfNumber` and `FieldExtractor.CleanFloatKeepsAll`. |
| FieldExtractor.CleanInt | src/scraper/html_parser.py:36 | No contract of its own: what `_extract_int` hands to `int()`, characterised by `FieldExtractor.CleanIntIgnoresStrip`, `FieldExtractor.IntCharsOfSigned` and `FieldExtractor.CleanIntKeepsAll`. |
| FieldExtractor.ExtractFloat | src/scraper/html_parser.py:22-30 | No contract of its own: `_extract_float`, characterised by `FieldExtractor.ExtractFloatWithoutDigits`, `FieldExtractor.ExtractFloatReadsDecimal`, `FieldExtractor.ExtractFloatReadsWhole`, `FieldExtractor.ExtractFloatMalformed` and `FieldExtractor.ExtractFloatTwoDots`. |
| FieldExtractor.ExtractInt | src/scraper/html_parser.py:33-39 | No contract of its own: `_extract_int`, characterised by `FieldExtractor.ExtractIntWithoutDigits`, `FieldExtractor.ExtractIntReadsDigits`, `FieldExtractor.ExtractIntDropsDot` and `FieldExtractor.ExtractIntMalformed`. |
| FieldExtractor.ExtractDurationMinutes | src/scraper/html_parser.py:41-56 | No contract of its own: `_extract_duration_minutes`, characterised by `FieldExtractor.ExtractDurationReadsClock` and `FieldExtractor.ExtractDurationWithoutClock`. |
| FieldExtractor.ExtractFloatWithoutDigits | src/scraper/html_parser.py:22-30 | `_extract_float` gives 0.0 for any text without a digit, such as `"abc"` or `"-"`. |
| FieldExtractor.ExtractIntWithoutDigits | src/scraper/html_parser.py:33-39 | `_extract_int` gives 0 for any text without a digit. |
| FieldExtractor.CleanFloatIgnoresStrip | src/scraper/html_parser.py:26-27 | The float cleaner gives the same result with or without the trimming step, since it drops whitespace anyway. |
| FieldExtractor.CleanIntIgnoresStrip | src/scraper/html_parser.py:36 | The same holds for the integer cleaner. |
| FieldExtractor.ReplaceDecimalComma | src/scraper/html_parser.py:26 | A number written `ip,fp` becomes `ip.fp`, and one written `ip.fp` stays as it is. |
| FieldExtractor.FloatCharsOfNumber | src/scraper/html_parser.py:26-27 | The float cleaner keeps a signed number whole and turns its decimal comma into a dot. |
| FieldExtractor.FloatCharsAround | src/scraper/html_parser.py:27 | Text that holds no digit, dot, minus or comma, on either side of a number, disappears in the cleaner. |
| FieldExtractor.CleanFloatOfNumber | src/scraper/html_parser.py:26-27 | Around a signed decimal written with a comma or a dot, the float cleaner leaves exactly `[-]ip.fp`. |
| FieldExtractor.ExtractFloatReadsDecimal | src/scraper/html_parser.py:22-30 | `_extract_float` reads back any signed decimal, written with a comma or a dot and either side of it possibly empty, between units and labels that hold no digit, dot, minus or comma. |
| FieldExtractor.ExtractFloatReadsWhole | src/scraper/html_parser.py:22-30 | `_extract_float` reads back a run of digits, with an optional minus sign, between such units and labels: `"12 km/h"` is 12.0. |
| FieldExtractor.ExtractIntOfDigits | src/scraper/html_parser.py:33-39 | When the integer cleaner leaves a run of digits, with or without a leading minus, `_extract_int` gives its signed value. |
| FieldExtractor.IntCharsAround | src/scraper/html_parser.py:36 | Text on either side that holds no digit and no minus sign disappears in the integer cleaner, which keeps of the middle what it would keep alone. |
| FieldExtractor.IntCharsOfSigned | src/scraper/html_parser.py:36 | Around a run of digits with an optional minus, between such texts, the integer cleaner leaves exactly that run. |
| FieldExtractor.ExtractIntReadsDigits | src/scraper/html_parser.py:33-39 | `_extract_int` reads back a run of digits, with an optional minus sign, between units and labels: `"65 %"` is 65 and `"-5 °C"` is -5. |
| FieldExtractor.IntCharsDropDot | src/scraper/html_parser.py:36 | The integer cleaner drops a decimal point and joins the digits around it. |
| FieldExtractor.ExtractIntDropsDot | src/scraper/html_parser.py:36-37 | `_extract_int("ip.fp")` is the value of the digits `ip` and `fp` written together, not the integer part. |
| FieldExtractor.ExtractIntExample | src/scraper/html_parser.py:36-37 | `_extract_int` of `"12.5"` is 125. |
| FieldExtractor.ParseUnsignedRejectsMinus | src/scraper/html_parser.py:28 | `float()` without a sign rejects any minus sign. |
| FieldExtractor.ParseUnsignedRejectsTwoDots | src/scraper/html_parser.py:28 | `float()` without a sign rejects a second dot. |
| FieldExtractor.ParseFloatRejects | src/scraper/html_parser.py:28-30 | `float()` rejects a minus sign after the first character, and two dots. |
| FieldExtractor.ExtractFloatMalformed | src/scraper/html_parser.py:24-30 | When the cleaned text has a minus sign after its start, or two dots, `_extract_float` gives 0.0. |
| FieldExtractor.ParseIntRejectsMinus | src/scraper/html_parser.py:37 | `int()` rejects a minus sign after the first character. |
| FieldExtractor.ExtractIntMalformed | src/scraper/html_parser.py:35-39 | When the cleaned text has a minus sign after its start, as `"5-"` and `"--5"` do, `_extract_int` gives 0. |
| FieldExtractor.CleanFloatKeepsAll | src/scraper/html_parser.py:26-27 | Text made only of digits, dots and minus signs reaches `float()` unchanged. |
| FieldExtractor.ExtractFloatTwoDots | src/scraper/html_parser.py:22-30 | Three runs of digits joined by two dots, such as `"1.2.3"`, give 0.0. |
| FieldExtractor.CleanIntKeepsAll | src/scraper/html_parser.py:36 | Text made only of digits and minus signs reaches `int()` unchanged. |
| FieldExtractor.ExtractIntInnerMinus | src/scraper/html_parser.py:33-39 | Digits followed by a minus sign and more digits, or by a minus sign alone (`"5-"`), give 0. |
| FieldExtractor.DigitRunEnd | src/scraper/html_parser.py:49 | The greedy `\d+` from a position ends at the first non-digit, or at the end of the text. |
| FieldExtractor.FindClock | src/scraper/html_parser.py:49 | `re.search(r'(\d+):(\d+)')` finds the leftmost position where the pattern matches, and `None` only when it matches nowhere. |
| FieldExtractor.DigitRunEndAt | src/scraper/html_parser.py:49 | A run of digits that no digit follows is exactly where the greedy `\d+` ends. |
| FieldExtractor.ClockMatchAt | src/scraper/html_parser.py:49 | An `H:MM` token with no digit before it is the match `re.search` finds, and both of its digit runs are whole. |
| FieldExtractor.ExtractDurationReadsClock | src/scraper/html_parser.py:41-56 | `_extract_duration_minutes` of a text holding `hours:minutes` with no digit before it gives `hours * 60 + minutes`. |
| FieldExtractor.ExtractDurationWithoutClock | src/scraper/html_parser.py:49-54 | Without an `H:MM` token anywhere in the text the duration is 0. |
| FieldExtractor.ExtractDurationWithoutColon | src/scraper/html_parser.py:54 | A text without a colon has no such token, so its duration is 0. |
| FieldExtractor.ExtractFloatExample | src/scraper/html_parser.py:22-30 | `_extract_float("18,1 °C")` is 18.1. |
| FieldExtractor.ExtractDurationExample | src/scraper/html_parser.py:45-53 | `_extract_duration_minutes("2:27 h")` is 147. |
| FieldExtractor.ExtractDurationYearExample | src/scraper/html_parser.py:45-53 | `_extract_duration_minutes("2176:45 h")` is 130605: hours are not capped at two digits. |
| Models.Trunc | src/scraper/html_parser.py:110 | `int(x)` on a float truncates toward zero: it is within 1 of `x`, on the side of zero. |
| Models.TruncOfInt | src/scraper/html_parser.py:252 | `int()` of a whole number leaves it unchanged, so humidity hits land exactly. |
| Models.Extensionality | src/scraper/models.py:75-88 | Two readings that agree on every numeric field and on everything else are the same reading. |
| Models.Set | src/scraper/html_parser.py:105-114 | `setattr` on a field path sets that field to the value, truncated for the humidity fields, and changes nothing else in the reading. |
| Models.SetOverwrites | src/scraper/html_parser.py:98-114 | A second write to the same field erases the first. |
| Models.SetCommutes | src/scraper/html_parser.py:98-114 | Writes to two different fields give the same reading in either order. |
| Models.NewWeatherData | src/scraper/models.py:9-88 | No contract of its own: the new reading, characterised field by field by `Models.NewWeatherDataDefaults`. |
| Models.NewWeatherDataDefaults | src/scraper/models.py:9-88 | A new reading has no timestamp and every numeric field 0; wind direction and average 0 and direction text `"N"`; rain of the last hour and the last 24 hours 0; a solar record with radiation and sunshine minutes 0 and no sunshine totals; and the station information "La Rose des Vents", "Roquefort les Pins", latitude 43.669, longitude 7.086, altitude 193. |
| Models.IsValid | src/scraper/models.py:90-101 | No contract of its own: `is_valid`, characterised by `Models.UnstampedIsInvalid` and `Models.ValidIffKeyFieldSet`. |
| Models.UnstampedIsInvalid | src/scraper/models.py:92-93 | Without a timestamp a reading is never valid, whatever its values. |
| Models.ValidIffKeyFieldSet | src/scraper/models.py:94-101 | A stamped reading is valid exactly when one of the five key fields (current temperature, humidity and pressure, wind speed, today's rain) is non-zero. |
| Models.NonKeyFieldKeepsValidity | src/scraper/models.py:95-101 | Writing any other field (a minimum, a maximum, the trend, an index) never changes validity. |
| Models.KeyFieldsZeroIsInvalid | src/scraper/models.py:95-101 | A reading whose five key fields are 0 is invalid, whatever else it holds. |
| Models.RainAloneIsValid | src/scraper/models.py:100 | A stamped reading with only today's rain at 0.1 mm is valid. |
| HtmlParser.WriteAllFields | src/scraper/html_parser.py:98-116 | After walking a list of field paths, each listed field holds its captured value if it has one, and every other field and every non-numeric part keeps its value. |
| HtmlParser.CurrantReading | src/scraper/html_parser.py:58-173 | No contract of its own: the reading `parse_currant_html` returns, characterised by the `HtmlParser.Currant…` lemmas below. |
| HtmlParser.ReadSolarTable | src/scraper/html_parser.py:122-161 | The walk of the solar table sets each sunshine total whose `H:MM` text the table gives, as that duration in minutes, and overwrites each radiation field whose value the table gives; everything else in the solar record is kept (`SolarOf`). |
| HtmlParser.ParseCurrant | src/scraper/html_parser.py:58-173 | The method's loop over the pattern table, its solar step and its stamp give exactly the reading `CurrantReading` specifies. |
| HtmlParser.CurrantFields | src/scraper/html_parser.py:74-116 | Every numeric field of the parsed page is the value its pattern captured, truncated for humidity, when the table has a pattern for the field and `float()` accepts the capture; otherwise it is 0. |
| HtmlParser.FinishKeepsFields | src/scraper/html_parser.py:118-163 | The solar step and the timestamp change none of the numeric fields. |
| HtmlParser.CurrantPatternTable | src/scraper/html_parser.py:74-96 | The fields no pattern reads are exactly the pressure minimum and maximum, the monthly and yearly rain, the rain rate and its maximum, the heat index and the THSW index. |
| HtmlParser.CurrantStamped | src/scraper/html_parser.py:163 | The parsed page is always stamped with the parse time and keeps the new reading's station information. |
| HtmlParser.CurrantIdempotent | src/scraper/html_parser.py:58-173 | Parsing the same page at two times gives the same reading except for its timestamp. |
| HtmlParser.CaptureReadsDecimal | src/scraper/html_parser.py:88-101 | A capture `[+-]ip,fp` or `[+-]ip.fp` is read as the signed decimal it writes, as the pressure trend's `+1,2` is. |
| HtmlParser.CaptureReadsWhole | src/scraper/html_parser.py:101-112 | A capture of digits alone, with an optional sign, is read as its value: `"98"` is 98.0. |
| HtmlParser.SignedDigitsNoComma | src/scraper/html_parser.py:101 | A run of digits with an optional sign has no comma for `replace(',', '.')` to change. |
| HtmlParser.CurrantHumidityExact | src/scraper/html_parser.py:83-110 | The humidity patterns capture digits only, and a humidity field of the parsed page holds exactly the number captured. |
| HtmlParser.TruncDecimal | src/scraper/html_parser.py:110 | `int(float("ip.fp"))` is the integer part `ip`. |
| HtmlParser.StoredDecimal | src/scraper/html_parser.py:109-112 | A humidity field keeps the integer part of any decimal it is given, as `int(float(...))` does; every other field keeps the decimal itself. The humidity patterns capture digits only, so on a real page the truncation never changes a value (`HtmlParser.CurrantHumidityExact`). |
| HtmlParser.PatternsLeaveSolar | src/scraper/html_parser.py:98-116 | The pattern table writes numeric fields only, and leaves the solar record at its defaults. |
| HtmlParser.CurrantSunshine | src/scraper/html_parser.py:118-145 | Each sunshine total exists exactly when the solar table gave that period's `H:MM` text, so a page without a solar table has none of the three. |
| HtmlParser.CurrantSunshineToday | src/scraper/html_parser.py:132-134 | Today's total is the duration, in minutes, that its `H:MM` text reads as. |
| HtmlParser.Classify | src/scraper/html_parser.py:197-235 | No contract of its own: the if-chain of caption tests, characterised by `HtmlParser.ClassifyFollowsRules`, `HtmlParser.CurrentTemperatureLabels` and `HtmlParser.DailyRainBeforeRate`. |
| HtmlParser.FirstMatchIsFirst | src/scraper/html_parser.py:197-235 | The rule table picks the target of a matching rule with no matching rule before it, and picks nothing only when no rule matches. |
| HtmlParser.ClassifyFollowsRules | src/scraper/html_parser.py:197-235 | The if-chain of row tests picks, for every caption, what the ordered rule table picks. |
| HtmlParser.CurrentTemperatureLabels | src/scraper/html_parser.py:198 | A caption sets the current temperature exactly when it contains "temperature" and not "air". |
| HtmlParser.DailyRainBeforeRate | src/scraper/html_parser.py:213-223 | A caption with "daily" and "rain" never sets the rain rate. It sets today's rain exactly when none of the four earlier tests takes it. |
| HtmlParser.RowValue | src/scraper/html_parser.py:197-235 | The humidity row is read by `_extract_int`, so its value is always a whole number; the other rows are read by `_extract_float`. |
| HtmlParser.ValeursReading | src/scraper/html_parser.py:175-280 | No contract of its own: the reading `parse_valeurs_html` returns, characterised by `HtmlParser.ValeursFields`, `HtmlParser.ValeursKeepsTimestamp` and the row lemmas below. |
| HtmlParser.ParseValeurs | src/scraper/html_parser.py:175-280 | The method's loop over the rows, then the page-wide hits, then the stamp give exactly the reading `ValeursReading` specifies. |
| HtmlParser.RowSetsAtMostOneField | src/scraper/html_parser.py:189-235 | A row changes at most the one field its caption selects, to its cell's value. A row of fewer than two cells changes nothing. |
| HtmlParser.UntargetedFieldKept | src/scraper/html_parser.py:189-235 | A field that no row selects keeps its value through the rows, and so does every non-numeric part. |
| HtmlParser.LastRowWins | src/scraper/html_parser.py:189-235 | The last row that selects a field decides its value. |
| HtmlParser.RowsKeepUntracked | src/scraper/html_parser.py:189-235 | The rows never change the timestamp, the solar data or the station information. |
| HtmlParser.ApplyHitsFields | src/scraper/html_parser.py:237-272 | Each page-wide hit lands in its own field, and every other field keeps its value. |
| HtmlParser.ValeursFields | src/scraper/html_parser.py:185-272 | A page-wide hit beats any row; otherwise the rows decide, and a field that neither touches keeps the given reading's value. |
| HtmlParser.ValeursKeepsTimestamp | src/scraper/html_parser.py:274-275 | The data page keeps the given reading's timestamp, solar data and station information, and stamps the parse time only on a reading without a timestamp. |
| HtmlParser.ValeursIdempotent | src/scraper/html_parser.py:175-280 | Parsing the same data page onto the same reading at two times gives the same reading except for the stamp it adds. |
| HtmlParser.PressureRangeInTextOrder | src/scraper/html_parser.py:264-267 | The first pressure value on the page becomes the maximum and the second the minimum. |
| HtmlParser.PressureRangeMayInvert | src/scraper/html_parser.py:264-267 | Nothing orders the pair: a page that gives the lower value first yields a maximum below the minimum. |
| Scraper.StripTrailingSlashes | src/scraper/scraper.py:27 | No contract of its own: `rstrip('/')`, characterised by `Scraper.StripTrailingSlashesDrops`. |
| Scraper.StripLeadingSlashes | src/scraper/scraper.py:52 | No contract of its own: `lstrip('/')`, characterised by `Scraper.StripLeadingSlashesDrops`. |
| Scraper.JoinUrl | src/scraper/scraper.py:52 | No contract of its own: the URL `_fetch_page` builds, characterised by `Scraper.JoinUrlOneSlash` and `Scraper.JoinUrlIgnoresSlashes`. |
| Scraper.StripTrailingSlashesDrops | src/scraper/scraper.py:27 | `rstrip('/')` leaves a prefix that does not end in a slash, and drops only slashes. |
| Scraper.StripLeadingSlashesDrops | src/scraper/scraper.py:52 | `lstrip('/')` leaves a suffix that does not start with a slash, and drops only slashes. |
| Scraper.JoinUrlOneSlash | src/scraper/scraper.py:52 | Exactly one slash sits where the base and the path meet. |
| Scraper.TrailingSlashDropped | src/scraper/scraper.py:27 | A trailing slash on the base does not change the stripped base. |
| Scraper.LeadingSlashDropped | src/scraper/scraper.py:52 | A leading slash on the path does not change the stripped path. |
| Scraper.JoinUrlIgnoresSlashes | src/scraper/scraper.py:52 | Extra slashes on either side of the join do not change the URL. |
| Scraper.DefaultBaseUnslashed | src/scraper/scraper.py:23 | The default base URL has no trailing slash. |
| Scraper.PathsUnslashed | src/scraper/scraper.py:92-93 | The two page paths have no leading slash. |
| Scraper.DefaultUrls | src/scraper/scraper.py:92-93 | With the default base, each page URL is the base, one slash and the path, as written. |
| Scraper.WeatherScraper.constructor | src/scraper/scraper.py:21-48 | A new scraper keeps the base without its trailing slashes, the timeout and the time-to-live, and starts with an empty cache, duration 0 and no success. |
| Scraper.WeatherScraper.Default | src/scraper/scraper.py:21-29 | With its default arguments the scraper uses the station's site, a 10-second timeout and a 60-second time-to-live. |
| Scraper.IsFresh | src/scraper/scraper.py:64-70 | No contract of its own: the freshness test of `_is_cache_valid`, a cached reading and a timestamp younger than the time-to-live, characterised by `Scraper.WeatherScraper.CacheAgeSeconds` and `Scraper.FastPathChangesNothing`. |
| Scraper.WeatherScraper.IsCacheValid | src/scraper/scraper.py:64-70 | No contract of its own: `_is_cache_valid()` is `IsFresh` of the scraper's state. |
| Scraper.WeatherScraper.CacheAgeSeconds | src/scraper/scraper.py:140-145 | The age is infinite exactly when there is no timestamp, and otherwise the time since the timestamp. The cache is fresh exactly when it holds a reading younger than the time-to-live. |
| Scraper.WeatherScraper.FetchPage | src/scraper/scraper.py:50-62 | One request, to the base joined with the path, and the page is what that URL gives. |
| Scraper.WeatherScraper.Scrape | src/scraper/scraper.py:72-128 | The new cache, success flag, duration, returned reading and requested URLs are what `ScrapeStep` gives for the old state, and the cache invariant is kept. |
| Scraper.WeatherScraper.Refresh | src/scraper/scraper.py:87-128 | The part after the fast path leaves the state, result and requests that `RefreshStep` gives. |
| Scraper.Merge | src/scraper/scraper.py:101-106 | There is a merged reading exactly when at least one page was fetched and is non-empty. |
| Scraper.ScrapeStep | src/scraper/scraper.py:72-128 | No contract of its own: one `scrape` call on values, characterised by `Scraper.FastPathChangesNothing`, `Scraper.SlowPathFetchesAndTimes`, `Scraper.ScrapeKeepsInvariant` and `Scraper.ScrapeReturnsValid`. |
| Scraper.RefreshStep | src/scraper/scraper.py:87-128 | No contract of its own: the refreshing part of `scrape`, characterised by `Scraper.BothFetchesFailed` and `Scraper.RefreshOutcome`. |
| Scraper.ParsePages | src/scraper/scraper.py:101-106 | Each fetched, non-empty page is parsed, the data page on top of the current-conditions reading; the result is `Merge` of the two pages. |
| Scraper.FastPathChangesNothing | src/scraper/scraper.py:83-85 | A call that is not forced, on a fresh cache, returns the cached reading, fetches nothing and changes nothing. |
| Scraper.SlowPathFetchesAndTimes | src/scraper/scraper.py:87-125 | Every other call fetches the current-conditions page, then the data page unless the first fetch raised, and records its duration on every path. |
| Scraper.BothFetchesFailed | src/scraper/scraper.py:95-99 | When both fetches fail: no success, the cache and its timestamp unchanged, the previous cache (possibly none) returned. |
| Scraper.RefreshOutcome | src/scraper/scraper.py:108-122 | A refresh succeeds exactly when nothing raised, some page was fetched and the merged reading exists and is valid. The reading is then cached with the current time and returned; otherwise the cache is kept and returned. |
| Scraper.NothingFetchedNothingMerged | src/scraper/scraper.py:95-106 | When both fetches fail there is no merged reading. |
| Scraper.ScrapeKeepsInvariant | src/scraper/scraper.py:109-111 | Every call keeps the invariant: the cache holds a reading exactly when it holds a timestamp, and only a valid reading. |
| Scraper.ScrapeReturnsValid | src/scraper/scraper.py:109-122 | From a state that keeps the invariant, a call returns nothing or a valid reading. |
| Scraper.EmptyPageIsNotParsed | src/scraper/scraper.py:102-106 | An empty page counts as fetched but merges like a missing one. |
| Scraper.DataPageAlone | src/scraper/scraper.py:105-106 | With only the data page, that page alone creates the reading. |
| Scraper.DataPageOverwrites | src/scraper/scraper.py:102-106 | With both pages, a field the data page sets (by a page-wide hit or a row) has the data page's value. Every other field keeps the current-conditions value, and the timestamp and solar data are the current-conditions page's. |
| Scraper.NoSunshineWithoutCurrant | src/scraper/scraper.py:102-106 | Without the current-conditions page the reading has none of the three sunshine totals. |
| Scraper.SecondCallWithinTtlFetchesNothing | src/scraper/scraper.py:64-85 | After a successful refresh, a call that is not forced within the time-to-live fetches nothing and returns the same reading, with the state unchanged. |
| Scraper.StaleReadingServedAfterFailure | src/scraper/scraper.py:95-99 | After a successful refresh, a later call whose fetches both fail returns that reading with success false and the old timestamp. |
| Scraper.TwoCallsWithinTtl | src/scraper/scraper.py:72-128 | On an empty cache, two calls within the time-to-live: if the first returns a reading, the second returns the same one, and only the first call's two pages were requested. |

## Left out

- The HTML library and the regular expression engine are not modelled. A page is given as what they find in it (`CurrantPage`, `ValeursPage`), and `Upstream` supplies those views for a page's text.
- `Scraper.RefreshStep`: the HTML library is assumed never to raise on a fetched page. Both parsers build their `BeautifulSoup` object before their `try` (`src/scraper/html_parser.py:63` and `:183`), so an exception there, such as bs4's `ParserRejectedMarkup`, would escape the parser and reach `scrape`'s `except Exception` (`src/scraper/scraper.py:119-122`). That call would then fall back: success false, the cache kept and returned, both URLs already requested. `Scraper.RefreshOutcome` does not cover this path, since the model's page views are total.
- The solar-table search is not modelled. The first table around an "Ensoleillement" text is given as the page's one optional `SolarTable`.
- The network is one function from URL to `Fetch`. This covers the `requests` session, the retry strategy, the timeout and the HTTP status check: `Failed` is a request error that `_fetch_page` catches, and `Raised` is any other exception, which `scrape`'s catch-all receives.
- The `timeout` field is kept but not used, since it only configures the request.
- The clock is a parameter. One `now` in whole seconds stands for every `datetime.now()` of one call, and the two `time.time()` readings are the `started`/`finished` parameters.
- `Scraper.WeatherScraper.CacheAgeSeconds`: the age is a whole number of seconds, not a float.
- Logging is left out.
- Floating-point numbers are modelled as exact reals, so IEEE rounding is not captured.
- `FieldExtractor.ParseFloat` and `FieldExtractor.ParseInt` cover only strings of digits, dots and signs. Those are the only strings the cleaners and the capture patterns can give them.
- `Text.IsDigit` covers ASCII digits only, not the other Unicode digits that `\d`, `float()` and `int()` accept.
- `Text.Lower` lower-cases ASCII and Latin-1 capitals only.
- The parsers' outer `except Exception` branches are not modelled, because every step inside them is total in the model. A capture that `float()` rejects is modelled: the field is skipped. One exception does reach the branch in `parse_currant_html` on every page without a "today" sunshine hit: the log message at `src/scraper/html_parser.py:166-168` reads `weather.solar.sunshine_today_minutes`, an attribute that exists only once the solar table has set it, so it raises `AttributeError`. That happens after the stamp at line 163, and the `except` at line 170 returns the same reading, so the returned value is the one the model gives; only the log line is lost.
- `FieldExtractor.ParseInt`: `int()` is total on digit strings in the model. CPython 3.11 and later reject a string of more than 4300 digits with `ValueError`. On such input `_extract_int` and `_extract_duration_minutes` would give 0, and `int(hum_high.group(1))` at `src/scraper/html_parser.py:252` would escape to the outer `except` of `parse_valeurs_html` and skip the stamp at lines 274-275. Station pages never hold such numbers.
- The parsers update one reading object in place; the model passes the reading as a value. The object is always the current-conditions page's fresh reading or a new one, never the cached one, so aliasing cannot be observed.
- The `last_scrape_duration` and `last_scrape_success` properties are the class fields themselves, read through `State()`.
- `FieldExtractor.ExtractFloatMalformed`: a misplaced minus sign in a float text (`"5-"`, `"--5"`) is stated on the cleaned text only; on raw text only the two-dot shape (`FieldExtractor.ExtractFloatTwoDots`) is stated.
