/**
 * The weather reading: a record of sub-records whose numeric fields all
 * default to zero, the station's fixed metadata, an optional timestamp, and
 * the validity test the scraper applies before caching a reading.
 */
module Models {
  import opened Wrappers

  datatype Temperature = Temperature(current: real, min: real, max: real, average: real)

  datatype Humidity = Humidity(current: int, min: int, max: int)

  datatype Pressure = Pressure(current: real, trend: real, min: real, max: real)

  datatype Wind = Wind(speed: real, direction: real, gustMax: real, average: real, directionText: string)

  datatype Rain = Rain(lastHour: real, today: real, last24h: real, month: real, year: real, rate: real, rateMax: real)

  /**
   * Solar data. `sunshineMinutes` is the declared field; the three period
   * totals are attributes the currant parser attaches to the object only when
   * it finds them, so each is `None` until then.
   */
  datatype Solar = Solar(
    radiationCurrent: real,
    radiationMax: real,
    sunshineMinutes: real,
    sunshineTodayMinutes: Option<real>,
    sunshineMonthMinutes: Option<real>,
    sunshineYearMinutes: Option<real>)

  datatype StationInfo = StationInfo(name: string, location: string, latitude: real, longitude: real, altitude: real)

  /** A reading; `timestamp` is in seconds, `None` until a parser stamps it. */
  datatype WeatherData = WeatherData(
    temperature: Temperature,
    humidity: Humidity,
    pressure: Pressure,
    wind: Wind,
    rain: Rain,
    solar: Solar,
    dewpoint: real,
    heatIndex: real,
    thswIndex: real,
    timestamp: Option<int>,
    stationInfo: StationInfo)

  function NewTemperature(): Temperature { Temperature(0.0, 0.0, 0.0, 0.0) }
  function NewHumidity(): Humidity { Humidity(0, 0, 0) }
  function NewPressure(): Pressure { Pressure(0.0, 0.0, 0.0, 0.0) }
  function NewWind(): Wind { Wind(0.0, 0.0, 0.0, 0.0, "N") }
  function NewRain(): Rain { Rain(0.0, 0.0, 0.0, 0.0, 0.0, 0.0, 0.0) }
  function NewSolar(): Solar { Solar(0.0, 0.0, 0.0, None, None, None) }
  function NewStationInfo(): StationInfo { StationInfo("La Rose des Vents", "Roquefort les Pins", 43.669, 7.086, 193.0) }

  /** `WeatherData()`: every sub-record at its defaults, no timestamp. */
  function NewWeatherData(): WeatherData {
    WeatherData(NewTemperature(), NewHumidity(), NewPressure(), NewWind(), NewRain(), NewSolar(),
                0.0, 0.0, 0.0, None, NewStationInfo())
  }

  /** The numeric fields the two page parsers write, named by their dotted paths. */
  datatype Field =
    | TemperatureCurrent | TemperatureMin | TemperatureMax | TemperatureAverage
    | HumidityCurrent | HumidityMin | HumidityMax
    | PressureCurrent | PressureTrend | PressureMin | PressureMax
    | WindSpeed | WindGustMax
    | RainToday | RainMonth | RainYear | RainRate | RainRateMax
    | DewPoint | HeatIndex | ThswIndex

  /** The fields declared `int`: a path that contains `humidity`. */
  predicate IsHumidity(f: Field) {
    f == HumidityCurrent || f == HumidityMin || f == HumidityMax
  }

  /** Python's `int(x)` on a float: truncation toward zero. */
  function Trunc(x: real): (n: int)
    ensures 0.0 <= x ==> n as real <= x < n as real + 1.0
    ensures x < 0.0 ==> n as real - 1.0 < x <= n as real
  {
    if x >= 0.0 then x.Floor else -((-x).Floor)
  }

  lemma TruncOfInt(n: int)
    ensures Trunc(n as real) == n
  {
  }

  /** What a field holds once `x` is written to it: humidity fields keep `int(x)`. */
  function Stored(f: Field, x: real): real {
    if IsHumidity(f) then Trunc(x) as real else x
  }

  /** The value of a field, as a number. */
  function Get(w: WeatherData, f: Field): real {
    match f
    case TemperatureCurrent => w.temperature.current
    case TemperatureMin => w.temperature.min
    case TemperatureMax => w.temperature.max
    case TemperatureAverage => w.temperature.average
    case HumidityCurrent => w.humidity.current as real
    case HumidityMin => w.humidity.min as real
    case HumidityMax => w.humidity.max as real
    case PressureCurrent => w.pressure.current
    case PressureTrend => w.pressure.trend
    case PressureMin => w.pressure.min
    case PressureMax => w.pressure.max
    case WindSpeed => w.wind.speed
    case WindGustMax => w.wind.gustMax
    case RainToday => w.rain.today
    case RainMonth => w.rain.month
    case RainYear => w.rain.year
    case RainRate => w.rain.rate
    case RainRateMax => w.rain.rateMax
    case DewPoint => w.dewpoint
    case HeatIndex => w.heatIndex
    case ThswIndex => w.thswIndex
  }

  /** Everything a reading holds besides the numeric fields in `Field` agrees. */
  predicate SameUntracked(a: WeatherData, b: WeatherData) {
    a.wind.direction == b.wind.direction && a.wind.average == b.wind.average &&
    a.wind.directionText == b.wind.directionText &&
    a.rain.lastHour == b.rain.lastHour && a.rain.last24h == b.rain.last24h &&
    a.solar == b.solar && a.timestamp == b.timestamp && a.stationInfo == b.stationInfo
  }

  lemma SameTemperature(a: WeatherData, b: WeatherData)
    requires forall f :: Get(a, f) == Get(b, f)
    ensures a.temperature.current == b.temperature.current && a.temperature.min == b.temperature.min && a.temperature.max == b.temperature.max && a.temperature.average == b.temperature.average
  {
    assert Get(a, TemperatureCurrent) == Get(b, TemperatureCurrent);
    assert Get(a, TemperatureMin) == Get(b, TemperatureMin);
    assert Get(a, TemperatureMax) == Get(b, TemperatureMax);
    assert Get(a, TemperatureAverage) == Get(b, TemperatureAverage);
  }

  lemma SameHumidity(a: WeatherData, b: WeatherData)
    requires forall f :: Get(a, f) == Get(b, f)
    ensures a.humidity == b.humidity
  {
    assert Get(a, HumidityCurrent) == Get(b, HumidityCurrent);
    assert Get(a, HumidityMin) == Get(b, HumidityMin);
    assert Get(a, HumidityMax) == Get(b, HumidityMax);
  }

  lemma SamePressure(a: WeatherData, b: WeatherData)
    requires forall f :: Get(a, f) == Get(b, f)
    ensures a.pressure.current == b.pressure.current && a.pressure.trend == b.pressure.trend && a.pressure.min == b.pressure.min && a.pressure.max == b.pressure.max
  {
    assert Get(a, PressureCurrent) == Get(b, PressureCurrent);
    assert Get(a, PressureTrend) == Get(b, PressureTrend);
    assert Get(a, PressureMin) == Get(b, PressureMin);
    assert Get(a, PressureMax) == Get(b, PressureMax);
  }

  lemma SameWind(a: WeatherData, b: WeatherData)
    requires forall f :: Get(a, f) == Get(b, f)
    ensures a.wind.speed == b.wind.speed && a.wind.gustMax == b.wind.gustMax
  {
    assert Get(a, WindSpeed) == Get(b, WindSpeed);
    assert Get(a, WindGustMax) == Get(b, WindGustMax);
  }

  lemma SameRain(a: WeatherData, b: WeatherData)
    requires forall f :: Get(a, f) == Get(b, f)
    ensures a.rain.today == b.rain.today && a.rain.month == b.rain.month && a.rain.year == b.rain.year && a.rain.rate == b.rain.rate && a.rain.rateMax == b.rain.rateMax
  {
    assert Get(a, RainToday) == Get(b, RainToday);
    assert Get(a, RainMonth) == Get(b, RainMonth);
    assert Get(a, RainYear) == Get(b, RainYear);
    assert Get(a, RainRate) == Get(b, RainRate);
    assert Get(a, RainRateMax) == Get(b, RainRateMax);
  }

  lemma SameIndices(a: WeatherData, b: WeatherData)
    requires forall f :: Get(a, f) == Get(b, f)
    ensures a.dewpoint == b.dewpoint && a.heatIndex == b.heatIndex && a.thswIndex == b.thswIndex
  {
    assert Get(a, DewPoint) == Get(b, DewPoint);
    assert Get(a, HeatIndex) == Get(b, HeatIndex);
    assert Get(a, ThswIndex) == Get(b, ThswIndex);
  }

  /** Two readings that agree on every field and on everything else are the same reading. */
  lemma Extensionality(a: WeatherData, b: WeatherData)
    requires SameUntracked(a, b)
    requires forall f :: Get(a, f) == Get(b, f)
    ensures a == b
  {
    SameTemperature(a, b);
    SameHumidity(a, b);
    SamePressure(a, b);
    SameWind(a, b);
    SameRain(a, b);
    SameIndices(a, b);
  }

  /**
   * `setattr` on one field path: the field takes `x` (truncated for humidity)
   * and nothing else in the reading changes.
   */
  function Set(w: WeatherData, f: Field, x: real): (r: WeatherData)
    ensures Get(r, f) == Stored(f, x)
    ensures forall g :: g != f ==> Get(r, g) == Get(w, g)
    ensures SameUntracked(r, w)
  {
    match f
    case TemperatureCurrent => w.(temperature := w.temperature.(current := x))
    case TemperatureMin => w.(temperature := w.temperature.(min := x))
    case TemperatureMax => w.(temperature := w.temperature.(max := x))
    case TemperatureAverage => w.(temperature := w.temperature.(average := x))
    case HumidityCurrent => w.(humidity := w.humidity.(current := Trunc(x)))
    case HumidityMin => w.(humidity := w.humidity.(min := Trunc(x)))
    case HumidityMax => w.(humidity := w.humidity.(max := Trunc(x)))
    case PressureCurrent => w.(pressure := w.pressure.(current := x))
    case PressureTrend => w.(pressure := w.pressure.(trend := x))
    case PressureMin => w.(pressure := w.pressure.(min := x))
    case PressureMax => w.(pressure := w.pressure.(max := x))
    case WindSpeed => w.(wind := w.wind.(speed := x))
    case WindGustMax => w.(wind := w.wind.(gustMax := x))
    case RainToday => w.(rain := w.rain.(today := x))
    case RainMonth => w.(rain := w.rain.(month := x))
    case RainYear => w.(rain := w.rain.(year := x))
    case RainRate => w.(rain := w.rain.(rate := x))
    case RainRateMax => w.(rain := w.rain.(rateMax := x))
    case DewPoint => w.(dewpoint := x)
    case HeatIndex => w.(heatIndex := x)
    case ThswIndex => w.(thswIndex := x)
  }

  /** A second write to the same field erases the first. */
  lemma SetOverwrites(w: WeatherData, f: Field, x: real, y: real)
    ensures Set(Set(w, f, x), f, y) == Set(w, f, y)
  {
    Extensionality(Set(Set(w, f, x), f, y), Set(w, f, y));
  }

  /** Writes to different fields do not interfere. */
  lemma SetCommutes(w: WeatherData, f: Field, x: real, g: Field, y: real)
    requires f != g
    ensures Set(Set(w, f, x), g, y) == Set(Set(w, g, y), f, x)
  {
    var l, r := Set(Set(w, f, x), g, y), Set(Set(w, g, y), f, x);
    forall h ensures Get(l, h) == Get(r, h) {
      if h == f {
        assert Get(l, h) == Stored(f, x) == Get(r, h);
      } else if h == g {
        assert Get(l, h) == Stored(g, y) == Get(r, h);
      }
    }
    Extensionality(l, r);
  }

  /**
   * A freshly constructed reading: no timestamp, every number zero, wind from
   * "N", no sunshine totals, and the station's fixed identity.
   */
  lemma NewWeatherDataDefaults()
    ensures NewWeatherData().timestamp.None?
    ensures forall f :: Get(NewWeatherData(), f) == 0.0
    ensures NewWeatherData().wind.direction == 0.0 && NewWeatherData().wind.average == 0.0
    ensures NewWeatherData().wind.directionText == "N"
    ensures NewWeatherData().rain.lastHour == 0.0 && NewWeatherData().rain.last24h == 0.0
    ensures NewWeatherData().solar == Solar(0.0, 0.0, 0.0, None, None, None)
    ensures NewWeatherData().stationInfo == StationInfo("La Rose des Vents", "Roquefort les Pins", 43.669, 7.086, 193.0)
  {
  }

  /** The five fields whose being non-zero shows that a page was actually read. */
  predicate IsKey(f: Field) {
    f == TemperatureCurrent || f == HumidityCurrent || f == PressureCurrent || f == WindSpeed || f == RainToday
  }

  /** `is_valid`: stamped, and at least one key field non-zero. */
  predicate IsValid(w: WeatherData) {
    w.timestamp.Some? &&
    (w.temperature.current != 0.0 || w.humidity.current != 0 || w.pressure.current != 0.0 ||
     w.wind.speed != 0.0 || w.rain.today != 0.0)
  }

  /** Without a timestamp a reading is never valid, whatever its values. */
  lemma UnstampedIsInvalid(w: WeatherData)
    requires w.timestamp.None?
    ensures !IsValid(w)
  {
  }

  /** A stamped reading is valid exactly when some key field is non-zero. */
  lemma ValidIffKeyFieldSet(w: WeatherData)
    requires w.timestamp.Some?
    ensures IsValid(w) <==> exists f :: IsKey(f) && Get(w, f) != 0.0
  {
    if IsValid(w) {
      if w.temperature.current != 0.0 {
        assert IsKey(TemperatureCurrent) && Get(w, TemperatureCurrent) != 0.0;
      } else if w.humidity.current != 0 {
        assert IsKey(HumidityCurrent) && Get(w, HumidityCurrent) != 0.0;
      } else if w.pressure.current != 0.0 {
        assert IsKey(PressureCurrent) && Get(w, PressureCurrent) != 0.0;
      } else if w.wind.speed != 0.0 {
        assert IsKey(WindSpeed) && Get(w, WindSpeed) != 0.0;
      } else {
        assert IsKey(RainToday) && Get(w, RainToday) != 0.0;
      }
    }
  }

  /** Writing a non-key field (a minimum, a trend, an index) never changes validity. */
  lemma NonKeyFieldKeepsValidity(w: WeatherData, f: Field, x: real)
    requires !IsKey(f)
    ensures IsValid(Set(w, f, x)) == IsValid(w)
  {
    var r := Set(w, f, x);
    assert Get(r, TemperatureCurrent) == Get(w, TemperatureCurrent);
    assert Get(r, HumidityCurrent) == Get(w, HumidityCurrent);
    assert Get(r, PressureCurrent) == Get(w, PressureCurrent);
    assert Get(r, WindSpeed) == Get(w, WindSpeed);
    assert Get(r, RainToday) == Get(w, RainToday);
  }

  /** A reading whose five key fields are all zero is invalid, whatever its minima, maxima, trend, solar data or indices hold. */
  lemma KeyFieldsZeroIsInvalid(w: WeatherData)
    requires forall f :: IsKey(f) ==> Get(w, f) == 0.0
    ensures !IsValid(w)
  {
    assert Get(w, TemperatureCurrent) == 0.0 && Get(w, HumidityCurrent) == 0.0;
    assert Get(w, PressureCurrent) == 0.0 && Get(w, WindSpeed) == 0.0 && Get(w, RainToday) == 0.0;
  }

  /** A stamped reading with only today's rain at 0.1 mm is valid. */
  lemma RainAloneIsValid(t: int)
    ensures IsValid(Set(NewWeatherData().(timestamp := Some(t)), RainToday, 0.1))
  {
  }
}
