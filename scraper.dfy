/**
 * `WeatherScraper`: fetches the two station pages, parses the
 * current-conditions page and lets the data page enrich its reading, and
 * keeps the last valid reading in a cache with a time-to-live.
 *
 * The network, the HTML library and the clocks are parameters: an `Upstream`
 * says what fetching a URL yields and what the parsers' library calls find in
 * a page's HTML, `now` is the wall-clock time in seconds for the whole call,
 * and `started`/`finished` are the two readings of the elapsed-time clock.
 */
module Scraper {
  import opened Wrappers
  import opened Text
  import opened Models
  import opened HtmlParser

  const DefaultBaseUrl: string := "https://www.meteo-roquefort-les-pins.com"
  const DefaultTimeout: int := 10
  const DefaultCacheTtl: int := 60
  const CurrantPath: string := "meteo/currant.html"
  const ValeursPath: string := "meteo/vantage/valeurs.htm"

  /** `s.rstrip('/')`. */
  function StripTrailingSlashes(s: string): string {
    if s != [] && s[|s| - 1] == '/' then StripTrailingSlashes(s[..|s| - 1]) else s
  }

  /** `s.lstrip('/')`. */
  function StripLeadingSlashes(s: string): string {
    if s != [] && s[0] == '/' then StripLeadingSlashes(s[1..]) else s
  }

  /** `rstrip('/')` leaves a prefix that ends in no slash, and drops only slashes. */
  lemma {:induction false} StripTrailingSlashesDrops(s: string)
    ensures var r := StripTrailingSlashes(s);
            |r| <= |s| && r == s[..|r|] && (r == [] || r[|r| - 1] != '/') &&
            forall k :: |r| <= k < |s| ==> s[k] == '/'
  {
    if s != [] && s[|s| - 1] == '/' {
      StripTrailingSlashesDrops(s[..|s| - 1]);
    }
  }

  /** `lstrip('/')` leaves a suffix that starts with no slash, and drops only slashes. */
  lemma {:induction false} StripLeadingSlashesDrops(s: string)
    ensures var r := StripLeadingSlashes(s);
            |r| <= |s| && r == s[|s| - |r|..] && (r == [] || r[0] != '/') &&
            forall k :: 0 <= k < |s| - |r| ==> s[k] == '/'
  {
    if s != [] && s[0] == '/' {
      StripLeadingSlashesDrops(s[1..]);
      assert forall k :: 1 <= k < |s| ==> s[k] == s[1..][k - 1];
    }
  }

  /** The URL `_fetch_page` requests: the base without trailing slashes, one slash, the path without leading slashes. */
  function JoinUrl(base: string, path: string): string {
    StripTrailingSlashes(base) + "/" + StripLeadingSlashes(path)
  }

  /** Exactly one slash sits at the join: neither the base part nor the path part has one at its edge. */
  lemma JoinUrlOneSlash(base: string, path: string)
    ensures var b, p := StripTrailingSlashes(base), StripLeadingSlashes(path);
            JoinUrl(base, path) == b + "/" + p &&
            (b == [] || b[|b| - 1] != '/') && (p == [] || p[0] != '/')
  {
    StripTrailingSlashesDrops(base);
    StripLeadingSlashesDrops(path);
  }

  lemma TrailingSlashDropped(base: string)
    ensures StripTrailingSlashes(base + "/") == StripTrailingSlashes(base)
  {
    assert (base + "/")[..|base|] == base;
  }

  lemma LeadingSlashDropped(path: string)
    ensures StripLeadingSlashes("/" + path) == StripLeadingSlashes(path)
  {
    assert ("/" + path)[1..] == path;
  }

  /** Extra slashes on either side of the join do not change the URL. */
  lemma JoinUrlIgnoresSlashes(base: string, path: string)
    ensures JoinUrl(base + "/", path) == JoinUrl(base, path)
    ensures JoinUrl(base, "/" + path) == JoinUrl(base, path)
  {
    TrailingSlashDropped(base);
    LeadingSlashDropped(path);
  }

  lemma DefaultBaseUnslashed()
    ensures StripTrailingSlashes(DefaultBaseUrl) == DefaultBaseUrl
  {
  }

  lemma PathsUnslashed()
    ensures StripLeadingSlashes(CurrantPath) == CurrantPath
    ensures StripLeadingSlashes(ValeursPath) == ValeursPath
  {
  }

  /** For the default base, both page URLs are the base, one slash and the path, as written. */
  lemma DefaultUrls()
    ensures JoinUrl(DefaultBaseUrl, CurrantPath) == DefaultBaseUrl + "/" + CurrantPath
    ensures JoinUrl(DefaultBaseUrl, ValeursPath) == DefaultBaseUrl + "/" + ValeursPath
  {
    DefaultBaseUnslashed();
    PathsUnslashed();
  }

  /**
   * What fetching a URL gives: the response text, `Failed` for a request
   * error (logged, `None` returned), or `Raised` for any other exception,
   * which the scrape's catch-all handler receives.
   */
  datatype Fetch = Page(html: string) | Failed | Raised

  /** The world outside the scraper: the network, and what the HTML library finds in each page. */
  datatype Upstream = Upstream(
    fetch: string -> Fetch,
    currantView: string -> CurrantPage,
    valeursView: string -> ValeursPage)

  /** The scraper's mutable state, as a value. */
  datatype CacheState = CacheState(
    cachedData: Option<WeatherData>,
    cacheTimestamp: Option<int>,
    lastScrapeDuration: real,
    lastScrapeSuccess: bool)

  /** The cache holds a reading exactly when it holds a timestamp, and only a valid reading. */
  predicate CacheInvariant(s: CacheState) {
    (s.cachedData.Some? <==> s.cacheTimestamp.Some?) &&
    (s.cachedData.Some? ==> IsValid(s.cachedData.value))
  }

  /** `_is_cache_valid`: a reading and a timestamp younger than the time-to-live (strictly). */
  predicate IsFresh(s: CacheState, ttl: int, now: int) {
    s.cachedData.Some? && s.cacheTimestamp.Some? && now - s.cacheTimestamp.value < ttl
  }

  /** A fetched page's text, `None` when the fetch failed. */
  function PageText(f: Fetch): Option<string> {
    if f.Page? then Some(f.html) else None
  }

  /**
   * Parse and merge: the current-conditions page first, then the data page
   * enriching that reading (or a fresh one). A page that is missing or empty
   * is not parsed.
   */
  function Merge(currant: Option<string>, valeurs: Option<string>, up: Upstream, now: int): (m: Option<WeatherData>)
    ensures m.None? <==> (currant.None? || currant.value == "") && (valeurs.None? || valeurs.value == "")
  {
    var a := if currant.Some? && currant.value != "" then Some(CurrantReading(up.currantView(currant.value), now)) else None;
    if valeurs.Some? && valeurs.value != "" then Some(ValeursReading(up.valeursView(valeurs.value), a, now)) else a
  }

  /**
   * What the outside world gives one refreshing call: the two URLs, what
   * fetching each gave, and the reading that parsing and merging the fetched
   * pages yields (used only when the call gets that far).
   */
  datatype Round = Round(urlA: string, a: Fetch, urlB: string, b: Fetch, merged: Option<WeatherData>)

  /** The round a scraper with base URL `base` sees at time `now`. */
  function RoundFor(base: string, up: Upstream, now: int): Round {
    var urlA, urlB := JoinUrl(base, CurrantPath), JoinUrl(base, ValeursPath);
    var a, b := up.fetch(urlA), up.fetch(urlB);
    Round(urlA, a, urlB, b, Merge(PageText(a), PageText(b), up, now))
  }

  /** One call's result, the state it leaves, and the URLs it fetched in order. */
  datatype Outcome = Outcome(state: CacheState, result: Option<WeatherData>, fetched: seq<string>)

  /** A call that does not refresh: success false, the old cache returned. */
  function Fallback(s: CacheState, duration: real, fetched: seq<string>): Outcome {
    Outcome(s.(lastScrapeSuccess := false, lastScrapeDuration := duration), s.cachedData, fetched)
  }

  /** `scrape(force)` on state `s`, with time-to-live `ttl`, at time `now`, seeing round `r`, taking `duration` seconds. */
  function ScrapeStep(s: CacheState, ttl: int, force: bool, now: int, r: Round, duration: real): Outcome {
    if !force && IsFresh(s, ttl, now) then Outcome(s, s.cachedData, [])
    else RefreshStep(s, now, r, duration)
  }

  /** The part of `scrape` inside its `try`: fetch both pages, parse, and keep the reading if it is valid. */
  function RefreshStep(s: CacheState, now: int, r: Round, duration: real): Outcome {
    if r.a.Raised? then Fallback(s, duration, [r.urlA])
    else if r.b.Raised? || (r.a.Failed? && r.b.Failed?) then Fallback(s, duration, [r.urlA, r.urlB])
    else if r.merged.Some? && IsValid(r.merged.value) then
      Outcome(CacheState(r.merged, Some(now), duration, true), r.merged, [r.urlA, r.urlB])
    else Fallback(s, duration, [r.urlA, r.urlB])
  }

  /** The age of the cached reading: infinite without a timestamp. */
  datatype Age = Infinite | Seconds(seconds: int)

  class WeatherScraper {
    const baseUrl: string
    const timeout: int
    const cacheTtl: int
    var cachedData: Option<WeatherData>
    var cacheTimestamp: Option<int>
    var lastScrapeDuration: real
    var lastScrapeSuccess: bool
    /** The URLs requested so far, in order. */
    ghost var requests: seq<string>

    ghost predicate Valid()
      reads this
    {
      CacheInvariant(State())
    }

    function State(): CacheState
      reads this
    {
      CacheState(cachedData, cacheTimestamp, lastScrapeDuration, lastScrapeSuccess)
    }

    /** `WeatherScraper(base_url, timeout, cache_ttl)`: trailing slashes dropped from the base, an empty cache. */
    constructor(base: string, timeout: int, cacheTtl: int)
      ensures baseUrl == StripTrailingSlashes(base) && this.timeout == timeout && this.cacheTtl == cacheTtl
      ensures State() == CacheState(None, None, 0.0, false) && requests == []
      ensures Valid()
    {
      baseUrl := StripTrailingSlashes(base);
      this.timeout := timeout;
      this.cacheTtl := cacheTtl;
      cachedData := None;
      cacheTimestamp := None;
      lastScrapeDuration := 0.0;
      lastScrapeSuccess := false;
      requests := [];
    }

    /** `WeatherScraper()` with its default arguments. */
    constructor Default()
      ensures baseUrl == DefaultBaseUrl && timeout == DefaultTimeout && cacheTtl == DefaultCacheTtl
      ensures State() == CacheState(None, None, 0.0, false) && requests == []
      ensures Valid()
    {
      DefaultBaseUnslashed();
      baseUrl := DefaultBaseUrl;
      timeout := DefaultTimeout;
      cacheTtl := DefaultCacheTtl;
      cachedData := None;
      cacheTimestamp := None;
      lastScrapeDuration := 0.0;
      lastScrapeSuccess := false;
      requests := [];
    }

    /** `_is_cache_valid()` at time `now`. */
    predicate IsCacheValid(now: int)
      reads this
    {
      IsFresh(State(), cacheTtl, now)
    }

    /** `cache_age_seconds` at time `now`; the cache is fresh exactly when it holds a reading younger than the time-to-live. */
    function CacheAgeSeconds(now: int): (age: Age)
      reads this
      ensures age.Infinite? <==> cacheTimestamp.None?
      ensures age.Seconds? ==> age.seconds + cacheTimestamp.value == now
      ensures IsCacheValid(now) <==> cachedData.Some? && age.Seconds? && age.seconds < cacheTtl
    {
      if cacheTimestamp.None? then Infinite else Seconds(now - cacheTimestamp.value)
    }

    /** `_fetch_page(path)`: one request to the base URL joined with `path`. */
    method FetchPage(path: string, up: Upstream) returns (page: Fetch)
      modifies this`requests
      ensures page == up.fetch(JoinUrl(baseUrl, path))
      ensures requests == old(requests) + [JoinUrl(baseUrl, path)]
    {
      var url := JoinUrl(baseUrl, path);
      requests := requests + [url];
      page := up.fetch(url);
    }

    /** `scrape(force)`. */
    method Scrape(force: bool, up: Upstream, now: int, started: real, finished: real) returns (weatherData: Option<WeatherData>)
      requires Valid()
      modifies this
      ensures Valid()
      ensures var o := ScrapeStep(old(State()), cacheTtl, force, now, RoundFor(baseUrl, up, now), finished - started);
              State() == o.state && weatherData == o.result && requests == old(requests) + o.fetched
    {
      if !force && IsCacheValid(now) {
        return cachedData;
      }
      weatherData := Refresh(up, now, finished - started);
    }

    /** The body of `scrape`'s `try` and the bookkeeping after it. */
    method Refresh(up: Upstream, now: int, duration: real) returns (weatherData: Option<WeatherData>)
      requires Valid()
      modifies this
      ensures Valid()
      ensures var o := RefreshStep(old(State()), now, RoundFor(baseUrl, up, now), duration);
              State() == o.state && weatherData == o.result && requests == old(requests) + o.fetched
    {
      var currantHtml := FetchPage(CurrantPath, up);
      if currantHtml.Raised? {
        lastScrapeSuccess := false;
        weatherData := cachedData;
      } else {
        var valeursHtml := FetchPage(ValeursPath, up);
        if valeursHtml.Raised? || (currantHtml.Failed? && valeursHtml.Failed?) {
          lastScrapeSuccess := false;
          weatherData := cachedData;
        } else {
          weatherData := ParsePages(currantHtml, valeursHtml, up, now);
          assert RoundFor(baseUrl, up, now).merged == weatherData;
          if weatherData.Some? && IsValid(weatherData.value) {
            cachedData := weatherData;
            cacheTimestamp := Some(now);
            lastScrapeSuccess := true;
          } else {
            lastScrapeSuccess := false;
            weatherData := cachedData;
          }
        }
      }
      lastScrapeDuration := duration;
    }
  }

  /** The parse-and-merge part of `scrape`: each non-empty fetched page is parsed, the data page on top of the current-conditions reading. */
  method ParsePages(currantHtml: Fetch, valeursHtml: Fetch, up: Upstream, now: int) returns (weatherData: Option<WeatherData>)
    ensures weatherData == Merge(PageText(currantHtml), PageText(valeursHtml), up, now)
  {
    weatherData := None;
    if currantHtml.Page? && currantHtml.html != "" {
      var w := ParseCurrant(up.currantView(currantHtml.html), now);
      weatherData := Some(w);
    }
    if valeursHtml.Page? && valeursHtml.html != "" {
      var w := ParseValeurs(up.valeursView(valeursHtml.html), weatherData, now);
      weatherData := Some(w);
    }
  }

  // ---------------------------------------------------------------------
  // What one call does
  // ---------------------------------------------------------------------

  /** A call that is not forced, on a fresh cache, returns the cached reading, fetches nothing and changes nothing. */
  lemma FastPathChangesNothing(s: CacheState, ttl: int, now: int, r: Round, duration: real)
    requires IsFresh(s, ttl, now)
    ensures ScrapeStep(s, ttl, false, now, r, duration) == Outcome(s, s.cachedData, [])
  {
  }

  /**
   * Every other call fetches the current-conditions page first and then, unless
   * that raised, the data page; and it records its duration.
   */
  lemma SlowPathFetchesAndTimes(s: CacheState, ttl: int, force: bool, now: int, r: Round, duration: real)
    requires force || !IsFresh(s, ttl, now)
    ensures var o := ScrapeStep(s, ttl, force, now, r, duration);
            o.state.lastScrapeDuration == duration &&
            o.fetched == if r.a.Raised? then [r.urlA] else [r.urlA, r.urlB]
  {
  }

  /** When both fetches fail: no success, the cache and its timestamp unchanged, the previous cache (maybe none) returned. */
  lemma BothFetchesFailed(s: CacheState, ttl: int, force: bool, now: int, r: Round, duration: real)
    requires force || !IsFresh(s, ttl, now)
    requires r.a.Failed? && r.b.Failed?
    ensures var o := ScrapeStep(s, ttl, force, now, r, duration);
            !o.state.lastScrapeSuccess && o.state.cachedData == s.cachedData &&
            o.state.cacheTimestamp == s.cacheTimestamp && o.result == s.cachedData
  {
  }

  /**
   * A refresh succeeds exactly when no exception was raised, some page was
   * fetched, and the merged reading exists and is valid; the reading is then
   * cached with timestamp `now` and returned. Otherwise the cache is kept and
   * returned.
   */
  lemma RefreshOutcome(s: CacheState, ttl: int, force: bool, now: int, r: Round, duration: real)
    requires force || !IsFresh(s, ttl, now)
    ensures var o := ScrapeStep(s, ttl, force, now, r, duration);
            (o.state.lastScrapeSuccess <==>
               !r.a.Raised? && !r.b.Raised? && !(r.a.Failed? && r.b.Failed?) && r.merged.Some? && IsValid(r.merged.value)) &&
            (o.state.lastScrapeSuccess ==>
               o.state.cachedData == r.merged && o.state.cacheTimestamp == Some(now) && o.result == r.merged) &&
            (!o.state.lastScrapeSuccess ==>
               o.state.cachedData == s.cachedData && o.state.cacheTimestamp == s.cacheTimestamp && o.result == s.cachedData)
  {
  }

  /** When both fetches fail, nothing is parsed: the merged reading is absent. */
  lemma NothingFetchedNothingMerged(base: string, up: Upstream, now: int)
    requires up.fetch(JoinUrl(base, CurrantPath)).Failed? && up.fetch(JoinUrl(base, ValeursPath)).Failed?
    ensures RoundFor(base, up, now).merged.None?
  {
    var r := RoundFor(base, up, now);
    assert PageText(r.a) == None && PageText(r.b) == None;
  }

  /** Every call keeps the cache invariant. */
  lemma ScrapeKeepsInvariant(s: CacheState, ttl: int, force: bool, now: int, r: Round, duration: real)
    requires CacheInvariant(s)
    ensures CacheInvariant(ScrapeStep(s, ttl, force, now, r, duration).state)
  {
  }

  /** On a state that keeps the invariant, a call returns either nothing or a valid reading. */
  lemma ScrapeReturnsValid(s: CacheState, ttl: int, force: bool, now: int, r: Round, duration: real)
    requires CacheInvariant(s)
    ensures var o := ScrapeStep(s, ttl, force, now, r, duration);
            o.result.Some? ==> IsValid(o.result.value)
  {
  }

  // ---------------------------------------------------------------------
  // The merge of the two pages
  // ---------------------------------------------------------------------

  /** An empty page counts as fetched but is not parsed: it merges like a missing one. */
  lemma EmptyPageIsNotParsed(currant: Option<string>, valeurs: Option<string>, up: Upstream, now: int)
    ensures Merge(Some(""), valeurs, up, now) == Merge(None, valeurs, up, now)
    ensures Merge(currant, Some(""), up, now) == Merge(currant, None, up, now)
  {
  }

  /** With only the data page, the data page alone creates the reading. */
  lemma DataPageAlone(valeurs: string, up: Upstream, now: int)
    requires valeurs != ""
    ensures Merge(None, Some(valeurs), up, now) == Some(ValeursReading(up.valeursView(valeurs), None, now))
  {
  }

  /**
   * With both pages, the data page enriches the current-conditions reading:
   * a field the data page sets, by a page-wide hit or a row, carries the data
   * page's value, and every other field keeps the current-conditions value.
   * The timestamp and the solar data are the current-conditions page's.
   */
  lemma DataPageOverwrites(currant: string, valeurs: string, up: Upstream, now: int, f: Field)
    requires currant != "" && valeurs != ""
    ensures var a := CurrantReading(up.currantView(currant), now);
            var page := up.valeursView(valeurs);
            var m := Merge(Some(currant), Some(valeurs), up, now);
            m.Some? &&
            Get(m.value, f) == (if HitFor(page.hits, f).Some? then Stored(f, HitFor(page.hits, f).value)
                                else Get(ApplyRows(a, page.rows), f)) &&
            m.value.timestamp == Some(now) && m.value.solar == a.solar
  {
    var a := CurrantReading(up.currantView(currant), now);
    var page := up.valeursView(valeurs);
    ValeursFields(page, Some(a), now, f);
    CurrantStamped(up.currantView(currant), now);
    ValeursKeepsTimestamp(page, Some(a), now);
  }

  /**
   * Without the current-conditions page the merged reading has none of the
   * three sunshine totals: only that page's solar table creates them.
   */
  lemma NoSunshineWithoutCurrant(currant: Option<string>, valeurs: Option<string>, up: Upstream, now: int)
    requires currant.None? || currant.value == ""
    ensures var m := Merge(currant, valeurs, up, now);
            m.Some? ==> m.value.solar.sunshineTodayMinutes.None? && m.value.solar.sunshineMonthMinutes.None? &&
                        m.value.solar.sunshineYearMinutes.None?
  {
    if valeurs.Some? && valeurs.value != "" {
      ValeursKeepsTimestamp(up.valeursView(valeurs.value), None, now);
    }
  }

  // ---------------------------------------------------------------------
  // Successive calls
  // ---------------------------------------------------------------------

  /**
   * After a successful refresh at `now`, a call that is not forced within the
   * time-to-live fetches nothing and returns the same reading.
   */
  lemma SecondCallWithinTtlFetchesNothing(s: CacheState, ttl: int, force: bool, now: int, r: Round, d1: real,
                                          later: int, r2: Round, d2: real)
    requires ScrapeStep(s, ttl, force, now, r, d1).state.lastScrapeSuccess
    requires force || !IsFresh(s, ttl, now)
    requires now <= later < now + ttl
    ensures var o1 := ScrapeStep(s, ttl, force, now, r, d1);
            var o2 := ScrapeStep(o1.state, ttl, false, later, r2, d2);
            o2.fetched == [] && o2.result == o1.result && o2.state == o1.state
  {
    RefreshOutcome(s, ttl, force, now, r, d1);
  }

  /**
   * After a successful refresh, a later call whose fetches both fail still
   * returns that reading, now stale, and reports failure.
   */
  lemma StaleReadingServedAfterFailure(s: CacheState, ttl: int, force: bool, now: int, r: Round, d1: real,
                                       later: int, r2: Round, d2: real)
    requires ScrapeStep(s, ttl, force, now, r, d1).state.lastScrapeSuccess
    requires force || !IsFresh(s, ttl, now)
    requires r2.a.Failed? && r2.b.Failed?
    ensures var o1 := ScrapeStep(s, ttl, force, now, r, d1);
            var o2 := ScrapeStep(o1.state, ttl, true, later, r2, d2);
            o2.result == o1.result && !o2.state.lastScrapeSuccess && o2.state.cacheTimestamp == Some(now)
  {
    RefreshOutcome(s, ttl, force, now, r, d1);
  }

  /**
   * Two calls within the time-to-live on a scraper with an empty cache: if
   * the first returns a reading, the second returns the same one and only the
   * first call's two pages were requested.
   */
  method TwoCallsWithinTtl(scraper: WeatherScraper, up: Upstream, now: int, later: int, clock: real)
      returns (first: Option<WeatherData>, second: Option<WeatherData>)
    requires scraper.Valid() && scraper.cachedData.None?
    requires now <= later < now + scraper.cacheTtl
    modifies scraper
    ensures first.Some? ==> second == first
    ensures first.Some? ==>
              scraper.requests == old(scraper.requests) + [JoinUrl(scraper.baseUrl, CurrantPath), JoinUrl(scraper.baseUrl, ValeursPath)]
  {
    ghost var before := scraper.State();
    ghost var r := RoundFor(scraper.baseUrl, up, now);
    first := scraper.Scrape(false, up, now, clock, clock);
    RefreshOutcome(before, scraper.cacheTtl, false, now, r, 0.0);
    SlowPathFetchesAndTimes(before, scraper.cacheTtl, false, now, r, 0.0);
    second := scraper.Scrape(false, up, later, clock, clock);
  }
}
