/** `get_weather_data`: geocode the city, fetch its forecast, reshape the two replies. */
module Weather {
  import opened Wrappers
  import opened Provider

  /** Hourly entries kept from each forecast series. */
  const HourlyLimit: nat := 24
  /** Geocoder `count` the search asks for: only the best match. */
  const SearchGeocodeCount: nat := 1

  datatype Hourly = Hourly(time: seq<string>, temperature: seq<Num>, weatherCode: seq<int>)

  /** The JSON the search returns on success. */
  datatype WeatherResult = WeatherResult(city: string, country: string, current: Current, hourly: Hourly)

  function Min(a: int, b: int): int {
    if a <= b then a else b
  }

  /** `r` is the first `n` entries of `s`, or all of `s` when it is shorter: Python's `s[:n]`. */
  predicate IsCut<T(==)>(r: seq<T>, s: seq<T>, n: nat) {
    && |r| == Min(n, |s|)
    && forall i :: 0 <= i < |r| ==> r[i] == s[i]
  }

  function Take<T(==)>(s: seq<T>, n: nat): (r: seq<T>)
    ensures IsCut(r, s, n)
  {
    if |s| <= n then s else s[..n]
  }

  /**
   * The response shape built from the chosen hit and its forecast. Each hourly
   * series is cut on its own: the series are never padded or aligned.
   */
  function Reshape(hit: GeoHit, fc: ForecastPayload): (w: WeatherResult)
    ensures w.city == hit.name
    ensures hit.country.Some? ==> w.country == hit.country.value
    ensures hit.country.None? ==> w.country == ""
    ensures w.current == fc.current
    ensures IsCut(w.hourly.time, fc.hourly.time, HourlyLimit)
    ensures IsCut(w.hourly.temperature, fc.hourly.temperature2m, HourlyLimit)
    ensures IsCut(w.hourly.weatherCode, fc.hourly.weatherCode, HourlyLimit)
  {
    var h := fc.hourly;
    WeatherResult(hit.name, CountryOrEmpty(hit), fc.current,
      Hourly(Take(h.time, HourlyLimit), Take(h.temperature2m, HourlyLimit), Take(h.weatherCode, HourlyLimit)))
  }

  /** The requests a lookup made, and its result (`None` for "no such place"). */
  datatype Lookup = Lookup(calls: seq<Call>, result: Option<WeatherResult>)

  function GetWeatherData(city: string, up: Upstream): (l: Lookup)
    ensures l.result.None? <==> !HasResults(up.geocode(city, SearchGeocodeCount))
    ensures |l.calls| >= 1 && l.calls[0] == GeocodeCall(city, SearchGeocodeCount)
    ensures l.result.None? ==> |l.calls| == 1
    ensures l.result.Some? ==>
      var hit := Hits(up.geocode(city, SearchGeocodeCount))[0];
      && l.calls == [GeocodeCall(city, SearchGeocodeCount), ForecastCall(hit.latitude, hit.longitude)]
      && l.result.value == Reshape(hit, up.forecast(hit.latitude, hit.longitude))
  {
    var geo := up.geocode(city, SearchGeocodeCount);
    if !HasResults(geo) then
      Lookup([GeocodeCall(city, SearchGeocodeCount)], None)
    else
      var hit := geo.results.value[0];
      var fc := up.forecast(hit.latitude, hit.longitude);
      Lookup([GeocodeCall(city, SearchGeocodeCount), ForecastCall(hit.latitude, hit.longitude)], Some(Reshape(hit, fc)))
  }

  /**
   * A series with a full day or more of forecast comes back as exactly its
   * first 24 entries, whatever the lengths of the other two series.
   */
  lemma FullDayCut(hit: GeoHit, fc: ForecastPayload)
    ensures var w := Reshape(hit, fc);
      && (|fc.hourly.time| >= HourlyLimit ==> w.hourly.time == fc.hourly.time[..HourlyLimit])
      && (|fc.hourly.temperature2m| >= HourlyLimit ==> w.hourly.temperature == fc.hourly.temperature2m[..HourlyLimit])
      && (|fc.hourly.weatherCode| >= HourlyLimit ==> w.hourly.weatherCode == fc.hourly.weatherCode[..HourlyLimit])
  {
  }
}
