/**
 * The two upstream JSON services (Open-Meteo geocoding and forecast), as the
 * service sees them: payload datatypes, and the two lookups as plain
 * functions of their query parameters.
 */
module Provider {
  import opened Wrappers

  /** A JSON number from a payload, kept as its literal text: the service never computes with it. */
  datatype Num = Num(literal: string)

  /** One entry of the geocoder's `results` array; `country` may be missing. */
  datatype GeoHit = GeoHit(name: string, country: Option<string>, latitude: Num, longitude: Num)

  /** A geocoder reply; `results` is `None` when the key is missing from the JSON object. */
  datatype GeoPayload = GeoPayload(results: Option<seq<GeoHit>>)

  /** Python's `data.get("results")` is truthy: the key is there and the list is non-empty. */
  predicate HasResults(g: GeoPayload): (b: bool)
    ensures b <==> Hits(g) != []
  {
    g.results.Some? && |g.results.value| > 0
  }

  /** The hits of a reply, none when the key is missing. */
  function Hits(g: GeoPayload): seq<GeoHit> {
    ValueOr(g.results, [])
  }

  /** `hit.get("country", "")`. */
  function CountryOrEmpty(hit: GeoHit): (c: string)
    ensures hit.country.Some? ==> c == hit.country.value
    ensures hit.country.None? ==> c == ""
  {
    ValueOr(hit.country, "")
  }

  /**
   * The forecast's `current` object, which the service passes through
   * untouched. The record keeps only the four fields the page reads; the
   * provider's `time` and `interval` keys travel along in the source but are
   * not modelled.
   */
  datatype Current = Current(temperature2m: Num, relativeHumidity2m: Num, windSpeed10m: Num, weatherCode: int)

  /** The forecast's `hourly` object: three series the provider keeps parallel. */
  datatype HourlyPayload = HourlyPayload(time: seq<string>, temperature2m: seq<Num>, weatherCode: seq<int>)

  datatype ForecastPayload = ForecastPayload(current: Current, hourly: HourlyPayload)

  /** One request made to an upstream service, with the parameters that vary between requests. */
  datatype Call =
    | GeocodeCall(name: string, count: nat)
    | ForecastCall(latitude: Num, longitude: Num)

  /**
   * What the providers answer: the geocoder by name and result count, the
   * forecast service by coordinates.
   */
  datatype Upstream = Upstream(
    geocode: (string, nat) -> GeoPayload,
    forecast: (Num, Num) -> ForecastPayload)
}
