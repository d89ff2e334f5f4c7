/** `search_weather`: the POST /search handler, with the search log as a value. */
module Search {
  import opened Wrappers
  import opened Provider
  import Hex
  import opened Weather

  /** One row of `search_history`; the store's id and timestamp are not modelled. */
  datatype Row = Row(city: string, userId: string)

  datatype Cookie = Cookie(key: string, value: string, maxAge: nat)

  const LastCityKey: string := "last_city"
  const UserIdKey: string := "user_id"
  /** 30 days, in seconds. */
  const LastCityMaxAge: nat := 2592000
  /** 365 days, in seconds. */
  const UserIdMaxAge: nat := 31536000
  const NotFoundMessage: string := "Город не найден"

  /** The plain-text body of the framework's answer to an exception the handler does not catch. */
  const ServerErrorText: string := "Internal Server Error"

  datatype Body = ErrorBody(error: string) | WeatherBody(weather: WeatherResult) | TextBody(text: string)

  datatype Response = Response(status: nat, body: Body, cookies: seq<Cookie>)

  /** What one search produced: the response, the upstream requests, and the log afterwards. */
  datatype Outcome = Outcome(response: Response, calls: seq<Call>, log: seq<Row>)

  /** A cookie value Python treats as present: `if not user_id` is false. */
  predicate Usable(cookie: Option<string>) {
    cookie.Some? && cookie.value != ""
  }

  /**
   * A cookie value `set_cookie` can write. `http.cookies` escapes every code
   * point below 256 and passes the others through, and Starlette then encodes
   * the `Set-Cookie` header as Latin-1, which fails on any code point of 256
   * or more.
   */
  predicate Latin1(s: string) {
    forall i :: 0 <= i < |s| ==> s[i] as int < 256
  }

  /**
   * The visitor id for this request: the `user_id` cookie when it is usable,
   * otherwise a fresh token made from `entropy`, the 16 bytes of `os.urandom(16)`.
   */
  function VisitorId(cookie: Option<string>, entropy: seq<Hex.byte>): (id: string)
    requires |entropy| == 16
    ensures id != ""
    ensures Usable(cookie) ==> id == cookie.value
    ensures !Usable(cookie) ==> Hex.IsToken(id) && Hex.Decode(id) == entropy && Latin1(id)
  {
    if Usable(cookie) then cookie.value
    else
      Hex.DecodeEncode(entropy);
      var t := Hex.Encode(entropy);
      assert forall i :: 0 <= i < |t| ==> Hex.IsHexDigit(t[i]);
      t
  }

  /**
   * The handler. `city` is the raw form value, which the framework has
   * already refused with a 422 when it is missing or empty; `cookie` is the
   * incoming `user_id` cookie, `log` the rows stored before this request.
   * The row is committed before the cookies are written, so a city or id
   * that `set_cookie` cannot write still leaves its row behind, and the
   * exception becomes a plain-text 500 with no cookies.
   */
  function SearchWeather(city: string, cookie: Option<string>, entropy: seq<Hex.byte>, up: Upstream, log: seq<Row>): (o: Outcome)
    requires city != ""
    requires |entropy| == 16
    ensures o.response.status in {200, 404, 500}
    ensures o.response.status == 404 <==> !HasResults(up.geocode(city, SearchGeocodeCount))
    ensures o.response.status == 500 <==>
      HasResults(up.geocode(city, SearchGeocodeCount)) && !(Latin1(city) && Latin1(VisitorId(cookie, entropy)))
    ensures o.calls == GetWeatherData(city, up).calls
    ensures o.response.status == 404 ==>
      && o.response.body == ErrorBody(NotFoundMessage)
      && o.response.cookies == []
      && o.log == log
    ensures o.response.status != 404 ==>
      && |o.log| == |log| + 1
      && o.log[..|log|] == log
      && o.log[|log|] == Row(city, VisitorId(cookie, entropy))
      && o.log[|log|].city != "" && o.log[|log|].userId != ""
    ensures o.response.status == 200 ==>
      var id := VisitorId(cookie, entropy);
      && o.response.body == WeatherBody(GetWeatherData(city, up).result.value)
      && o.response.cookies == [Cookie(LastCityKey, city, LastCityMaxAge), Cookie(UserIdKey, id, UserIdMaxAge)]
    ensures o.response.status == 500 ==>
      o.response.body == TextBody(ServerErrorText) && o.response.cookies == []
  {
    var id := VisitorId(cookie, entropy);
    var lookup := GetWeatherData(city, up);
    match lookup.result
    case None =>
      Outcome(Response(404, ErrorBody(NotFoundMessage), []), lookup.calls, log)
    case Some(w) =>
      var log' := log + [Row(city, id)];
      assert log'[..|log|] == log;
      if Latin1(city) && Latin1(id) then
        var cookies := [Cookie(LastCityKey, city, LastCityMaxAge), Cookie(UserIdKey, id, UserIdMaxAge)];
        Outcome(Response(200, WeatherBody(w), cookies), lookup.calls, log')
      else
        Outcome(Response(500, TextBody(ServerErrorText), []), lookup.calls, log')
  }

  /** Two first visits with different random bytes get different visitor ids. */
  lemma FreshIdsDiffer(e1: seq<Hex.byte>, e2: seq<Hex.byte>)
    requires |e1| == 16 && |e2| == 16 && e1 != e2
    ensures VisitorId(None, e1) != VisitorId(None, e2)
  {
    if Hex.Encode(e1) == Hex.Encode(e2) {
      Hex.EncodeInjective(e1, e2);
    }
  }

  /**
   * A resolving city that `set_cookie` cannot write: the row is stored all
   * the same, and the answer is a 500 without cookies.
   */
  lemma UnwritableCityKeepsRow(city: string, cookie: Option<string>, entropy: seq<Hex.byte>, up: Upstream, log: seq<Row>)
    requires city != "" && |entropy| == 16
    requires HasResults(up.geocode(city, SearchGeocodeCount)) && !Latin1(city)
    ensures var o := SearchWeather(city, cookie, entropy, up, log);
      o.response == Response(500, TextBody(ServerErrorText), [])
      && o.log == log + [Row(city, VisitorId(cookie, entropy))]
  {
  }
}
