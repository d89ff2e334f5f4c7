/**
 * The browser script: input guards, the weather-code table, and how a search
 * response is shown.
 */
module Client {
  import opened Wrappers
  import opened Provider
  import opened Weather
  import opened Search
  import Autocomplete

  /** The white space `String.prototype.trim` removes, restricted to a fixed set of code points. */
  predicate IsSpace(c: char) {
    c in {' ', '\t', '\n', '\r', '\U{000B}', '\U{000C}', '\U{00A0}', '\U{FEFF}', '\U{2028}', '\U{2029}'}
  }

  predicate AllSpace(s: string) {
    forall i :: 0 <= i < |s| ==> IsSpace(s[i])
  }

  /** Neither end of `s` is white space. */
  predicate Trimmed(s: string) {
    s == [] || (!IsSpace(s[0]) && !IsSpace(s[|s| - 1]))
  }

  /** Every character of `s[lo..hi]` is white space. */
  predicate SpaceIn(s: string, lo: nat, hi: nat)
    requires lo <= hi <= |s|
  {
    forall k :: lo <= k < hi ==> IsSpace(s[k])
  }

  /** Where the white space starting at `i` ends. */
  function LeadingEnd(s: string, i: nat): (n: nat)
    requires i <= |s|
    ensures i <= n <= |s| && SpaceIn(s, i, n)
    ensures n == |s| || !IsSpace(s[n])
    decreases |s| - i
  {
    if i < |s| && IsSpace(s[i]) then LeadingEnd(s, i + 1) else i
  }

  /** Where the white space ending at `j` starts. */
  function TrailingStart(s: string, j: nat): (n: nat)
    requires j <= |s|
    ensures n <= j && SpaceIn(s, n, j)
    ensures n == 0 || !IsSpace(s[n - 1])
    decreases j
  {
    if j > 0 && IsSpace(s[j - 1]) then TrailingStart(s, j - 1) else j
  }

  /** `s.trim()`: `s` without its leading and trailing white space. */
  function Trim(s: string): (r: string)
    ensures Trimmed(r)
    ensures exists k :: 0 <= k <= |s| - |r| && r == s[k..k + |r|] && AllSpace(s[..k]) && AllSpace(s[k + |r|..])
  {
    var a := LeadingEnd(s, 0);
    if a == |s| then
      assert AllSpace(s[..|s|]) && AllSpace(s[|s|..]);
      ""
    else
      var b := TrailingStart(s, |s|);
      assert a < b;
      assert AllSpace(s[..a]) && AllSpace(s[b..]);
      s[a..b]
  }

  /** The white space from `i` ends at `m` whenever `s[i..m]` is white space and `s[m]` is not. */
  lemma {:induction false} LeadingEndAt(s: string, i: nat, m: nat)
    requires i <= m <= |s| && SpaceIn(s, i, m)
    requires m == |s| || !IsSpace(s[m])
    ensures LeadingEnd(s, i) == m
    decreases m - i
  {
    if i < m {
      LeadingEndAt(s, i + 1, m);
    }
  }

  lemma {:induction false} TrailingStartAt(s: string, j: nat, m: nat)
    requires m <= j <= |s| && SpaceIn(s, m, j)
    requires m == 0 || !IsSpace(s[m - 1])
    ensures TrailingStart(s, j) == m
    decreases j - m
  {
    if m < j {
      TrailingStartAt(s, j - 1, m);
    }
  }

  /**
   * Trimming gives the unique core of `s`: whenever `s` is white space,
   * then a trimmed `t`, then white space, the result is `t`.
   */
  lemma TrimUnique(p: string, t: string, q: string)
    requires AllSpace(p) && AllSpace(q) && Trimmed(t)
    ensures Trim(p + t + q) == t
  {
    var s := p + t + q;
    var i, j := |p|, |p| + |t|;
    assert forall k :: 0 <= k < i ==> s[k] == p[k];
    assert forall k :: j <= k < |s| ==> s[k] == q[k - j];
    if t == [] {
      LeadingEndAt(s, 0, |s|);
    } else {
      assert s[i] == t[0] && s[j - 1] == t[|t| - 1];
      LeadingEndAt(s, 0, i);
      TrailingStartAt(s, |s|, j);
      assert s[i..j] == t;
    }
  }

  /** Trimming twice trims nothing more. */
  lemma TrimIdempotent(s: string)
    ensures Trim(Trim(s)) == Trim(s)
  {
    var t := Trim(s);
    assert [] + t + [] == t;
    TrimUnique([], t, []);
  }

  /** Only all-white-space input trims to the empty string. */
  lemma TrimEmpty(s: string)
    ensures Trim(s) == [] <==> AllSpace(s)
  {
    if AllSpace(s) {
      assert s + [] + [] == s;
      TrimUnique(s, [], []);
    }
  }

  datatype InputAction = HideSuggestions | FetchSuggestions(query: string)

  /** The UTF-16 code units of `c`: two for a character outside the Basic Multilingual Plane. */
  function Utf16Units(c: char): nat {
    if c as int >= 0x10000 then 2 else 1
  }

  /** JavaScript's `length`, which counts UTF-16 code units rather than characters. */
  function Utf16Length(s: string): (n: nat)
    ensures |s| <= n <= 2 * |s|
    decreases |s|
  {
    if |s| == 0 then 0 else Utf16Units(s[0]) + Utf16Length(s[1..])
  }

  predicate InBmp(s: string) {
    forall i :: 0 <= i < |s| ==> s[i] as int < 0x10000
  }

  /** JavaScript's `length` and Python's `len` agree exactly on text inside the Basic Multilingual Plane. */
  lemma {:induction false} Utf16LengthBmp(s: string)
    ensures Utf16Length(s) == |s| <==> InBmp(s)
    decreases |s|
  {
    if |s| > 0 {
      Utf16LengthBmp(s[1..]);
      assert forall i :: 0 <= i < |s[1..]| ==> s[1..][i] == s[i + 1];
      if InBmp(s) {
        assert InBmp(s[1..]);
      }
      if Utf16Length(s) == |s| {
        forall i | 0 <= i < |s| ensures s[i] as int < 0x10000 {
          if i > 0 {
            assert s[i] == s[1..][i - 1];
          }
        }
      }
    }
  }

  /** The `input` handler: ask for suggestions only once the trimmed text is two UTF-16 units long. */
  function OnInput(value: string): (a: InputAction)
    ensures a.FetchSuggestions? <==> Utf16Length(Trim(value)) >= Autocomplete.MinQueryLength
    ensures a.FetchSuggestions? ==> a.query == Trim(value) && Trimmed(a.query)
  {
    var query := Trim(value);
    if Utf16Length(query) < 2 then HideSuggestions else FetchSuggestions(query)
  }

  /**
   * A query the page asks for gets past the server's own length guard unless
   * it is a single character outside the Basic Multilingual Plane: that is
   * two units for the page but one character for `len`.
   */
  lemma InputQueryReachesGeocoder(value: string, up: Upstream)
    ensures OnInput(value).FetchSuggestions? ==>
      var q := OnInput(value).query;
      && (Autocomplete.Suggest(q, up).calls == [GeocodeCall(q, Autocomplete.SuggestionCount)]
          <==> !(|q| == 1 && q[0] as int >= 0x10000))
      && (Autocomplete.Suggest(q, up).calls == [] <==> |q| == 1 && q[0] as int >= 0x10000)
  {
    if OnInput(value).FetchSuggestions? {
      var q := OnInput(value).query;
      if |q| == 1 {
        assert q[1..] == [];
      }
    }
  }

  const GrinningFace: string := "\U{1F600}"

  /** "😀" alone: the page asks for suggestions, and the server answers `[]` without asking the geocoder. */
  lemma AstralQueryMissesGeocoder(up: Upstream)
    ensures OnInput(GrinningFace) == FetchSuggestions(GrinningFace)
    ensures Autocomplete.Suggest(GrinningFace, up) == Autocomplete.Reply([], [])
  {
  }

  datatype KeyAction = Ignore | SearchFor(city: string)

  /** The `keypress` handler: Enter searches the trimmed text, unless it is empty. */
  function OnKeyPress(key: string, value: string): (a: KeyAction)
    ensures a.SearchFor? <==> key == "Enter" && !AllSpace(value)
    ensures a.SearchFor? ==> a.city == Trim(value) && a.city != "" && Trimmed(a.city)
  {
    TrimEmpty(value);
    if key == "Enter" && Trim(value) != "" then SearchFor(Trim(value)) else Ignore
  }

  const UnknownWeather: string := "Неизвестно"

  /** The labels of `getWeatherDescription`, keyed by WMO weather code. */
  const Descriptions: map<int, string> := map[
    0 := "Ясно",
    1 := "Преимущественно ясно",
    2 := "Переменная облачность",
    3 := "Пасмурно",
    45 := "Туман",
    48 := "Изморозь",
    51 := "Легкая морось",
    53 := "Умеренная морось",
    55 := "Сильная морось",
    61 := "Небольшой дождь",
    63 := "Умеренный дождь",
    65 := "Сильный дождь",
    71 := "Небольшой снег",
    73 := "Умеренный снег",
    75 := "Сильный снег",
    77 := "Снежная крупа",
    80 := "Небольшой ливень",
    81 := "Умеренный ливень",
    82 := "Сильный ливень",
    85 := "Небольшой снегопад",
    86 := "Сильный снегопад",
    95 := "Гроза",
    96 := "Гроза с небольшим градом",
    99 := "Гроза с сильным градом"
  ]

  /** The codes of WMO code table 4677 that the forecast provider reports. */
  const ProviderCodes: set<int> :=
    {0, 1, 2, 3, 45, 48, 51, 53, 55, 61, 63, 65, 71, 73, 75, 77, 80, 81, 82, 85, 86, 95, 96, 99}

  /** `weatherCodes[code] || 'Неизвестно'`: a missing or empty label falls back. */
  function WeatherDescription(code: int): (d: string)
    ensures d != ""
    ensures code in ProviderCodes ==> d == Descriptions[code] && d != UnknownWeather
    ensures code !in ProviderCodes ==> d == UnknownWeather
  {
    if code in Descriptions && Descriptions[code] != "" then Descriptions[code] else UnknownWeather
  }

  /** No two codes of the table share a label. */
  lemma DescriptionsDistinct(c1: int, c2: int)
    requires c1 in ProviderCodes && c2 in ProviderCodes && c1 != c2
    ensures WeatherDescription(c1) != WeatherDescription(c2)
  {
  }

  const FallbackError: string := "Не удалось получить данные о погоде"

  /** `data.error || fallback`: the server's message unless it is missing or empty. */
  function ErrorText(error: Option<string>): (m: string)
    ensures m != ""
    ensures error.Some? && error.value != "" ==> m == error.value
    ensures error.None? || error.value == "" ==> m == FallbackError
  {
    if error.Some? && error.value != "" then error.value else FallbackError
  }

  /** `${data.city}, ${data.country}`. */
  function CityHeader(w: WeatherResult): string {
    w.city + ", " + w.country
  }

  /** The `error` key of a response body, as the page reads it. */
  function ErrorField(b: Body): Option<string> {
    match b
    case ErrorBody(e) => Some(e)
    case WeatherBody(_) => None
    case TextBody(_) => None
  }

  /**
   * What the page shows after a search. `ShowParseError` is the `catch` of a
   * body that `response.json()` cannot parse: the message is the browser's
   * own, and the model does not fix its wording.
   */
  datatype View = ShowWeather(header: string, weather: WeatherResult) | ShowError(message: string) | ShowParseError

  /** `response.ok` */
  predicate Ok(status: nat) {
    200 <= status <= 299
  }

  /** `searchCity` once the response is in. */
  function Render(resp: Response): (v: View)
    requires Ok(resp.status) ==> resp.body.WeatherBody?
    ensures v.ShowWeather? <==> Ok(resp.status)
    ensures v.ShowParseError? <==> resp.body.TextBody?
    ensures v.ShowWeather? ==>
      && v.weather == resp.body.weather
      && v.header == resp.body.weather.city + ", " + resp.body.weather.country
    ensures v.ShowError? ==> v.message != ""
    ensures v.ShowError? && resp.body.ErrorBody? && resp.body.error != "" ==> v.message == resp.body.error
    ensures v.ShowError? && resp.body.ErrorBody? && resp.body.error == "" ==> v.message == FallbackError
    ensures v.ShowError? && resp.body.WeatherBody? ==> v.message == FallbackError
  {
    if resp.body.TextBody? then ShowParseError
    else if Ok(resp.status) then ShowWeather(CityHeader(resp.body.weather), resp.body.weather)
    else ShowError(ErrorText(ErrorField(resp.body)))
  }

  /**
   * End to end: an unknown city shows the server's not-found message; a
   * known one shows the first geocoder hit labelled as its suggestion is,
   * unless the city or the visitor id cannot be written as a cookie, when
   * the server's plain-text 500 fails to parse.
   */
  lemma SearchShown(city: string, cookie: Option<string>, entropy: seq<Hex.byte>, up: Upstream, log: seq<Row>)
    requires city != "" && |entropy| == 16
    ensures var resp := SearchWeather(city, cookie, entropy, up, log).response;
      var geo := up.geocode(city, SearchGeocodeCount);
      && (Ok(resp.status) ==> resp.body.WeatherBody?)
      && (!HasResults(geo) ==> Render(resp) == ShowError(NotFoundMessage))
      && (HasResults(geo) && Latin1(city) && Latin1(VisitorId(cookie, entropy)) ==>
            Render(resp).ShowWeather? && Render(resp).header == Autocomplete.Label(Hits(geo)[0]))
      && (HasResults(geo) && !(Latin1(city) && Latin1(VisitorId(cookie, entropy))) ==>
            Render(resp) == ShowParseError)
  {
  }
}
