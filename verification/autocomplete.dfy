/** `autocomplete`: the GET /cities/autocomplete handler. */
module Autocomplete {
  import opened Provider

  /** Shorter queries are answered without asking the geocoder. */
  const MinQueryLength: nat := 2
  /** Geocoder `count` for suggestions. */
  const SuggestionCount: nat := 5

  datatype Suggestion = Suggestion(name: string, latitude: Num, longitude: Num)

  /** The requests the handler made, and the JSON array it returned. */
  datatype Reply = Reply(calls: seq<Call>, suggestions: seq<Suggestion>)

  /** `"<name>, <country>"`, the country empty when the hit has none. */
  function Label(hit: GeoHit): (s: string)
    ensures |s| == |hit.name| + 2 + |CountryOrEmpty(hit)|
    ensures s[..|hit.name|] == hit.name
    ensures s[|hit.name|..|hit.name| + 2] == ", "
    ensures s[|hit.name| + 2..] == CountryOrEmpty(hit)
  {
    hit.name + ", " + CountryOrEmpty(hit)
  }

  function ToSuggestion(hit: GeoHit): Suggestion {
    Suggestion(Label(hit), hit.latitude, hit.longitude)
  }

  function Suggest(q: string, up: Upstream): (r: Reply)
    ensures |q| < MinQueryLength ==> r.calls == [] && r.suggestions == []
    ensures |q| >= MinQueryLength ==> r.calls == [GeocodeCall(q, SuggestionCount)]
    ensures |q| >= MinQueryLength ==>
      var hits := Hits(up.geocode(q, SuggestionCount));
      && |r.suggestions| == |hits|
      && forall i :: 0 <= i < |hits| ==>
           && r.suggestions[i].name == Label(hits[i])
           && r.suggestions[i].latitude == hits[i].latitude
           && r.suggestions[i].longitude == hits[i].longitude
  {
    if |q| < MinQueryLength then Reply([], [])
    else
      var data := up.geocode(q, SuggestionCount);
      if !HasResults(data) then Reply([GeocodeCall(q, SuggestionCount)], [])
      else
        var hits := data.results.value;
        Reply([GeocodeCall(q, SuggestionCount)], seq(|hits|, i requires 0 <= i < |hits| => ToSuggestion(hits[i])))
  }

  /** The answer is empty exactly when the query is too short or the geocoder has no hits for it. */
  lemma SuggestEmpty(q: string, up: Upstream)
    ensures Suggest(q, up).suggestions == [] <==>
      |q| < MinQueryLength || !HasResults(up.geocode(q, SuggestionCount))
  {
    if |q| >= MinQueryLength && HasResults(up.geocode(q, SuggestionCount)) {
      assert |Suggest(q, up).suggestions| > 0;
    }
  }
}
