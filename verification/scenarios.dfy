/** The scenario of `test_stats` in test_main.py, proved for the model. */
module Scenarios {
  import opened Wrappers
  import opened Provider
  import Hex
  import opened Weather
  import opened Search
  import opened Session
  import opened Ranking
  import opened Stats

  const TestUser: string := "test_user"

  const TestCities: seq<string> := ["London", "Paris", "London", "New York"]

  const TestLog: seq<Row> :=
    [Row("London", TestUser), Row("Paris", TestUser), Row("London", TestUser), Row("New York", TestUser)]

  /** Four searches from a browser holding `user_id=test_user`, against a geocoder that knows all four cities. */
  lemma ReplayTestSearches(reqs: seq<Request>, up: Upstream)
    requires WellFormed(reqs) && |reqs| == 4
    requires forall i :: 0 <= i < 4 ==> reqs[i].city == TestCities[i]
    requires forall i :: 0 <= i < 4 ==> HasResults(up.geocode(TestCities[i], SearchGeocodeCount))
    ensures Replay(reqs, State(Jar(Some(TestUser), None), []), up).log == TestLog
  {
    var s0 := State(Jar(Some(TestUser), None), []);
    var s := Replay(reqs, s0, up);
    ReplayAppends(reqs, s0, up);
    ReplayKeepsVisitor(reqs, s0, up, TestUser);
    ResolvedAll(reqs, up);
    CitiesInOrder(reqs, s0, up);
    forall i | 0 <= i < 4 ensures s.log[i] == TestLog[i] {
      assert s.log[i].city == reqs[i].city;
    }
  }

  lemma ResolvedAll(reqs: seq<Request>, up: Upstream)
    requires |reqs| == 4
    requires forall i :: 0 <= i < 4 ==> HasResults(up.geocode(reqs[i].city, SearchGeocodeCount))
    ensures Resolved(reqs, up) == 4
  {
    var r1 := reqs[1..];
    var r2 := r1[1..];
    var r3 := r2[1..];
    assert r1[0] == reqs[1] && r2[0] == reqs[2] && r3[0] == reqs[3];
    assert r3[1..] == [];
    assert Resolved(r3, up) == 1;
    assert Resolved(r2, up) == 2;
    assert Resolved(r1, up) == 3;
  }

  /** When the geocoder resolves every request, row `i` of the new rows is request `i`'s city. */
  lemma {:induction false} CitiesInOrder(reqs: seq<Request>, s: State, up: Upstream)
    requires WellFormed(reqs)
    requires forall i :: 0 <= i < |reqs| ==> HasResults(up.geocode(reqs[i].city, SearchGeocodeCount))
    ensures var s' := Replay(reqs, s, up);
      |s'.log| == |s.log| + |reqs| &&
      forall i :: 0 <= i < |reqs| ==> s'.log[|s.log| + i].city == reqs[i].city
    decreases |reqs|
  {
    if |reqs| > 0 {
      var r0, rest := reqs[0], reqs[1..];
      var o := SearchWeather(r0.city, s.jar.userId, r0.entropy, up, s.log);
      assert o.response.status != 404;
      assert |o.log| == |s.log| + 1 && o.log[|s.log|].city == r0.city;
      var mid := State(Receive(s.jar, o.response.cookies), o.log);
      assert forall i :: 0 <= i < |rest| ==> rest[i] == reqs[i + 1];
      CitiesInOrder(rest, mid, up);
      ReplayAppends(rest, mid, up);
      var s' := Replay(rest, mid, up);
      assert Replay(reqs, s, up) == s';
      assert s'.log[|s.log|] == s'.log[..|mid.log|][|s.log|];
      forall i | 1 <= i < |reqs| ensures s'.log[|s.log| + i].city == reqs[i].city {
        assert |s.log| + i == |mid.log| + (i - 1);
      }
    }
  }

  /** Any answer of the stats query for that log has three entries, London (twice) first. */
  lemma TestStatsHead(s: seq<Entry>)
    requires IsStatsOf(s, TestLog)
    ensures |s| == 3 && s[0] == Entry("London", 2)
  {
    var log := TestLog;
    CountTestLog();
    assert LoggedCities(log) == {"London", "Paris", "New York"};
    DistinctSize(s);
    assert "London" in CitiesOf(s);
    var k :| 0 <= k < |s| && s[k].city == "London";
    assert forall i :: 0 < i < |s| ==> s[0].count >= s[i].count;
    assert s[0].count >= 2;
    assert s[0] in s;
    assert s[0].city in LoggedCities(log);
  }

  /** After London come Paris and New York, once each, in either order. */
  lemma TestStats(s: seq<Entry>)
    requires IsStatsOf(s, TestLog)
    ensures |s| == 3
    ensures s[0] == Entry("London", 2)
    ensures forall e :: e in s[1..] <==> e == Entry("Paris", 1) || e == Entry("New York", 1)
  {
    var log := TestLog;
    TestStatsHead(s);
    CountTestLog();
    assert LoggedCities(log) == {"London", "Paris", "New York"};
    HeadCityFresh(s);
    forall e | e in s[1..] ensures e == Entry("Paris", 1) || e == Entry("New York", 1) {
      assert e.city in CitiesOf(s[1..]);
      assert e in s;
    }
    forall e | e == Entry("Paris", 1) || e == Entry("New York", 1) ensures e in s[1..] {
      assert e.city in CitiesOf(s);
      var j :| 0 <= j < |s| && s[j].city == e.city;
      assert s[j] == e;
      assert s[1..][j - 1] == e;
    }
  }

  lemma TestCitiesDiffer()
    ensures "London" != "Paris" && "London" != "New York" && "Paris" != "New York"
  {
  }

  lemma CountTestLog()
    ensures Count(TestLog, "London") == 2
    ensures Count(TestLog, "Paris") == 1
    ensures Count(TestLog, "New York") == 1
  {
    var l3, l2, l1 := TestLog[..3], TestLog[..2], TestLog[..1];
    assert l3[..2] == l2 && l2[..1] == l1 && l1[..0] == [];
    TestCitiesDiffer();
    assert Count(l1, "London") == 1 && Count(l1, "Paris") == 0 && Count(l1, "New York") == 0;
    assert Count(l2, "London") == 1 && Count(l2, "Paris") == 1 && Count(l2, "New York") == 0;
    assert Count(l3, "London") == 2 && Count(l3, "Paris") == 1 && Count(l3, "New York") == 0;
  }

  /** The stats route's own answer for that log. */
  lemma TestStatsAnswer()
    ensures GetStats(TestLog)[0] == Entry("London", 2)
  {
    TestStats(GetStats(TestLog));
  }

  lemma DedupTestLog()
    ensures Dedup(TestLog) == ["London", "Paris", "New York"]
  {
    var log := TestLog;
    var l3, l2, l1 := log[..3], log[..2], log[..1];
    assert l3[..2] == l2 && l2[..1] == l1 && l1[..0] == [];
    TestCitiesDiffer();
    assert Dedup(l1) == ["London"];
    assert Dedup(l2) == ["London", "Paris"];
    assert Dedup(l3) == ["London", "Paris"];
  }

  lemma SortTestGroup()
    ensures SortByCount([Entry("London", 2), Entry("Paris", 1), Entry("New York", 1)])
      == [Entry("London", 2), Entry("Paris", 1), Entry("New York", 1)]
  {
    var ld, pa, ny := Entry("London", 2), Entry("Paris", 1), Entry("New York", 1);
    var g := [ld, pa, ny];
    assert g[1..] == [pa, ny] && g[1..][1..] == [ny] && g[1..][1..][1..] == [];
    assert Insert(ny, []) == [ny];
    assert SortByCount([ny]) == [ny];
    assert Insert(pa, [ny]) == [pa, ny];
    assert SortByCount([pa, ny]) == [pa, ny];
    assert Insert(ld, [pa, ny]) == [ld, pa, ny];
  }

  /** Ties keep the order of first appearance: Paris was searched before New York. */
  lemma TestStatsOrder()
    ensures GetStats(TestLog) == [Entry("London", 2), Entry("Paris", 1), Entry("New York", 1)]
  {
    CountTestLog();
    DedupTestLog();
    var g := Group(TestLog);
    assert g == [Entry("London", 2), Entry("Paris", 1), Entry("New York", 1)];
    SortTestGroup();
  }

  const Moscow: string := "Москва"

  /**
   * A Cyrillic city resolves but cannot be written as a cookie: each search
   * stores its row and answers 500 without cookies, so a browser that starts
   * without `user_id` logs every search under a fresh id.
   */
  lemma UnwritableCitySplitsVisitor(e1: seq<Hex.byte>, e2: seq<Hex.byte>, up: Upstream)
    requires |e1| == 16 && |e2| == 16 && e1 != e2
    requires HasResults(up.geocode(Moscow, SearchGeocodeCount))
    ensures var s := Replay([Request(Moscow, e1), Request(Moscow, e2)], State(Jar(None, None), []), up);
      && |s.log| == 2
      && s.log[0] == Row(Moscow, Hex.Encode(e1))
      && s.log[1] == Row(Moscow, Hex.Encode(e2))
      && s.log[0].userId != s.log[1].userId
      && s.jar == Jar(None, None)
  {
    assert !Latin1(Moscow) by {
      assert Moscow[0] as int >= 256;
    }
    var reqs := [Request(Moscow, e1), Request(Moscow, e2)];
    var s0 := State(Jar(None, None), []);
    UnwritableCityKeepsRow(Moscow, None, e1, up, []);
    var o1 := SearchWeather(Moscow, None, e1, up, []);
    var s1 := State(Receive(s0.jar, o1.response.cookies), o1.log);
    assert s1 == State(Jar(None, None), [Row(Moscow, Hex.Encode(e1))]);
    UnwritableCityKeepsRow(Moscow, None, e2, up, s1.log);
    var o2 := SearchWeather(Moscow, None, e2, up, s1.log);
    var s2 := State(Receive(s1.jar, o2.response.cookies), o2.log);
    assert s2 == State(Jar(None, None), [Row(Moscow, Hex.Encode(e1)), Row(Moscow, Hex.Encode(e2))]);
    assert reqs[1..] == [Request(Moscow, e2)] && reqs[1..][1..] == [];
    assert Replay(reqs[1..], s1, up) == Replay(reqs[1..][1..], s2, up);
    assert Replay(reqs, s0, up) == Replay(reqs[1..], s1, up);
    FreshIdsDiffer(e1, e2);
  }
}
