/**
 * `get_stats`: `SELECT city, COUNT(*) FROM search_history GROUP BY city
 * ORDER BY count DESC` over the search log. The query fixes no order between
 * cities of equal count, so `IsStatsOf` leaves it open; `GetStats` is one
 * answer it admits.
 */
module Stats {
  import opened Search
  import opened Ranking

  /** Rows logged for `city` (GROUP BY compares cities as exact strings). */
  function Count(log: seq<Row>, city: string): nat
    decreases |log|
  {
    if |log| == 0 then 0
    else Count(log[..|log| - 1], city) + (if log[|log| - 1].city == city then 1 else 0)
  }

  /** Rows logged for any city of `cities`. */
  function CountIn(log: seq<Row>, cities: set<string>): nat
    decreases |log|
  {
    if |log| == 0 then 0
    else CountIn(log[..|log| - 1], cities) + (if log[|log| - 1].city in cities then 1 else 0)
  }

  function LoggedCities(log: seq<Row>): set<string> {
    set r | r in log :: r.city
  }

  function Sum(s: seq<Entry>): nat
    decreases |s|
  {
    if |s| == 0 then 0 else s[0].count + Sum(s[1..])
  }

  predicate CountsMatch(s: seq<Entry>, log: seq<Row>) {
    forall i :: 0 <= i < |s| ==> s[i].count == Count(log, s[i].city)
  }

  /**
   * What the query returns: each logged city once, with its row count, largest
   * counts first; so there are as many entries as distinct logged cities.
   */
  predicate IsStatsOf(s: seq<Entry>, log: seq<Row>): (b: bool)
    ensures b ==> |s| == |LoggedCities(log)|
  {
    if DistinctCities(s) then
      DistinctSize(s);
      CitiesOf(s) == LoggedCities(log) && CountsMatch(s, log) && NonIncreasing(s)
    else false
  }

  /** The distinct cities of the log, in order of first appearance. */
  function Dedup(log: seq<Row>): (cs: seq<string>)
    ensures forall i, j :: 0 <= i < j < |cs| ==> cs[i] != cs[j]
    ensures (set c | c in cs) == LoggedCities(log)
    decreases |log|
  {
    if |log| == 0 then []
    else
      var prefix := log[..|log| - 1];
      var last := log[|log| - 1].city;
      var d := Dedup(prefix);
      assert log == prefix + [log[|log| - 1]];
      assert LoggedCities(log) == LoggedCities(prefix) + {last};
      if last in d then d else d + [last]
  }

  /** One entry per distinct city, with its count: the GROUP BY step. */
  function Group(log: seq<Row>): (g: seq<Entry>)
    ensures DistinctCities(g) && CitiesOf(g) == LoggedCities(log) && CountsMatch(g, log)
  {
    var cs := Dedup(log);
    var g := seq(|cs|, i requires 0 <= i < |cs| => Entry(cs[i], Count(log, cs[i])));
    assert forall e :: e in g ==> e.city in cs;
    forall c | c in cs ensures c in CitiesOf(g) {
      var i :| 0 <= i < |cs| && cs[i] == c;
      assert g[i] in g;
    }
    g
  }

  function GetStats(log: seq<Row>): (s: seq<Entry>)
    ensures IsStatsOf(s, log)
    ensures Sum(s) == |log|
  {
    var g := Group(log);
    var s := SortByCount(g);
    forall i | 0 <= i < |s| ensures s[i].count == Count(log, s[i].city) {
      assert s[i] in multiset(g);
      var k :| 0 <= k < |g| && g[k] == s[i];
    }
    StatsSumToLogLength(s, log);
    s
  }

  lemma {:induction false} CountInAdd(log: seq<Row>, c: string, cities: set<string>)
    requires c !in cities
    ensures CountIn(log, cities + {c}) == Count(log, c) + CountIn(log, cities)
    decreases |log|
  {
    if |log| > 0 {
      CountInAdd(log[..|log| - 1], c, cities);
    }
  }

  lemma {:induction false} CountInAll(log: seq<Row>, cities: set<string>)
    requires LoggedCities(log) <= cities
    ensures CountIn(log, cities) == |log|
    decreases |log|
  {
    if |log| > 0 {
      var prefix := log[..|log| - 1];
      assert log == prefix + [log[|log| - 1]];
      assert LoggedCities(prefix) <= LoggedCities(log);
      CountInAll(prefix, cities);
    }
  }

  lemma {:induction false} SumIsCountIn(s: seq<Entry>, log: seq<Row>)
    requires DistinctCities(s) && CountsMatch(s, log)
    ensures Sum(s) == CountIn(log, CitiesOf(s))
    decreases |s|
  {
    if |s| == 0 {
      assert CitiesOf(s) == {};
      CountInAll([], {});
      CountInEmpty(log);
    } else {
      var t := s[1..];
      SumIsCountIn(t, log);
      assert CitiesOf(s) == CitiesOf(t) + {s[0].city} by {
        assert s == [s[0]] + t;
      }
      HeadCityFresh(s);
      CountInAdd(log, s[0].city, CitiesOf(t));
    }
  }

  lemma {:induction false} CountInEmpty(log: seq<Row>)
    ensures CountIn(log, {}) == 0
    decreases |log|
  {
    if |log| > 0 {
      CountInEmpty(log[..|log| - 1]);
    }
  }

  /** The counts of any answer to the query add up to the number of rows logged. */
  lemma StatsSumToLogLength(s: seq<Entry>, log: seq<Row>)
    requires DistinctCities(s) && CitiesOf(s) == LoggedCities(log) && CountsMatch(s, log)
    ensures Sum(s) == |log|
  {
    SumIsCountIn(s, log);
    CountInAll(log, CitiesOf(s));
  }

  /**
   * Two answers to the query for the same log hold the same entries and
   * differ at most in the order of cities with equal counts.
   */
  lemma StatsUpToTies(s1: seq<Entry>, s2: seq<Entry>, log: seq<Row>)
    requires IsStatsOf(s1, log) && IsStatsOf(s2, log)
    ensures |s1| == |s2|
    ensures forall e :: e in s1 <==> e in s2
    ensures forall i :: 0 <= i < |s1| ==> s1[i].count == s2[i].count
  {
    DistinctSize(s1);
    DistinctSize(s2);
    forall e | e in s1 ensures e in s2 {
      assert e.city in CitiesOf(s2);
      var f :| f in s2 && f.city == e.city;
    }
    forall e | e in s2 ensures e in s1 {
      assert e.city in CitiesOf(s1);
      var f :| f in s1 && f.city == e.city;
    }
    DistinctMultiset(s1);
    DistinctMultiset(s2);
    assert multiset(s1) == multiset(s2) by {
      forall x ensures multiset(s1)[x] == multiset(s2)[x] {
      }
    }
    SortedPermutationCounts(s1, s2);
  }
}
