/**
 * Entries of the statistics answer, and their ordering by count, largest
 * first: the `ORDER BY count DESC` half of the query.
 */
module Ranking {

  datatype Entry = Entry(city: string, count: nat)

  function CitiesOf(s: seq<Entry>): set<string> {
    set e | e in s :: e.city
  }

  predicate DistinctCities(s: seq<Entry>) {
    forall i, j :: 0 <= i < j < |s| ==> s[i].city != s[j].city
  }

  predicate NonIncreasing(s: seq<Entry>) {
    forall i, j :: 0 <= i < j < |s| ==> s[i].count >= s[j].count
  }

  /** In a sequence with distinct cities, the head's city does not recur in the tail. */
  lemma HeadCityFresh(s: seq<Entry>)
    requires DistinctCities(s) && |s| > 0
    ensures s[0].city !in CitiesOf(s[1..])
    ensures s[0] !in s[1..]
  {
    var t := s[1..];
    forall k | 0 <= k < |t| ensures t[k].city != s[0].city {
      assert t[k] == s[k + 1];
    }
  }

  /** Prepending an entry that no later entry outcounts keeps the order. */
  lemma ConsSorted(x: Entry, t: seq<Entry>)
    requires NonIncreasing(t)
    requires forall y :: y in t ==> x.count >= y.count
    ensures NonIncreasing([x] + t)
  {
    var r := [x] + t;
    forall i, j | 0 <= i < j < |r| ensures r[i].count >= r[j].count {
      assert r[j] == t[j - 1];
      if i > 0 {
        assert r[i] == t[i - 1];
      }
    }
  }

  /** Prepending an entry for a new city keeps the cities distinct. */
  lemma ConsDistinct(x: Entry, t: seq<Entry>)
    ensures x.city !in CitiesOf(t) && DistinctCities(t) ==> DistinctCities([x] + t)
  {
    var r := [x] + t;
    if x.city !in CitiesOf(t) && DistinctCities(t) {
      forall i, j | 0 <= i < j < |r| ensures r[i].city != r[j].city {
        assert r[j] == t[j - 1];
        if i > 0 {
          assert r[i] == t[i - 1];
        } else {
          assert t[j - 1] in t;
        }
      }
    }
  }

  /** Places `e` before the first entry whose count does not exceed its own. */
  function Insert(e: Entry, s: seq<Entry>): (r: seq<Entry>)
    ensures multiset(r) == multiset(s) + multiset{e}
    decreases |s|
  {
    if |s| == 0 || e.count >= s[0].count then [e] + s
    else
      assert s == [s[0]] + s[1..];
      [s[0]] + Insert(e, s[1..])
  }

  lemma {:induction false} InsertSorted(e: Entry, s: seq<Entry>)
    requires NonIncreasing(s)
    ensures NonIncreasing(Insert(e, s))
    decreases |s|
  {
    if |s| == 0 {
    } else if e.count >= s[0].count {
      forall y | y in s ensures e.count >= y.count {
        var k :| 0 <= k < |s| && s[k] == y;
      }
      ConsSorted(e, s);
    } else {
      var t := s[1..];
      assert s == [s[0]] + t;
      var rest := Insert(e, t);
      InsertSorted(e, t);
      forall y | y in rest ensures s[0].count >= y.count {
        assert y in multiset(rest);
        if y != e {
          assert y in multiset(t);
          var k :| 0 <= k < |t| && t[k] == y;
          assert s[k + 1] == y;
        }
      }
      ConsSorted(s[0], rest);
    }
  }

  lemma {:induction false} InsertDistinct(e: Entry, s: seq<Entry>)
    requires e.city !in CitiesOf(s) && DistinctCities(s)
    ensures CitiesOf(Insert(e, s)) == CitiesOf(s) + {e.city}
    ensures DistinctCities(Insert(e, s))
    decreases |s|
  {
    if |s| == 0 {
    } else if e.count >= s[0].count {
      ConsDistinct(e, s);
      assert CitiesOf([e] + s) == CitiesOf(s) + {e.city};
    } else {
      var t := s[1..];
      assert s == [s[0]] + t;
      assert CitiesOf(s) == CitiesOf(t) + {s[0].city};
      HeadCityFresh(s);
      InsertDistinct(e, t);
      var rest := Insert(e, t);
      ConsDistinct(s[0], rest);
      assert CitiesOf([s[0]] + rest) == CitiesOf(rest) + {s[0].city};
    }
  }

  /** Insertion sort by count, largest first; equal counts keep their order. */
  function SortByCount(s: seq<Entry>): (r: seq<Entry>)
    ensures NonIncreasing(r)
    ensures multiset(r) == multiset(s)
    ensures DistinctCities(s) ==> DistinctCities(r) && CitiesOf(r) == CitiesOf(s)
    decreases |s|
  {
    if |s| == 0 then []
    else
      var t := s[1..];
      assert s == [s[0]] + t;
      var rest := SortByCount(t);
      InsertSorted(s[0], rest);
      if DistinctCities(s) then
        HeadCityFresh(s);
        assert CitiesOf(s) == CitiesOf(t) + {s[0].city};
        InsertDistinct(s[0], rest);
        Insert(s[0], rest)
      else
        Insert(s[0], rest)
  }

  lemma {:induction false} DistinctSize(s: seq<Entry>)
    requires DistinctCities(s)
    ensures |CitiesOf(s)| == |s|
    decreases |s|
  {
    if |s| > 0 {
      var t := s[1..];
      DistinctSize(t);
      assert CitiesOf(s) == CitiesOf(t) + {s[0].city} by {
        assert s == [s[0]] + t;
      }
      HeadCityFresh(s);
    }
  }

  /** An entry occurs at most once in a sequence whose cities are distinct. */
  lemma {:induction false} DistinctMultiset(s: seq<Entry>)
    requires DistinctCities(s)
    ensures forall x :: multiset(s)[x] == if x in s then 1 else 0
    decreases |s|
  {
    if |s| > 0 {
      var t := s[1..];
      assert s == [s[0]] + t;
      DistinctMultiset(t);
      HeadCityFresh(s);
    }
  }

  /** Dropping the entry at `j` keeps the order. */
  lemma RemoveAt(b: seq<Entry>, j: nat)
    requires j < |b| && NonIncreasing(b)
    ensures NonIncreasing(b[..j] + b[j + 1..])
  {
    var b' := b[..j] + b[j + 1..];
    forall p, q | 0 <= p < q < |b'| ensures b'[p].count >= b'[q].count {
      var p0 := if p < j then p else p + 1;
      var q0 := if q < j then q else q + 1;
      assert b'[p] == b[p0] && b'[q] == b[q0];
    }
  }

  /**
   * In an ordered `b` whose head and `j`-th entry tie, removing the `j`-th
   * entry leaves every position's count as it was one place further on.
   */
  lemma ShiftedCounts(b: seq<Entry>, j: nat)
    requires j < |b| && NonIncreasing(b) && b[0].count == b[j].count
    ensures var b' := b[..j] + b[j + 1..];
      forall i :: 0 <= i < |b'| ==> b'[i].count == b[i + 1].count
  {
    var b' := b[..j] + b[j + 1..];
    forall i | 0 <= i < |b'| ensures b'[i].count == b[i + 1].count {
      if i < j {
        assert b'[i] == b[i];
        assert b[0].count >= b[i].count >= b[i + 1].count >= b[j].count;
      } else {
        assert b'[i] == b[i + 1];
      }
    }
  }

  /** The heads of two such orderings tie; `j` is where `b` holds `a`'s head. */
  lemma HeadsTie(a: seq<Entry>, b: seq<Entry>) returns (j: nat)
    requires multiset(a) == multiset(b) && |a| > 0
    requires NonIncreasing(a) && NonIncreasing(b)
    ensures j < |b| && b[j] == a[0] && b[0].count == a[0].count
  {
    assert a[0] in multiset(b) && b[0] in multiset(a);
    j :| 0 <= j < |b| && b[j] == a[0];
    var k :| 0 <= k < |a| && a[k] == b[0];
  }

  lemma TailsPermute(a: seq<Entry>, b: seq<Entry>, j: nat)
    requires multiset(a) == multiset(b) && |a| > 0
    requires j < |b| && b[j] == a[0]
    ensures multiset(a[1..]) == multiset(b[..j] + b[j + 1..])
  {
    assert a == [a[0]] + a[1..];
    assert b == b[..j] + [b[j]] + b[j + 1..];
    var m := multiset{a[0]};
    assert multiset(a) == m + multiset(a[1..]);
    assert multiset(b) == multiset(b[..j]) + m + multiset(b[j + 1..]);
    var b' := b[..j] + b[j + 1..];
    assert multiset(b') == multiset(b[..j]) + multiset(b[j + 1..]);
    forall x ensures multiset(a[1..])[x] == multiset(b')[x] {
      assert multiset(a)[x] == m[x] + multiset(a[1..])[x];
      assert multiset(b)[x] == m[x] + multiset(b')[x];
    }
  }

  /** Two orderings of the same entries, both by non-increasing count, have the same count at every position. */
  lemma {:induction false} SortedPermutationCounts(a: seq<Entry>, b: seq<Entry>)
    requires multiset(a) == multiset(b)
    requires NonIncreasing(a) && NonIncreasing(b)
    ensures |a| == |b|
    ensures forall i :: 0 <= i < |a| ==> a[i].count == b[i].count
    decreases |a|
  {
    assert |a| == |multiset(a)| == |multiset(b)| == |b|;
    if |a| > 0 {
      var j := HeadsTie(a, b);
      var a', b' := a[1..], b[..j] + b[j + 1..];
      TailsPermute(a, b, j);
      RemoveAt(b, j);
      SortedPermutationCounts(a', b');
      ShiftedCounts(b, j);
      forall i | 0 < i < |a| ensures a[i].count == b[i].count {
        assert a[i] == a'[i - 1];
      }
    }
  }
}
