/**
 * A browser that carries the cookies a search sets into its next search, as
 * the test client in test_main.py does: a sequence of searches threading one
 * cookie jar and one search log.
 */
module Session {
  import opened Wrappers
  import opened Provider
  import Hex
  import opened Weather
  import opened Search

  /** The two cookies the service sets. */
  datatype Jar = Jar(userId: Option<string>, lastCity: Option<string>)

  /** A browser stores every cookie it is sent under its key; keys the service does not set are ignored. */
  function Receive(jar: Jar, cookies: seq<Cookie>): Jar
    decreases |cookies|
  {
    if |cookies| == 0 then jar
    else
      var c := cookies[0];
      var jar' :=
        if c.key == UserIdKey then jar.(userId := Some(c.value))
        else if c.key == LastCityKey then jar.(lastCity := Some(c.value))
        else jar;
      Receive(jar', cookies[1..])
  }

  /** One form submission, with the bytes `os.urandom(16)` returns for it. */
  datatype Request = Request(city: string, entropy: seq<Hex.byte>)

  /** Requests that reach the handler: a non-empty city, and 16 random bytes each. */
  predicate WellFormed(reqs: seq<Request>) {
    forall i :: 0 <= i < |reqs| ==> reqs[i].city != "" && |reqs[i].entropy| == 16
  }

  datatype State = State(jar: Jar, log: seq<Row>)

  /** The search requests of a session, in order, each one seeing the cookies and rows left by the ones before. */
  function Replay(reqs: seq<Request>, s: State, up: Upstream): State
    requires WellFormed(reqs)
    decreases |reqs|
  {
    if |reqs| == 0 then s
    else
      var o := SearchWeather(reqs[0].city, s.jar.userId, reqs[0].entropy, up, s.log);
      Replay(reqs[1..], State(Receive(s.jar, o.response.cookies), o.log), up)
  }

  /** Number of requests the geocoder resolves. */
  function Resolved(reqs: seq<Request>, up: Upstream): nat
    decreases |reqs|
  {
    if |reqs| == 0 then 0
    else (if HasResults(up.geocode(reqs[0].city, SearchGeocodeCount)) then 1 else 0) + Resolved(reqs[1..], up)
  }

  /** The jar after a search: a 200 sets both cookies; a 404 or a 500 leaves the jar alone. */
  lemma ReceiveSearch(jar: Jar, r: Request, up: Upstream, log: seq<Row>)
    requires r.city != "" && |r.entropy| == 16
    ensures var o := SearchWeather(r.city, jar.userId, r.entropy, up, log);
      var jar' := Receive(jar, o.response.cookies);
      && (o.response.status != 200 ==> jar' == jar)
      && (o.response.status == 200 ==>
            jar' == Jar(Some(VisitorId(jar.userId, r.entropy)), Some(r.city)))
  {
    var o := SearchWeather(r.city, jar.userId, r.entropy, up, log);
    var cs := o.response.cookies;
    if o.response.status == 200 {
      var id := VisitorId(jar.userId, r.entropy);
      assert LastCityKey[0] != UserIdKey[0];
      var j1 := jar.(lastCity := Some(r.city));
      assert Receive(jar, cs) == Receive(j1, cs[1..]);
      assert Receive(j1, cs[1..]) == Receive(j1.(userId := Some(id)), cs[1..][1..]);
      assert cs[1..][1..] == [];
    }
  }

  /**
   * A session only appends: the earlier rows are kept, and one row is added
   * per request the geocoder resolves.
   */
  lemma {:induction false} ReplayAppends(reqs: seq<Request>, s: State, up: Upstream)
    requires WellFormed(reqs)
    ensures var s' := Replay(reqs, s, up);
      && |s'.log| == |s.log| + Resolved(reqs, up)
      && s'.log[..|s.log|] == s.log
    decreases |reqs|
  {
    if |reqs| > 0 {
      var o := SearchWeather(reqs[0].city, s.jar.userId, reqs[0].entropy, up, s.log);
      var mid := State(Receive(s.jar, o.response.cookies), o.log);
      ReplayAppends(reqs[1..], mid, up);
      var s' := Replay(reqs, s, up);
      assert s' == Replay(reqs[1..], mid, up);
      assert s'.log[..|s.log|] == s'.log[..|mid.log|][..|s.log|];
    }
  }

  /** Every row a session stores carries `id`, once the jar holds `id` as a usable visitor id. */
  lemma {:induction false} ReplayKeepsVisitor(reqs: seq<Request>, s: State, up: Upstream, id: string)
    requires WellFormed(reqs)
    requires s.jar.userId == Some(id) && id != ""
    ensures var s' := Replay(reqs, s, up);
      && s'.jar.userId == Some(id)
      && forall i :: |s.log| <= i < |s'.log| ==> s'.log[i].userId == id
    decreases |reqs|
  {
    if |reqs| > 0 {
      var o := SearchWeather(reqs[0].city, s.jar.userId, reqs[0].entropy, up, s.log);
      ReceiveSearch(s.jar, reqs[0], up, s.log);
      var mid := State(Receive(s.jar, o.response.cookies), o.log);
      ReplayKeepsVisitor(reqs[1..], mid, up, id);
      ReplayAppends(reqs[1..], mid, up);
      var s' := Replay(reqs, s, up);
      assert s' == Replay(reqs[1..], mid, up);
      forall i | |s.log| <= i < |s'.log|
        ensures s'.log[i].userId == id
      {
        if i < |mid.log| {
          assert s'.log[i] == s'.log[..|mid.log|][i];
        }
      }
    }
  }

  /**
   * All rows one browser stores in a session share one visitor id, even when
   * it starts without a cookie: the first found city mints the id, and the
   * cookie carries it into every later search. This needs every city to be
   * writable as a cookie: a 500 stores its row but sets no cookie, so the next
   * search mints another id (`Scenarios.UnwritableCitySplitsVisitor`).
   */
  lemma {:induction false} ReplaySingleVisitor(reqs: seq<Request>, s: State, up: Upstream)
    requires WellFormed(reqs)
    requires forall i :: 0 <= i < |reqs| ==> Latin1(reqs[i].city)
    ensures var s' := Replay(reqs, s, up);
      forall i, j :: |s.log| <= i < |s'.log| && |s.log| <= j < |s'.log| ==> s'.log[i].userId == s'.log[j].userId
    decreases |reqs|
  {
    if |reqs| > 0 {
      var o := SearchWeather(reqs[0].city, s.jar.userId, reqs[0].entropy, up, s.log);
      ReceiveSearch(s.jar, reqs[0], up, s.log);
      var mid := State(Receive(s.jar, o.response.cookies), o.log);
      var s' := Replay(reqs, s, up);
      assert s' == Replay(reqs[1..], mid, up);
      assert Latin1(reqs[0].city);
      assert forall i :: 0 <= i < |reqs[1..]| ==> reqs[1..][i] == reqs[i + 1];
      if o.response.status == 404 {
        ReplaySingleVisitor(reqs[1..], mid, up);
      } else {
        var id := VisitorId(s.jar.userId, reqs[0].entropy);
        assert mid.jar.userId == Some(id);
        ReplayKeepsVisitor(reqs[1..], mid, up, id);
        ReplayAppends(reqs[1..], mid, up);
        forall i | |s.log| <= i < |s'.log|
          ensures s'.log[i].userId == id
        {
          if i < |mid.log| {
            assert s'.log[i] == s'.log[..|mid.log|][i];
          }
        }
      }
    }
  }
}
