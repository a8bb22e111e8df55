/** What the buckets of a load test hold, told from the events of the run alone. */
module LoadTally {
  import opened Lists
  import opened LoadTest

  // -------------------------------------------------------------- the users' own events

  function Completed(events: seq<Event>): nat
    decreases |events|
  {
    if events == [] then 0
    else Completed(events[..|events| - 1]) + if events[|events| - 1].Reply? then 1 else 0
  }

  /** Where a user stands: its last own event decides, together with how many requests were complete
      when it last evaluated its loop's condition. */
  function StandsAt(events: seq<Event>, cap: nat, u: nat): User
    decreases |events|
  {
    if events == [] then Ready
    else
      var pre, e := events[..|events| - 1], events[|events| - 1];
      if e.user != u then StandsAt(pre, cap, u)
      else if e.Reply? then Ready
      else if !e.timeLeft || cap <= Completed(pre) then Finished
      else if e.pick == None then Ready
      else InFlight(e.pick.value)
  }

  /** A run of one more event. */
  lemma LastEvent(users: nat, cap: nat, pre: seq<Event>, e: Event)
    requires Possible(Start(users), cap, pre + [e])
    ensures var w := Run(Start(users), cap, pre);
            && Possible(Start(users), cap, pre) && Enabled(w, e)
            && Run(Start(users), cap, pre + [e]) == Do(w, cap, e)
  {
    PossiblePrefix(Start(users), cap, pre, [e]);
    RunAppend(Start(users), cap, pre, [e]);
    var w := Run(Start(users), cap, pre);
    assert Possible(w, cap, [e]) ==> Enabled(w, e);
    One(w, cap, e);
  }

  lemma {:induction false} PossiblePrefix(w: World, cap: nat, a: seq<Event>, b: seq<Event>)
    requires Possible(w, cap, a + b)
    ensures Possible(w, cap, a)
    decreases |a|
  {
    if a != [] {
      assert (a + b)[1..] == a[1..] + b;
      PossiblePrefix(Do(w, cap, a[0]), cap, a[1..], b);
    }
  }

  /** In every interleaving each user stands where its own events put it, and the shared counter counts the
      completed requests. */
  lemma {:induction false} UsersFollowTheirEvents(users: nat, cap: nat, events: seq<Event>)
    requires Possible(Start(users), cap, events)
    ensures var w := Run(Start(users), cap, events);
            && |w.users| == users && w.done == Completed(events)
            && forall u :: 0 <= u < users ==> w.users[u] == StandsAt(events, cap, u)
    decreases |events|
  {
    if events != [] {
      var n := |events| - 1;
      var pre, e := events[..n], events[n];
      assert events == pre + [e];
      LastEvent(users, cap, pre, e);
      UsersFollowTheirEvents(users, cap, pre);
      hide Run, Possible, Touch, RecordAt;
    }
  }

  // ------------------------------------------------------------------ an endpoint's answers

  /** How the requests to an endpoint ended, in the order they did. */
  function Answers(events: seq<Event>, cap: nat, endpoint: Endpoint): seq<Outcome>
    decreases |events|
  {
    if events == [] then []
    else
      var pre, e := events[..|events| - 1], events[|events| - 1];
      Answers(pre, cap, endpoint)
      + if e.Reply? && StandsAt(pre, cap, e.user) == InFlight(endpoint) then [e.outcome] else []
  }

  /** The elapsed times of the successful ones. */
  function Times(os: seq<Outcome>): seq<real> {
    if os == [] then []
    else (if os[0].Response? && os[0].status < 400 then [os[0].elapsed] else []) + Times(os[1..])
  }

  /** How many came back with a status; an exception counts as status 0. */
  function Having(os: seq<Outcome>, code: nat): nat {
    if os == [] then 0
    else (if (if os[0].Raised? then 0 else os[0].status) == code then 1 else 0) + Having(os[1..], code)
  }

  function Failed(os: seq<Outcome>): nat {
    if os == [] then 0 else (if os[0].Raised? || os[0].status >= 400 then 1 else 0) + Failed(os[1..])
  }

  ghost predicate Tallies(b: Bucket, os: seq<Outcome>) {
    b.ms == Times(os) && b.errors == Failed(os) && forall code: nat :: Lookup(b.statuses, code) == Having(os, code)
  }

  lemma {:induction false} OneMore(os: seq<Outcome>, o: Outcome)
    ensures Times(os + [o]) == Times(os) + if o.Response? && o.status < 400 then [o.elapsed] else []
    ensures Failed(os + [o]) == Failed(os) + if o.Raised? || o.status >= 400 then 1 else 0
    ensures forall code: nat ::
              Having(os + [o], code) == Having(os, code) + if (if o.Raised? then 0 else o.status) == code then 1 else 0
  {
    if os == [] {
      assert [] + [o] == [o] && [o][1..] == [];
    } else {
      assert (os + [o])[1..] == os[1..] + [o] && (os + [o])[0] == os[0];
      OneMore(os[1..], o);
    }
  }

  lemma RecordTallies(b: Bucket, os: seq<Outcome>, o: Outcome)
    requires Tallies(b, os)
    ensures Tallies(Record(b, o), os + [o])
  {
    hide Times, Failed, Having, Lookup, Add;
    OneMore(os, o);
    AddCounts(b.statuses, if o.Raised? then 0 else o.status, 1);
  }

  // ---------------------------------------------------------------------------- the buckets

  ghost predicate OneEach(bs: seq<Entry>) {
    forall i, j :: 0 <= i < j < |bs| ==> bs[i].endpoint != bs[j].endpoint
  }

  /** The endpoint's bucket tallies these answers; without a bucket there are none. */
  ghost predicate Books(bs: seq<Entry>, endpoint: Endpoint, os: seq<Outcome>) {
    && (forall i :: 0 <= i < |bs| && bs[i].endpoint == endpoint ==> Tallies(bs[i].bucket, os))
    && (!Known(bs, endpoint) ==> os == [])
  }

  lemma {:induction false} RecordAtOne(bs: seq<Entry>, endpoint: Endpoint, o: Outcome)
    requires OneEach(bs)
    ensures var r := RecordAt(bs, endpoint, o);
            |r| == |bs| && forall i :: 0 <= i < |bs| ==>
              r[i] == if bs[i].endpoint == endpoint then Entry(endpoint, Record(bs[i].bucket, o)) else bs[i]
  {
    hide Record;
    if bs != [] {
      RecordAtOne(bs[1..], endpoint, o);
    }
  }

  lemma TouchBooks(bs: seq<Entry>, touched: Endpoint, endpoint: Endpoint, os: seq<Outcome>)
    requires OneEach(bs) && Books(bs, endpoint, os)
    ensures OneEach(Touch(bs, touched)) && Books(Touch(bs, touched), endpoint, os)
  {
    if !Known(bs, touched) {
      assert Tallies(EMPTY, []);
      hide Tallies;
      var r := Touch(bs, touched);
      if Known(bs, endpoint) {
        var i :| 0 <= i < |bs| && bs[i].endpoint == endpoint;
        assert r[i].endpoint == endpoint;
      }
    }
  }

  lemma RecordBooks(bs: seq<Entry>, replied: Endpoint, o: Outcome, endpoint: Endpoint, os: seq<Outcome>)
    requires OneEach(bs) && Known(bs, replied) && Books(bs, endpoint, os)
    ensures OneEach(RecordAt(bs, replied, o))
    ensures Books(RecordAt(bs, replied, o), endpoint, os + if endpoint == replied then [o] else [])
  {
    hide Tallies, Record;
    RecordAtOne(bs, replied, o);
    var r := RecordAt(bs, replied, o);
    if Known(bs, endpoint) {
      var i :| 0 <= i < |bs| && bs[i].endpoint == endpoint;
      assert r[i].endpoint == endpoint;
      RecordTallies(bs[i].bucket, os, o);
    }
    assert os + [] == os;
  }

  /** Some user started a request to the endpoint. */
  ghost predicate Started(events: seq<Event>, cap: nat, endpoint: Endpoint) {
    exists i :: 0 <= i < |events| && Starts(events, cap, i, endpoint)
  }

  ghost predicate Starts(events: seq<Event>, cap: nat, i: nat, endpoint: Endpoint)
    requires i < |events|
  {
    && events[i].Test? && events[i].timeLeft && events[i].pick == Some(endpoint)
    && Completed(events[..i]) < cap
  }

  lemma StartedStep(pre: seq<Event>, e: Event, cap: nat, endpoint: Endpoint)
    ensures Started(pre + [e], cap, endpoint)
            <==> Started(pre, cap, endpoint)
                 || (e.Test? && e.timeLeft && e.pick == Some(endpoint) && Completed(pre) < cap)
  {
    hide Completed;
    var events, n := pre + [e], |pre|;
    assert events[..n] == pre;
    forall i | 0 <= i < n ensures Starts(events, cap, i, endpoint) <==> Starts(pre, cap, i, endpoint) {
      assert events[..i] == pre[..i];
    }
    assert Starts(events, cap, n, endpoint)
           <==> e.Test? && e.timeLeft && e.pick == Some(endpoint) && Completed(pre) < cap;
  }

  lemma StepBooks(w: World, users: nat, cap: nat, e: Event, endpoint: Endpoint, os: seq<Outcome>)
    requires Inv(w, users, cap) && Enabled(w, e)
    requires OneEach(w.buckets) && Books(w.buckets, endpoint, os)
    ensures var w' := Do(w, cap, e);
            && OneEach(w'.buckets)
            && Books(w'.buckets, endpoint,
                     os + if e.Reply? && w.users[e.user] == InFlight(endpoint) then [e.outcome] else [])
            && (Known(w'.buckets, endpoint) <==>
                  Known(w.buckets, endpoint)
                  || (e.Test? && e.timeLeft && e.pick == Some(endpoint) && w.done < cap))
  {
    hide Books, OneEach, RecordAt, AllBalanced, AllRequests;
    assert os + [] == os;
    match e
    case Test(u, timeLeft, pick) =>
      if pick.Some? {
        TouchBooks(w.buckets, pick.value, endpoint, os);
        TouchKnown(w.buckets, pick.value, endpoint);
      }
    case Reply(u, o) =>
      RecordBooks(w.buckets, w.users[u].endpoint, o, endpoint, os);
      RecordKnown(w.buckets, w.users[u].endpoint, o, endpoint);
  }

  lemma TouchKnown(bs: seq<Entry>, touched: Endpoint, endpoint: Endpoint)
    ensures Known(Touch(bs, touched), endpoint) <==> Known(bs, endpoint) || endpoint == touched
  {
    var r := Touch(bs, touched);
    if Known(bs, endpoint) {
      var i :| 0 <= i < |bs| && bs[i].endpoint == endpoint;
      assert r[i].endpoint == endpoint;
    }
    if !Known(bs, touched) { assert r[|bs|].endpoint == touched; }
  }

  lemma RecordKnown(bs: seq<Entry>, replied: Endpoint, o: Outcome, endpoint: Endpoint)
    requires OneEach(bs)
    ensures Known(RecordAt(bs, replied, o), endpoint) <==> Known(bs, endpoint)
  {
    hide Record;
    RecordAtOne(bs, replied, o);
    var r := RecordAt(bs, replied, o);
    forall i | 0 <= i < |bs| ensures r[i].endpoint == bs[i].endpoint {}
  }

  /** In every interleaving an endpoint has one bucket from its first request on, and it holds that endpoint's
      answers and no others: the elapsed times of the successful ones in order, the number that failed, and how
      many came back with each status. */
  lemma {:induction false} EachEndpointsBucket(users: nat, cap: nat, events: seq<Event>, endpoint: Endpoint)
    requires Possible(Start(users), cap, events)
    ensures var bs := Run(Start(users), cap, events).buckets;
            && OneEach(bs)
            && Books(bs, endpoint, Answers(events, cap, endpoint))
            && (Known(bs, endpoint) <==> Started(events, cap, endpoint))
    decreases |events|
  {
    if events != [] {
      var n := |events| - 1;
      var pre, e := events[..n], events[n];
      assert events == pre + [e];
      LastEvent(users, cap, pre, e);
      EachEndpointsBucket(users, cap, pre, endpoint);
      UsersFollowTheirEvents(users, cap, pre);
      NoneOutstanding(Start(users).users);
      RunKeepsInv(Start(users), users, cap, pre);
      var w := Run(Start(users), cap, pre);
      hide Run, Possible, Books, OneEach, Known, Started, Inv, StandsAt;
      StepBooks(w, users, cap, e, endpoint, Answers(pre, cap, endpoint));
      StartedStep(pre, e, cap, endpoint);
    }
  }
}
