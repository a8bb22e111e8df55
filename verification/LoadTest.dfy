/** The load-test engine: virtual users as coroutines that interleave at their awaits, one shared
    request counter, one bucket of results per endpoint, and the report over the buckets. */
module LoadTest {
  import opened Lists

  type Endpoint = nat

  /** A Python dict from status to count, in insertion order. */
  datatype Count = Count(code: nat, n: nat)
  type Counts = seq<Count>

  datatype Bucket = Bucket(ms: seq<real>, errors: nat, statuses: Counts)
  datatype Entry = Entry(endpoint: Endpoint, bucket: Bucket)

  const EMPTY := Bucket([], 0, [])

  /** How a request ends: a response with an HTTP status, or an exception (status 0). */
  datatype Outcome = Response(status: nat, elapsed: real) | Raised

  predicate IsFailure(code: nat) {
    code == 0 || code >= 400
  }

  // ------------------------------------------------------------------------ dicts

  function Lookup(d: Counts, code: nat): nat {
    if d == [] then 0 else (if d[0].code == code then d[0].n else 0) + Lookup(d[1..], code)
  }

  function Total(d: Counts): nat {
    if d == [] then 0 else d[0].n + Total(d[1..])
  }

  function FailureTotal(d: Counts): nat {
    if d == [] then 0 else (if IsFailure(d[0].code) then d[0].n else 0) + FailureTotal(d[1..])
  }

  /** `d[code] += n` on a dict whose missing entries are 0. */
  function Add(d: Counts, code: nat, n: nat): Counts {
    if d == [] then [Count(code, n)]
    else if d[0].code == code then [Count(code, d[0].n + n)] + d[1..]
    else [d[0]] + Add(d[1..], code, n)
  }

  lemma {:induction false} AddCounts(d: Counts, code: nat, n: nat)
    ensures Total(Add(d, code, n)) == Total(d) + n
    ensures FailureTotal(Add(d, code, n)) == FailureTotal(d) + (if IsFailure(code) then n else 0)
    ensures forall c: nat :: Lookup(Add(d, code, n), c) == Lookup(d, c) + (if c == code then n else 0)
  {
    if d == [] {
      assert [Count(code, n)][1..] == [];
    } else if d[0].code == code {
      assert ([Count(code, d[0].n + n)] + d[1..])[1..] == d[1..];
    } else {
      AddCounts(d[1..], code, n);
      assert ([d[0]] + Add(d[1..], code, n))[1..] == Add(d[1..], code, n);
    }
  }

  // -------------------------------------------------------------------- one request

  function Record(b: Bucket, o: Outcome): Bucket {
    match o
    case Raised => b.(errors := b.errors + 1, statuses := Add(b.statuses, 0, 1))
    case Response(status, elapsed) =>
      var counted := b.(statuses := Add(b.statuses, status, 1));
      if status >= 400 then counted.(errors := counted.errors + 1) else counted.(ms := counted.ms + [elapsed])
  }

  function Requests(b: Bucket): nat {
    |b.ms| + b.errors
  }

  /** Every request of a bucket is a latency sample or an error, and has a status; the failing
      statuses are the errors. */
  ghost predicate Balanced(b: Bucket) {
    Requests(b) == Total(b.statuses) && b.errors == FailureTotal(b.statuses)
  }

  lemma RecordBalances(b: Bucket, o: Outcome)
    requires Balanced(b) && (o.Response? ==> o.status > 0)
    ensures Balanced(Record(b, o)) && Requests(Record(b, o)) == Requests(b) + 1
  {
    AddCounts(b.statuses, if o.Raised? then 0 else o.status, 1);
  }

  // ------------------------------------------------------------------------ buckets

  predicate Known(bs: seq<Entry>, endpoint: Endpoint) {
    exists i :: 0 <= i < |bs| && bs[i].endpoint == endpoint
  }

  /** The bucket of `endpoint`, made on first use. */
  function Touch(bs: seq<Entry>, endpoint: Endpoint): seq<Entry> {
    if Known(bs, endpoint) then bs else bs + [Entry(endpoint, EMPTY)]
  }

  function RecordAt(bs: seq<Entry>, endpoint: Endpoint, o: Outcome): seq<Entry> {
    if bs == [] then []
    else if bs[0].endpoint == endpoint then [bs[0].(bucket := Record(bs[0].bucket, o))] + bs[1..]
    else [bs[0]] + RecordAt(bs[1..], endpoint, o)
  }

  function AllRequests(bs: seq<Entry>): nat {
    if bs == [] then 0 else Requests(bs[0].bucket) + AllRequests(bs[1..])
  }

  function AllStatuses(bs: seq<Entry>): nat {
    if bs == [] then 0 else Total(bs[0].bucket.statuses) + AllStatuses(bs[1..])
  }

  ghost predicate AllBalanced(bs: seq<Entry>) {
    forall i :: 0 <= i < |bs| ==> Balanced(bs[i].bucket)
  }

  lemma {:induction false} RecordAtCounts(bs: seq<Entry>, endpoint: Endpoint, o: Outcome)
    requires AllBalanced(bs) && (o.Response? ==> o.status > 0)
    requires Known(bs, endpoint)
    ensures AllBalanced(RecordAt(bs, endpoint, o))
    ensures AllRequests(RecordAt(bs, endpoint, o)) == AllRequests(bs) + 1
    ensures |RecordAt(bs, endpoint, o)| == |bs|
    ensures forall i :: 0 <= i < |bs| ==> RecordAt(bs, endpoint, o)[i].endpoint == bs[i].endpoint
  {
    hide Record, Requests, Balanced, Total, FailureTotal;
    var r := RecordAt(bs, endpoint, o);
    if bs[0].endpoint == endpoint {
      RecordBalances(bs[0].bucket, o);
      assert r[1..] == bs[1..];
    } else {
      var k :| 0 <= k < |bs| && bs[k].endpoint == endpoint;
      assert bs[1..][k - 1].endpoint == endpoint;
      RecordAtCounts(bs[1..], endpoint, o);
      assert r[1..] == RecordAt(bs[1..], endpoint, o);
    }
  }

  lemma {:induction false} TouchCounts(bs: seq<Entry>, endpoint: Endpoint)
    requires AllBalanced(bs)
    ensures AllBalanced(Touch(bs, endpoint)) && AllRequests(Touch(bs, endpoint)) == AllRequests(bs)
    ensures Known(Touch(bs, endpoint), endpoint)
    ensures forall i :: 0 <= i < |bs| ==> Touch(bs, endpoint)[i] == bs[i]
  {
    if !Known(bs, endpoint) {
      AllRequestsAppend(bs, Entry(endpoint, EMPTY));
      assert Touch(bs, endpoint)[|bs|].endpoint == endpoint;
    }
  }

  lemma {:induction false} AllRequestsAppend(bs: seq<Entry>, e: Entry)
    ensures AllRequests(bs + [e]) == AllRequests(bs) + Requests(e.bucket)
  {
    if bs == [] {
      assert ([] + [e])[1..] == [];
    } else {
      assert (bs + [e])[1..] == bs[1..] + [e];
      AllRequestsAppend(bs[1..], e);
    }
  }

  lemma {:induction false} StatusesAreRequests(bs: seq<Entry>)
    requires AllBalanced(bs)
    ensures AllStatuses(bs) == AllRequests(bs)
  {
    if bs != [] { StatusesAreRequests(bs[1..]); }
  }

  // ------------------------------------------------------------------ the coroutines

  /** A user is before its loop test, awaiting a request, or out of its loop. */
  datatype User = Ready | InFlight(endpoint: Endpoint) | Finished

  datatype World = World(users: seq<User>, done: nat, buckets: seq<Entry>)

  /** `Test`: one evaluation of the loop's condition and, when it holds, the start of a request;
      `pick` is None when the path builder has nothing to fetch and the loop goes round again.
      `Reply`: the awaited request ends. Nothing else runs between two awaits. */
  datatype Event = Test(user: nat, timeLeft: bool, pick: Option<Endpoint>) | Reply(user: nat, outcome: Outcome)

  ghost predicate Enabled(w: World, e: Event) {
    && e.user < |w.users|
    && match e
       case Test(u, _, _) => w.users[u].Ready?
       case Reply(u, o) => w.users[u].InFlight? && (o.Response? ==> o.status > 0)
  }

  function Do(w: World, cap: nat, e: Event): World
    requires e.user < |w.users|
  {
    match e
    case Test(u, timeLeft, pick) =>
      if !(timeLeft && w.done < cap) then w.(users := w.users[u := Finished])
      else if pick == None then w
      else w.(users := w.users[u := InFlight(pick.value)], buckets := Touch(w.buckets, pick.value))
    case Reply(u, o) =>
      if !w.users[u].InFlight? then w
      else World(w.users[u := Ready], w.done + 1, RecordAt(w.buckets, w.users[u].endpoint, o))
  }

  function Run(w: World, cap: nat, events: seq<Event>): World
    decreases |events|
  {
    if events == [] then w
    else if events[0].user >= |w.users| then Run(w, cap, events[1..])
    else Run(Do(w, cap, events[0]), cap, events[1..])
  }

  ghost predicate Possible(w: World, cap: nat, events: seq<Event>)
    decreases |events|
  {
    events == [] || (Enabled(w, events[0]) && Possible(Do(w, cap, events[0]), cap, events[1..]))
  }

  function Start(users: nat): World {
    World(seq(users, _ => Ready), 0, [])
  }

  /** The requests awaited. */
  function Outstanding(users: seq<User>): nat {
    if users == [] then 0 else (if users[0].InFlight? then 1 else 0) + Outstanding(users[1..])
  }

  lemma {:induction false} OutstandingUpdate(users: seq<User>, u: nat, x: User)
    requires u < |users|
    ensures Outstanding(users[u := x]) == Outstanding(users)
              + (if x.InFlight? then 1 else 0) - (if users[u].InFlight? then 1 else 0)
    ensures Outstanding(users) <= |users|
  {
    if u == 0 {
      assert users[0 := x][1..] == users[1..];
      OutstandingBound(users);
    } else {
      assert users[u := x][1..] == users[1..][u - 1 := x];
      OutstandingUpdate(users[1..], u - 1, x);
    }
  }

  lemma {:induction false} OutstandingBound(users: seq<User>)
    ensures Outstanding(users) <= |users|
  {
    if users != [] { OutstandingBound(users[1..]); }
  }

  /** The cap may be overshot by one request for every other user. */
  function Most(users: nat, cap: nat): nat {
    if cap == 0 || users == 0 then 0 else cap + users - 1
  }

  ghost predicate Inv(w: World, users: nat, cap: nat) {
    && |w.users| == users
    && w.done + Outstanding(w.users) <= Most(users, cap)
    && AllBalanced(w.buckets) && w.done == AllRequests(w.buckets)
    && forall u :: 0 <= u < |w.users| && w.users[u].InFlight? ==> Known(w.buckets, w.users[u].endpoint)
  }

  lemma StepKeepsInv(w: World, users: nat, cap: nat, e: Event)
    requires Inv(w, users, cap) && Enabled(w, e)
    ensures Inv(Do(w, cap, e), users, cap)
  {
    var w' := Do(w, cap, e);
    OutstandingUpdate(w.users, e.user, w'.users[e.user]);
    OutstandingBound(w'.users);
    match e
    case Test(u, timeLeft, pick) =>
      if pick.Some? {
        TouchCounts(w.buckets, pick.value);
        forall v | 0 <= v < |w'.users| && w'.users[v].InFlight?
          ensures Known(w'.buckets, w'.users[v].endpoint)
        {
          if v != u {
            var i :| 0 <= i < |w.buckets| && w.buckets[i].endpoint == w.users[v].endpoint;
            assert w'.buckets[i].endpoint == w'.users[v].endpoint;
          }
        }
      }
    case Reply(u, o) =>
      RecordAtCounts(w.buckets, w.users[u].endpoint, o);
      forall v | 0 <= v < |w'.users| && w'.users[v].InFlight?
        ensures Known(w'.buckets, w'.users[v].endpoint)
      {
        var i :| 0 <= i < |w.buckets| && w.buckets[i].endpoint == w.users[v].endpoint;
        assert w'.buckets[i].endpoint == w'.users[v].endpoint;
      }
  }

  lemma {:induction false} RunKeepsInv(w: World, users: nat, cap: nat, events: seq<Event>)
    requires Inv(w, users, cap) && Possible(w, cap, events)
    ensures Inv(Run(w, cap, events), users, cap)
    decreases |events|
  {
    if events != [] {
      StepKeepsInv(w, users, cap, events[0]);
      RunKeepsInv(Do(w, cap, events[0]), users, cap, events[1..]);
    }
  }

  lemma {:induction false} NoneOutstanding(users: seq<User>)
    requires forall u :: 0 <= u < |users| ==> !users[u].InFlight?
    ensures Outstanding(users) == 0
  {
    if users != [] { NoneOutstanding(users[1..]); }
  }

  /** In every interleaving, at every await: completed and awaited requests together stay below the
      cap plus the number of users; every completed request is one latency sample or one error and
      one status; and each bucket's failing statuses are its errors. */
  lemma EveryInterleaving(users: nat, cap: nat, events: seq<Event>)
    requires Possible(Start(users), cap, events)
    ensures var w := Run(Start(users), cap, events);
            && w.done + Outstanding(w.users) <= Most(users, cap)
            && w.done == AllRequests(w.buckets) == AllStatuses(w.buckets)
            && AllBalanced(w.buckets)
  {
    NoneOutstanding(Start(users).users);
    RunKeepsInv(Start(users), users, cap, events);
    StatusesAreRequests(Run(Start(users), cap, events).buckets);
  }

  // -------------------------------------------------------------- the bound is met

  lemma {:induction false} RunAppend(w: World, cap: nat, a: seq<Event>, b: seq<Event>)
    requires Possible(w, cap, a)
    ensures Possible(w, cap, a + b) <==> Possible(Run(w, cap, a), cap, b)
    ensures Run(w, cap, a + b) == Run(Run(w, cap, a), cap, b)
    decreases |a|
  {
    if a == [] {
      assert a + b == b;
    } else {
      assert (a + b)[1..] == a[1..] + b;
      RunAppend(Do(w, cap, a[0]), cap, a[1..], b);
    }
  }

  lemma {:induction false} AllOutstanding(users: seq<User>)
    requires forall u :: 0 <= u < |users| ==> users[u].InFlight?
    ensures Outstanding(users) == |users|
  {
    if users != [] { AllOutstanding(users[1..]); }
  }

  lemma One(w: World, cap: nat, e: Event)
    requires Enabled(w, e)
    ensures Possible(w, cap, [e]) && Run(w, cap, [e]) == Do(w, cap, e)
  {
    assert [e][1..] == [];
  }

  /** The first `k` users start while the cap is open. */
  lemma {:induction false} StartFirst(users: nat, cap: nat, k: nat) returns (events: seq<Event>)
    requires k <= users && cap > 0
    ensures Possible(Start(users), cap, events)
    ensures var w := Run(Start(users), cap, events);
            && w.done == 0 && |w.users| == users
            && forall u :: 0 <= u < users ==> w.users[u] == if u < k then InFlight(0) else Ready
  {
    if k == 0 {
      events := [];
    } else {
      var before := StartFirst(users, cap, k - 1);
      var w, e := Run(Start(users), cap, before), Test(k - 1, true, Some(0));
      One(w, cap, e);
      RunAppend(Start(users), cap, before, [e]);
      events := before + [e];
    }
  }

  ghost predicate Full(w: World, done: nat, users: nat) {
    w.done == done && |w.users| == users && forall u :: 0 <= u < users ==> w.users[u] == InFlight(0)
  }

  /** One user completes `k` requests in a row, starting the next at once, while the others wait. */
  lemma {:induction false} KeepFull(users: nat, cap: nat, k: nat) returns (events: seq<Event>)
    requires users > 0 && k < cap
    ensures Possible(Start(users), cap, events) && Full(Run(Start(users), cap, events), k, users)
  {
    if k == 0 {
      events := StartFirst(users, cap, users);
    } else {
      var before := KeepFull(users, cap, k - 1);
      var w := Run(Start(users), cap, before);
      var reply, test := Reply(0, Raised), Test(0, true, Some(0));
      One(w, cap, reply);
      One(Do(w, cap, reply), cap, test);
      RunAppend(w, cap, [reply], [test]);
      RunAppend(Start(users), cap, before, [reply] + [test]);
      events := before + ([reply] + [test]);
    }
  }

  /** Some run reaches the bound: with one request to go, every user is still awaiting one. */
  lemma BoundIsReached(users: nat, cap: nat) returns (events: seq<Event>)
    requires users > 0 && cap > 0
    ensures Possible(Start(users), cap, events)
    ensures var w := Run(Start(users), cap, events);
            w.done + Outstanding(w.users) == Most(users, cap) == cap + users - 1
  {
    events := KeepFull(users, cap, cap - 1);
    AllOutstanding(Run(Start(users), cap, events).users);
  }

  ghost predicate SomeoneLeft(w: World) {
    exists u :: 0 <= u < |w.users| && w.users[u].Finished?
  }

  /** When time does not run out, users only leave once the cap is met. */
  lemma {:induction false} LeavesOnlyAtCap(w: World, cap: nat, events: seq<Event>)
    requires Possible(w, cap, events)
    requires forall e :: e in events && e.Test? ==> e.timeLeft
    requires SomeoneLeft(w) ==> w.done >= cap
    ensures SomeoneLeft(Run(w, cap, events)) ==> Run(w, cap, events).done >= cap
    ensures |Run(w, cap, events).users| == |w.users|
    decreases |events|
  {
    if events != [] {
      var e := events[0];
      assert e in events;
      var w' := Do(w, cap, e);
      assert SomeoneLeft(w') ==> SomeoneLeft(w) || w.done >= cap by {
        assert w.done < cap ==> forall u :: 0 <= u < |w'.users| && w'.users[u].Finished? ==> w.users[u].Finished?;
      }
      LeavesOnlyAtCap(w', cap, events[1..]);
    }
  }

  /** A test that ends without running out of time made at least `cap` requests, and at most one
      more for each other user. */
  lemma FinishedRunMeetsCap(users: nat, cap: nat, events: seq<Event>)
    requires users > 0 && Possible(Start(users), cap, events)
    requires forall e :: e in events && e.Test? ==> e.timeLeft
    requires forall x :: x in Run(Start(users), cap, events).users ==> x.Finished?
    ensures cap <= Run(Start(users), cap, events).done <= Most(users, cap)
  {
    LeavesOnlyAtCap(Start(users), cap, events);
    EveryInterleaving(users, cap, events);
    var end := Run(Start(users), cap, events);
    assert end.users[0] in end.users;
  }

  // ------------------------------------------------------------------- the report

  function ErrorsOf(bs: seq<Entry>): nat {
    if bs == [] then 0 else bs[0].bucket.errors + ErrorsOf(bs[1..])
  }

  /** How often a status was seen over all buckets. */
  function Seen(bs: seq<Entry>, code: nat): nat {
    if bs == [] then 0 else Lookup(bs[0].bucket.statuses, code) + Seen(bs[1..], code)
  }

  predicate Used(e: Entry) {
    e.bucket.ms != [] || e.bucket.errors > 0
  }

  /** The totals of the report: rows for the endpoints that were used, `ok`, `errors` and
      `requests` over them, and the failures by status. */
  method Report(buckets: seq<Entry>) returns (rows: seq<Entry>, ok: nat, errors: nat, requests: nat, failures: Counts)
    requires AllBalanced(buckets)
    ensures rows == Filter(buckets, Used)
    ensures requests == ok + errors == AllRequests(buckets) && errors == ErrorsOf(buckets)
    ensures Total(failures) == errors
    ensures forall code: nat :: Lookup(failures, code) == if IsFailure(code) then Seen(buckets, code) else 0
  {
    rows := Filter(buckets, Used);
    ok, errors, failures := 0, 0, [];
    for i := 0 to |rows|
      invariant AllRequests(rows[i..]) + ok + errors == AllRequests(rows)
      invariant ErrorsOf(rows[i..]) + errors == ErrorsOf(rows)
    {
      assert rows[i..][1..] == rows[i + 1..];
      ok := ok + |rows[i].bucket.ms|;
      errors := errors + rows[i].bucket.errors;
    }
    requests := ok + errors;
    for i := 0 to |rows|
      invariant Total(failures) + FailuresOf(rows[i..]) == FailuresOf(rows)
      invariant forall c: nat :: Lookup(failures, c) + (if IsFailure(c) then Seen(rows[i..], c) else 0)
                                 == if IsFailure(c) then Seen(rows, c) else 0
    {
      assert rows[i..][1..] == rows[i + 1..];
      failures := AddFailures(failures, rows[i].bucket.statuses);
    }
    UnusedAddNothing(buckets);
  }

  function FailuresOf(bs: seq<Entry>): nat {
    if bs == [] then 0 else FailureTotal(bs[0].bucket.statuses) + FailuresOf(bs[1..])
  }

  /** The failing statuses of one bucket are added to the dict. */
  method AddFailures(d: Counts, statuses: Counts) returns (r: Counts)
    ensures Total(r) == Total(d) + FailureTotal(statuses)
    ensures forall c: nat :: Lookup(r, c) == Lookup(d, c) + if IsFailure(c) then Lookup(statuses, c) else 0
  {
    r := d;
    for i := 0 to |statuses|
      invariant Total(r) + FailureTotal(statuses[i..]) == Total(d) + FailureTotal(statuses)
      invariant forall c: nat :: Lookup(r, c) + (if IsFailure(c) then Lookup(statuses[i..], c) else 0)
                                 == Lookup(d, c) + if IsFailure(c) then Lookup(statuses, c) else 0
    {
      assert statuses[i..][1..] == statuses[i + 1..];
      var s := statuses[i];
      AddCounts(r, s.code, s.n);
      if IsFailure(s.code) { r := Add(r, s.code, s.n); }
    }
  }

  /** An endpoint that was never used has nothing to report. */
  lemma {:induction false} UnusedAddNothing(bs: seq<Entry>)
    requires AllBalanced(bs)
    ensures var rows := Filter(bs, Used);
            && AllRequests(rows) == AllRequests(bs)
            && ErrorsOf(rows) == ErrorsOf(bs) == FailuresOf(rows)
            && forall c: nat :: Seen(rows, c) == Seen(bs, c)
  {
    if bs != [] {
      UnusedAddNothing(bs[1..]);
      var rest := Filter(bs[1..], Used);
      assert ([bs[0]] + rest)[1..] == rest && [] + rest == rest;
      assert Balanced(bs[0].bucket);
      if !Used(bs[0]) {
        forall c: nat ensures Lookup(bs[0].bucket.statuses, c) == 0 { LookupWithin(bs[0].bucket.statuses, c); }
      }
    }
  }

  lemma {:induction false} LookupWithin(d: Counts, code: nat)
    ensures Lookup(d, code) <= Total(d)
  {
    if d != [] { LookupWithin(d[1..], code); }
  }

  /** The report of any finished or interrupted run counts exactly the completed requests, and its
      failures by status add up to its errors. */
  lemma ReportCountsCompleted(users: nat, cap: nat, events: seq<Event>)
    requires Possible(Start(users), cap, events)
    ensures var w := Run(Start(users), cap, events);
            && AllRequests(Filter(w.buckets, Used)) == w.done
            && FailuresOf(Filter(w.buckets, Used)) == ErrorsOf(w.buckets)
  {
    EveryInterleaving(users, cap, events);
    UnusedAddNothing(Run(Start(users), cap, events).buckets);
  }
}
