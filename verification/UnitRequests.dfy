/** Re-parenting requests that overlap. The server reads the proposed parent's ancestry one unit at a
    time, and writes the new parent when the walk has ended: other requests may be read and written in
    between. */
module UnitRequests {
  import opened Lists
  import opened UnitTree

  /** A re-parenting under way: where its walk is and which units it has seen. `disturbed` says that
      another re-parenting has been written since it was asked for. */
  datatype Pending = Pending(unit: Id, parent: Option<Id>, cursor: Option<Id>, seen: set<Id>, disturbed: bool)

  datatype World = World(table: Table, pending: map<nat, Pending>)

  /** `Other` is a creation, an archiving or a restore, which is checked and written at once. */
  datatype Event =
    | Ask(request: nat, unit: Id, parent: Option<Id>)
    | Look(request: nat)
    | Refuse(request: nat)
    | Write(request: nat)
    | Other(edit: Edit)

  predicate Looking(p: Pending) {
    p.cursor.Some? && p.cursor.value !in p.seen
  }

  ghost predicate Enabled(w: World, e: Event) {
    match e
    case Ask(r, unit, parent) =>
      r !in w.pending && unit in w.table.rows && (parent.Some? ==> parent.value in w.table.rows)
    case Look(r) => r in w.pending && Looking(w.pending[r]) && w.pending[r].cursor.value != w.pending[r].unit
    case Refuse(r) => r in w.pending && Looking(w.pending[r]) && w.pending[r].cursor.value == w.pending[r].unit
    case Write(r) => r in w.pending && !Looking(w.pending[r])
    case Other(edit) => !edit.Reparent? && Accepts(w.table, edit)
  }

  function Do(w: World, e: Event): World {
    match e
    case Ask(r, unit, parent) => w.(pending := w.pending[r := Pending(unit, parent, parent, {}, false)])
    case Look(r) =>
      if r !in w.pending || w.pending[r].cursor == None then w
      else
        var p := w.pending[r];
        var next := p.(seen := p.seen + {p.cursor.value}, cursor := ParentOf(w.table.parent, p.cursor.value));
        w.(pending := w.pending[r := next])
    case Refuse(r) => w.(pending := w.pending - {r})
    case Write(r) =>
      if r !in w.pending then w
      else World(Apply(w.table, Reparent(w.pending[r].unit, w.pending[r].parent)),
                 map o | o in w.pending && o != r :: w.pending[o].(disturbed := true))
    case Other(edit) => w.(table := Apply(w.table, edit))
  }

  function Run(w: World, events: seq<Event>): World
    decreases |events|
  {
    if events == [] then w else Run(Do(w, events[0]), events[1..])
  }

  ghost predicate Possible(w: World, events: seq<Event>)
    decreases |events|
  {
    events == [] || (Enabled(w, events[0]) && Possible(Do(w, events[0]), events[1..]))
  }

  /** Units are never forgotten, so the links a request names stay meaningful. */
  ghost predicate Known(w: World) {
    && w.table.Valid()
    && forall r :: r in w.pending ==>
         && w.pending[r].unit in w.table.parent
         && (w.pending[r].parent.Some? ==> w.pending[r].parent.value in w.table.parent)
  }

  /** The write does not close a cycle in the links as they are when it happens. */
  ghost predicate Safe(w: World, r: nat)
    requires r in w.pending
  {
    var p := w.pending[r];
    p.parent.Some? ==> !Reaches(w.table.parent, p.parent.value, p.unit)
  }

  ghost predicate AllSafe(w: World, events: seq<Event>)
    decreases |events|
  {
    events == [] ||
    ((events[0].Write? && events[0].request in w.pending ==> Safe(w, events[0].request))
     && AllSafe(Do(w, events[0]), events[1..]))
  }

  ghost predicate AlwaysForest(w: World, events: seq<Event>)
    decreases |events|
  {
    Forest(w.table) && (events == [] || AlwaysForest(Do(w, events[0]), events[1..]))
  }

  lemma StepKeepsKnown(w: World, e: Event)
    requires Known(w) && Enabled(w, e)
    ensures Known(Do(w, e))
  {
    match e
    case Other(edit) => {
      match edit
      case Archive(unit) => WithoutDistinct(w.table.rows, unit);
      case Restore(_) =>
      case Create(_, _) =>
      case Reparent(_, _) =>
    }
    case Ask(_, _, _) =>
    case Look(_) =>
    case Refuse(_) =>
    case Write(_) =>
  }

  /** Only an unsafe write closes a cycle. */
  lemma StepKeepsForest(w: World, e: Event)
    requires Known(w) && Forest(w.table) && Enabled(w, e)
    ensures Forest(Do(w, e).table) <==> (e.Write? ==> Safe(w, e.request))
  {
    StepKeepsKnown(w, e);
    match e
    case Other(edit) => ApplyKeepsForest(w.table, edit);
    case Write(r) =>
      var p := w.pending[r];
      if p.parent.Some? { ReparentAcyclic(w.table.parent, p.unit, p.parent.value); }
      else { FewerLinksAcyclic(w.table.parent[p.unit := None], w.table.parent); }
    case Ask(_, _, _) =>
    case Look(_) =>
    case Refuse(_) =>
  }

  /** Over any run of overlapping requests the tree stays a tree, if and only if at each write the new
      parent, in the links as they then are, does not lead to the unit. */
  lemma {:induction false} ForestExactly(w: World, events: seq<Event>)
    requires Known(w) && Forest(w.table) && Possible(w, events)
    ensures AlwaysForest(w, events) <==> AllSafe(w, events)
    decreases |events|
  {
    if events != [] {
      hide Known, Forest, Safe, Do;
      var e := events[0];
      StepKeepsKnown(w, e);
      StepKeepsForest(w, e);
      if e.Write? && !Safe(w, e.request) {
        assert !AlwaysForest(Do(w, e), events[1..]);
      } else {
        ForestExactly(Do(w, e), events[1..]);
      }
    }
  }

  // ------------------------------------------------ requests that are not disturbed

  /** The walk has seen the first `n` units above the parent, in these links, and not the unit. */
  ghost predicate WalkedFor(par: Parents, p: Pending, n: nat) {
    p.parent.Some? ==>
      && p.cursor == Up(par, p.parent.value, n)
      && (forall y: Id :: y in p.seen <==> Visited(par, p.parent.value, n, y))
      && p.unit !in p.seen
  }

  ghost predicate Walked(par: Parents, p: Pending) {
    (p.parent == None ==> p.cursor == None) && exists n: nat :: WalkedFor(par, p, n)
  }

  ghost predicate Tracked(w: World) {
    forall r :: r in w.pending && !w.pending[r].disturbed ==> Walked(w.table.parent, w.pending[r])
  }

  lemma AskedIsWalked(par: Parents, unit: Id, parent: Option<Id>)
    ensures Walked(par, Pending(unit, parent, parent, {}, false))
  {
    assert WalkedFor(par, Pending(unit, parent, parent, {}, false), 0);
  }

  lemma LookedIsWalked(par: Parents, p: Pending)
    requires Walked(par, p) && p.cursor.Some? && p.cursor.value != p.unit
    ensures Walked(par, p.(seen := p.seen + {p.cursor.value}, cursor := ParentOf(par, p.cursor.value)))
  {
    var n: nat :| WalkedFor(par, p, n);
    var x, next := p.parent.value, p.(seen := p.seen + {p.cursor.value}, cursor := ParentOf(par, p.cursor.value));
    UpNext(par, x, n);
    forall y: Id ensures y in next.seen <==> Visited(par, x, n + 1, y) {
      if Visited(par, x, n + 1, y) {
        var k: nat :| k < n + 1 && Up(par, x, k) == Some(y);
        if k < n { assert Visited(par, x, n, y); }
      }
      if y in next.seen { VisitedNext(par, x, n, y); }
    }
    assert WalkedFor(par, next, n + 1);
  }

  /** A new unit is above nothing, so it changes no walk. */
  lemma CreatedIsWalked(t: Table, p: Pending, unit: Id, parent: Option<Id>)
    requires t.Valid() && unit !in t.parent && Walked(t.parent, p)
    requires p.parent.Some? ==> p.parent.value in t.parent
    ensures Walked(t.parent[unit := parent], p)
  {
    var changed := t.parent[unit := parent];
    var n: nat :| WalkedFor(t.parent, p, n);
    if p.parent.Some? {
      var x := p.parent.value;
      FreshUnreachable(t, x, unit);
      forall k: nat | k <= n ensures Up(changed, x, k) == Up(t.parent, x, k) {
        SameUntil(t.parent, changed, x, unit, k);
      }
      forall y: Id ensures Visited(changed, x, n, y) <==> Visited(t.parent, x, n, y) {
        if Visited(changed, x, n, y) {
          var k: nat :| k < n && Up(changed, x, k) == Some(y);
          assert Up(t.parent, x, k) == Some(y);
        }
        if Visited(t.parent, x, n, y) {
          var k: nat :| k < n && Up(t.parent, x, k) == Some(y);
          assert Up(changed, x, k) == Some(y);
        }
      }
    }
    assert WalkedFor(changed, p, n);
  }

  lemma StepKeepsTracked(w: World, e: Event)
    requires Known(w) && Tracked(w) && Enabled(w, e)
    ensures Tracked(Do(w, e))
  {
    hide Walked, Table.Valid;
    match e
    case Ask(_, unit, parent) => AskedIsWalked(w.table.parent, unit, parent);
    case Look(r) => if !w.pending[r].disturbed { LookedIsWalked(w.table.parent, w.pending[r]); }
    case Refuse(_) =>
    case Write(_) =>
    case Other(edit) =>
      if edit.Create? {
        forall r | r in w.pending && !w.pending[r].disturbed
          ensures Walked(Do(w, e).table.parent, w.pending[r])
        {
          CreatedIsWalked(w.table, w.pending[r], edit.unit, edit.parent);
        }
      }
  }

  /** A walk that has ended in unchanged links rules the cycle out. */
  lemma UndisturbedIsSafe(w: World, r: nat)
    requires Tracked(w) && Enabled(w, Write(r)) && !w.pending[r].disturbed
    ensures Safe(w, r)
  {
    var par, p := w.table.parent, w.pending[r];
    assert Walked(par, p);
    var n: nat :| WalkedFor(par, p, n);
    if p.parent.Some? { NeverReached(par, p.parent.value, p.unit, n); }
  }

  /** No re-parenting is written between another's request and its write. */
  ghost predicate NoneDisturbed(w: World, events: seq<Event>)
    decreases |events|
  {
    events == [] ||
    ((events[0].Write? && events[0].request in w.pending ==> !w.pending[events[0].request].disturbed)
     && NoneDisturbed(Do(w, events[0]), events[1..]))
  }

  /** Then the guard does its work: whatever clients send, the tree stays a tree. */
  lemma {:induction false} UndisturbedKeepsForest(w: World, events: seq<Event>)
    requires Known(w) && Forest(w.table) && Tracked(w) && Possible(w, events) && NoneDisturbed(w, events)
    ensures AlwaysForest(w, events) && Forest(Run(w, events).table)
    decreases |events|
  {
    if events != [] {
      hide Known, Forest, Safe, Do, Tracked;
      var e := events[0];
      if e.Write? { UndisturbedIsSafe(w, e.request); }
      StepKeepsKnown(w, e);
      StepKeepsForest(w, e);
      StepKeepsTracked(w, e);
      UndisturbedKeepsForest(Do(w, e), events[1..]);
    }
  }

  // ------------------------------------------------ two requests that close a cycle

  ghost predicate Takes(w: World, e: Event, next: World) {
    Enabled(w, e) && next == Do(w, e)
  }

  /** A run, followed through its states. */
  lemma {:induction false} Follow(states: seq<World>, events: seq<Event>)
    requires |states| == |events| + 1
    requires forall i :: 0 <= i < |events| ==> Takes(states[i], events[i], states[i + 1])
    ensures Possible(states[0], events) && Run(states[0], events) == states[|events|]
  {
    if events != [] {
      assert Takes(states[0], events[0], states[1]);
      Follow(states[1..], events[1..]);
    }
  }

  /** Two roots are each moved under the other; both walks end before either write. */
  function Crossing(): seq<World> {
    var t := Table(map[1 := None, 2 := None], [1, 2]);
    var a, b := Pending(1, Some(2), Some(2), {}, false), Pending(2, Some(1), Some(1), {}, false);
    var a', b' := a.(cursor := None, seen := {2}), b.(cursor := None, seen := {1});
    [World(t, map[]),
     World(t, map[0 := a]),
     World(t, map[0 := a, 1 := b]),
     World(t, map[0 := a', 1 := b]),
     World(t, map[0 := a', 1 := b']),
     World(t.(parent := map[1 := Some(2), 2 := None]), map[1 := b'.(disturbed := true)]),
     World(t.(parent := map[1 := Some(2), 2 := Some(1)]), map[])]
  }

  lemma CrossingAsks()
    ensures var s := Crossing(); Takes(s[0], Ask(0, 1, Some(2)), s[1]) && Takes(s[1], Ask(1, 2, Some(1)), s[2])
  {
  }

  lemma CrossingLooks()
    ensures var s := Crossing(); Takes(s[2], Look(0), s[3]) && Takes(s[3], Look(1), s[4])
  {
    var none: set<Id> := {};
    assert none + {2} == {2} && none + {1} == {1};
  }

  lemma CrossingWrites()
    ensures var s := Crossing(); Takes(s[4], Write(0), s[5]) && Takes(s[5], Write(1), s[6])
  {
  }

  lemma CrossingIsCyclic()
    ensures Forest(Crossing()[0].table) && !Acyclic(Crossing()[6].table.parent)
  {
    var s := Crossing();
    var par := s[6].table.parent;
    assert Up(par, 1, 2) == Up(par, 2, 1) == Up(par, 1, 0) == Some(1);
    forall x: Id, n: nat | n > 0 ensures Up(s[0].table.parent, x, n) == None {}
  }

  /** Both pass the guard, and together they close a cycle. */
  lemma OverlapClosesCycle()
    ensures var w := Crossing()[0];
            var events := [Ask(0, 1, Some(2)), Ask(1, 2, Some(1)), Look(0), Look(1), Write(0), Write(1)];
            Forest(w.table) && Possible(w, events) && !Acyclic(Run(w, events).table.parent)
  {
    CrossingAsks();
    CrossingLooks();
    CrossingWrites();
    CrossingIsCyclic();
    hide Takes, Acyclic, Forest, Run, Possible;
    Follow(Crossing(), [Ask(0, 1, Some(2)), Ask(1, 2, Some(1)), Look(0), Look(1), Write(0), Write(1)]);
  }

  // ---------------------------------------------------------- what becomes of a request

  ghost predicate Ends(e: Event, r: nat) {
    e == Refuse(r) || e == Write(r)
  }

  /** The request is asked for at `i` and neither refused nor written after that. */
  ghost predicate OpenFrom(events: seq<Event>, i: int, r: nat) {
    && 0 <= i < |events| && events[i].Ask? && events[i].request == r
    && forall e :: e in events[i + 1..] ==> !Ends(e, r)
  }

  lemma OpenLater(events: seq<Event>, i: int, r: nat)
    requires events != []
    ensures i != 0 ==> (OpenFrom(events, i, r) <==> OpenFrom(events[1..], i - 1, r))
    ensures OpenFrom(events, 0, r) <==>
            events[0].Ask? && events[0].request == r && forall e :: e in events[1..] ==> !Ends(e, r)
    ensures OpenFrom(events, i, r) ==> i >= 0
  {
    hide Ends;
    if 0 < i < |events| { assert events[1..][(i - 1) + 1..] == events[i + 1..]; }
  }

  /** A request is under way exactly from when it is asked for until it is refused or written. */
  lemma {:induction false} PendingExactly(w: World, events: seq<Event>, r: nat)
    requires Possible(w, events)
    ensures r in Run(w, events).pending <==>
            (r in w.pending && forall e :: e in events ==> !Ends(e, r)) || exists i :: OpenFrom(events, i, r)
    decreases |events|
  {
    if events != [] {
      var e, rest := events[0], events[1..];
      assert events == [e] + rest;
      PendingExactly(Do(w, e), rest, r);
      StepPending(w, e, r);
      hide Do, Enabled, Possible, OpenFrom, Ends;
      OpenLater(events, 0, r);
      if i :| OpenFrom(events, i, r) { OpenLater(events, i, r); }
      if i :| OpenFrom(rest, i, r) {
        OpenLater(rest, i, r);
        OpenLater(events, i + 1, r);
      }
    }
  }

  lemma StepPending(w: World, e: Event, r: nat)
    requires Enabled(w, e)
    ensures r in Do(w, e).pending <==> (e.Ask? && e.request == r) || (r in w.pending && !Ends(e, r))
  {
  }
}
