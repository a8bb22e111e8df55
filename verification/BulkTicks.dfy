/** What the user's ticks, the scans and the accept leave behind over whole runs of the dialog, told from the
    events alone. */
module BulkTicks {
  import opened Lists
  import opened BulkReview
  import opened BulkAccept

  // ------------------------------------------------------------- the last word on a pair

  /** Some group of a page suggests the pair as a strong match. */
  ghost predicate StrongIn(groups: seq<Group>, p: Pair) {
    exists g, x :: g in groups && x in g.suggestions && p == Pair(g.control, x.requirement)
      && x.score >= STRONG_SUGGESTION
  }

  /** The event ticks the pair: a flip of the unticked pair, a bulk select that holds it, or a page
      answered to the current scan with the pair as a strong match. */
  ghost predicate Ticks(w: World, e: Event, p: Pair) {
    match e
    case Act(Flip(k)) => k == p && p !in w.ui.picked
    case Act(SetMany(ks, on)) => on && p in ks
    case Reply(run, Page(groups, _, _, _, _)) => run == w.token && StrongIn(groups, p)
    case _ => false
  }

  /** The event unticks the pair: a flip of the ticked pair, a bulk deselect that holds it, "Clear",
      or the start of another scan. */
  ghost predicate Unticks(w: World, e: Event, p: Pair) {
    match e
    case Act(Flip(k)) => k == p && p in w.ui.picked
    case Act(SetMany(ks, on)) => !on && p in ks
    case Act(Clear) => true
    case Start(_) => true
    case _ => false
  }

  /** Some event of the run ticks the pair and none after it unticks it. */
  ghost predicate LastTicked(events: seq<Event>, p: Pair) {
    exists i :: 0 <= i < |events| && StaysTicked(events, i, p)
  }

  ghost predicate StaysTicked(events: seq<Event>, i: nat, p: Pair)
    requires i < |events|
  {
    && Ticks(Run(START, events[..i]), events[i], p)
    && forall j :: i < j < |events| ==> !Unticks(Run(START, events[..j]), events[j], p)
  }

  lemma StrongInSplits(g: Group, rest: seq<Group>, p: Pair)
    ensures StrongIn([g] + rest, p) <==> StrongIn([g], p) || StrongIn(rest, p)
  {
    assert g in [g] + rest;
  }

  lemma StrongPairsParts(groups: seq<Group>, p: Pair)
    ensures groups == [] ==> p !in StrongPairs(groups) && !StrongIn(groups, p)
    ensures groups != [] ==> StrongPairs(groups) == PairsOf(Strong(groups[0])) + StrongPairs(groups[1..])
  {
    hide PairsOf, Strong;
  }

  lemma {:induction false} StrongPairsMember(groups: seq<Group>, p: Pair)
    ensures p in StrongPairs(groups) <==> StrongIn(groups, p)
  {
    StrongPairsParts(groups, p);
    hide StrongIn, StrongPairs, PairsOf, Strong;
    if groups != [] {
      StrongOfGroup(groups[0], p);
      StrongPairsMember(groups[1..], p);
      StrongInSplits(groups[0], groups[1..], p);
      assert groups == [groups[0]] + groups[1..];
    }
  }

  lemma StrongOfGroup(g: Group, p: Pair)
    ensures p in PairsOf(Strong(g)) <==> StrongIn([g], p)
  {
    PairsOfGroup(Strong(g), p);
    assert g in [g];
  }

  lemma PageTicks(ui: Ui, page: seq<Group>, p: Pair)
    ensures p in AddPage(ui, page).picked <==> p in ui.picked || StrongIn(page, p)
  {
    hide StrongPairs, IncludeAll;
    var withAny := Filter(page, HasAny);
    IncludeAllMembers(ui.picked, StrongPairs(withAny));
    StrongPairsMember(withAny, p);
    assert StrongIn(withAny, p) <==> StrongIn(page, p);
  }

  lemma ActTicks(w: World, t: Tick, p: Pair)
    ensures p in Do(w, Act(t)).ui.picked
            <==> Ticks(w, Act(t), p) || (p in w.ui.picked && !Unticks(w, Act(t), p))
  {
    hide IncludeAll, Without, Filter;
    match t
    case SetMany(ks, on) => IncludeAllMembers(w.ui.picked, ks);
    case Flip(k) =>
    case Clear =>
    case SetFramework(_) =>
    case ShowMore =>
  }

  lemma ReplyTicks(w: World, run: nat, a: Answer, p: Pair)
    requires Enabled(w, Reply(run, a))
    ensures p in Do(w, Reply(run, a)).ui.picked <==> Ticks(w, Reply(run, a), p) || p in w.ui.picked
  {
    hide AddPage, StrongIn;
    if run == w.token && a.Page? { PageTicks(w.ui, a.groups, p); }
  }

  lemma StepTicks(w: World, e: Event, p: Pair)
    requires Enabled(w, e)
    ensures p in Do(w, e).ui.picked <==> Ticks(w, e, p) || (p in w.ui.picked && !Unticks(w, e, p))
  {
    match e
    case Act(t) => ActTicks(w, t, p);
    case Reply(run, a) => ReplyTicks(w, run, a, p);
    case Start(_) =>
    case Close =>
    case Accepting(_) =>
  }

  /** A run of one more event, and the states its prefixes leave. */
  lemma LastEvent(pre: seq<Event>, e: Event)
    requires Possible(START, pre + [e])
    ensures Possible(START, pre) && Enabled(Run(START, pre), e)
    ensures Run(START, pre + [e]) == Do(Run(START, pre), e)
    ensures forall i :: 0 <= i <= |pre| ==> (pre + [e])[..i] == pre[..i]
  {
    hide Do, Enabled;
    RunAppend(START, pre, [e]);
    var w := Run(START, pre);
    assert [e][1..] == [];
    assert Run(w, [e]) == Run(Do(w, e), []);
    assert Possible(w, [e]) <==> Enabled(w, e) && Possible(Do(w, e), []);
  }

  lemma LastTickedStep(pre: seq<Event>, e: Event, p: Pair)
    requires forall i :: 0 <= i <= |pre| ==> (pre + [e])[..i] == pre[..i]
    ensures var w := Run(START, pre);
            LastTicked(pre + [e], p) <==> Ticks(w, e, p) || (LastTicked(pre, p) && !Unticks(w, e, p))
  {
    hide Run, Ticks, Unticks;
    var events, n := pre + [e], |pre|;
    assert events[n] == e && events[..n] == pre[..n] == pre;
    if Ticks(Run(START, pre), e, p) { assert StaysTicked(events, n, p); }
    if i :| 0 <= i < n && StaysTicked(pre, i, p) && !Unticks(Run(START, pre), e, p) {
      assert StaysTicked(events, i, p);
    }
    if i :| 0 <= i < n && StaysTicked(events, i, p) {
      assert events[i] == pre[i];
      assert forall j :: i < j < n ==> events[j] == pre[j];
      assert StaysTicked(pre, i, p);
    }
  }

  /** After any run a pair is ticked if and only if the last event that concerns it ticked it. */
  lemma {:induction false} LastWordDecides(events: seq<Event>, p: Pair)
    requires Possible(START, events)
    ensures p in Run(START, events).ui.picked <==> LastTicked(events, p)
    decreases |events|
  {
    if events != [] {
      var n := |events| - 1;
      var pre, e := events[..n], events[n];
      assert events == pre + [e];
      LastEvent(pre, e);
      LastWordDecides(pre, p);
      StepTicks(Run(START, pre), e, p);
      hide Run, Possible, Ticks, Unticks, Do, LastTicked;
      LastTickedStep(pre, e, p);
    }
  }

  /** Accept sends a pair if and only if the last word on it ticked it and a group on the list suggests it in the
      chosen framework: a strong match the user unticks again is not sent. */
  lemma SentExactly(events: seq<Event>, p: Pair)
    requires Possible(START, events)
    ensures var ui := Run(START, events).ui;
            p in Submitted(ui) <==> LastTicked(events, p) && Suggests(ui.groups, ui.framework, p)
  {
    hide Run, Possible, LastTicked, Suggests, Visible, AllPairs;
    LastWordDecides(events, p);
    ShownPairs(Run(START, events).ui, p);
  }

  // ------------------------------------------------------------------- the order of ticks

  ghost predicate Precedes(s: seq<Pair>, p: Pair, q: Pair) {
    exists a, b :: 0 <= a < b < |s| && s[a] == p && s[b] == q
  }

  /** The pair was not ticked before event `i`, which ticks it, and has not been unticked since. */
  ghost predicate TickedSince(events: seq<Event>, i: int, p: Pair) {
    0 <= i < |events| && p !in Run(START, events[..i]).ui.picked && StaysTicked(events, i, p)
  }

  lemma PrecedesParts(a: seq<Pair>, b: seq<Pair>, p: Pair, q: Pair)
    requires p in a && q in b
    ensures Precedes(a + b, p, q)
  {
    var i :| 0 <= i < |a| && a[i] == p;
    var j :| 0 <= j < |b| && b[j] == q;
    assert (a + b)[i] == p && (a + b)[|a| + j] == q;
  }

  lemma PrecedesTail(s: seq<Pair>, p: Pair, q: Pair)
    requires s != []
    ensures Precedes(s, p, q) <==> Precedes(s[1..], p, q) || (s[0] == p && q in s[1..])
  {
    var rest := s[1..];
    if a, b :| 0 <= a < b < |s| && s[a] == p && s[b] == q {
      assert rest[b - 1] == q;
      if a > 0 { assert rest[a - 1] == p; }
    }
    if a, b :| 0 <= a < b < |rest| && rest[a] == p && rest[b] == q { assert s[a + 1] == p && s[b + 1] == q; }
    if s[0] == p && q in rest {
      var b :| 0 <= b < |rest| && rest[b] == q;
      assert s[b + 1] == q;
    }
  }

  lemma {:induction false} PrecedesFiltered(s: seq<Pair>, keep: Pair -> bool, p: Pair, q: Pair)
    requires Precedes(s, p, q) && keep(p) && keep(q)
    ensures Precedes(Filter(s, keep), p, q)
  {
    PrecedesTail(s, p, q);
    if Precedes(s[1..], p, q) { PrecedesFiltered(s[1..], keep, p, q); }
    var r := Filter(s, keep);
    assert r == (if keep(s[0]) then [s[0]] else []) + Filter(s[1..], keep);
    if keep(s[0]) {
      assert r[1..] == Filter(s[1..], keep);
      PrecedesTail(r, p, q);
    } else {
      assert r == Filter(s[1..], keep);
    }
  }

  lemma {:induction false} WithoutIsFilter(s: seq<Pair>, k: Pair)
    ensures Without(s, k) == Filter(s, x => x != k)
  {
    if s != [] { WithoutIsFilter(s[1..], k); }
  }

  /** The ticks that stay do so in order, and new ones come after them. */
  ghost predicate Extends(before: seq<Pair>, after: seq<Pair>, p: Pair, q: Pair) {
    p in after && q in after && p in before && (q in before ==> Precedes(before, p, q)) ==> Precedes(after, p, q)
  }

  lemma FilterExtends(s: seq<Pair>, keep: Pair -> bool, p: Pair, q: Pair)
    ensures Extends(s, Filter(s, keep), p, q)
  {
    hide Precedes, Filter;
    if keep(p) && keep(q) && Precedes(s, p, q) { PrecedesFiltered(s, keep, p, q); }
  }

  lemma IncludeExtends(s: seq<Pair>, more: seq<Pair>, p: Pair, q: Pair)
    ensures Extends(s, IncludeAll(s, more), p, q)
  {
    hide IncludeAll;
    IncludeAllMembers(s, more);
    var r := IncludeAll(s, more);
    assert r == s + r[|s|..];
    if p in s && q !in s && q in r {
      assert q in r[|s|..];
      PrecedesParts(s, r[|s|..], p, q);
    }
    if a, b :| 0 <= a < b < |s| && s[a] == p && s[b] == q { assert r[a] == p && r[b] == q; }
  }

  lemma ActExtends(ui: Ui, t: Tick, p: Pair, q: Pair)
    ensures Extends(ui.picked, Apply(ui, t).picked, p, q)
  {
    hide IncludeAll, Without, Filter, Precedes;
    match t
    case Flip(k) =>
      WithoutIsFilter(ui.picked, k);
      FilterExtends(ui.picked, x => x != k, p, q);
      if p in ui.picked && q == k && q !in ui.picked { PrecedesParts(ui.picked, [k], p, q); }
      if Precedes(ui.picked, p, q) { PrecedesMore(ui.picked, [k], p, q); }
    case SetMany(ks, on) =>
      IncludeExtends(ui.picked, ks, p, q);
      FilterExtends(ui.picked, x => x !in ks, p, q);
    case Clear =>
    case SetFramework(_) =>
    case ShowMore =>
  }

  lemma PrecedesMore(s: seq<Pair>, more: seq<Pair>, p: Pair, q: Pair)
    requires Precedes(s, p, q)
    ensures Precedes(s + more, p, q)
  {
    var a, b :| 0 <= a < b < |s| && s[a] == p && s[b] == q;
    assert (s + more)[a] == p && (s + more)[b] == q;
  }

  lemma StepExtends(w: World, e: Event, p: Pair, q: Pair)
    ensures Extends(w.ui.picked, Do(w, e).ui.picked, p, q)
  {
    hide IncludeAll, Apply, Precedes, StrongPairs;
    match e
    case Act(t) => ActExtends(w.ui, t, p, q);
    case Reply(run, a) =>
      if a.Page? { IncludeExtends(w.ui.picked, StrongPairs(Filter(a.groups, HasAny)), p, q); }
    case Start(_) =>
    case Close =>
    case Accepting(_) =>
  }

  lemma SinceEarlier(pre: seq<Event>, e: Event, i: int, p: Pair)
    requires forall k :: 0 <= k <= |pre| ==> (pre + [e])[..k] == pre[..k]
    requires TickedSince(pre + [e], i, p)
    ensures i < |pre| ==> TickedSince(pre, i, p)
    ensures i == |pre| ==> p !in Run(START, pre).ui.picked
  {
    hide Run, Ticks, Unticks;
    var events, n := pre + [e], |pre|;
    assert events[..n] == pre[..n] == pre;
    if i < n {
      assert events[i] == pre[i];
      assert forall j :: i < j < n ==> events[j] == pre[j];
    }
  }

  /** Pairs stand in the order in which they were last ticked. */
  lemma {:induction false} TicksInOrder(events: seq<Event>, i: int, j: int, p: Pair, q: Pair)
    requires Possible(START, events) && i < j && TickedSince(events, i, p) && TickedSince(events, j, q)
    ensures Precedes(Run(START, events).ui.picked, p, q)
    decreases |events|
  {
    var n := |events| - 1;
    var pre, e := events[..n], events[n];
    assert events == pre + [e];
    LastEvent(pre, e);
    LastWordDecides(events, p);
    LastWordDecides(events, q);
    SinceEarlier(pre, e, i, p);
    SinceEarlier(pre, e, j, q);
    LastWordDecides(pre, p);
    StepExtends(Run(START, pre), e, p, q);
    hide Run, Possible, Precedes, StaysTicked, Do;
    if j < n { TicksInOrder(pre, i, j, p, q); }
  }

  /** Accept sends them in that order. */
  lemma SentInOrder(events: seq<Event>, i: int, j: int, p: Pair, q: Pair)
    requires Possible(START, events) && i < j && TickedSince(events, i, p) && TickedSince(events, j, q)
    requires p in Submitted(Run(START, events).ui) && q in Submitted(Run(START, events).ui)
    ensures Precedes(Submitted(Run(START, events).ui), p, q)
  {
    hide Run, Possible, Precedes, TickedSince, Visible, AllPairs;
    TicksInOrder(events, i, j, p, q);
    var ui := Run(START, events).ui;
    PrecedesFiltered(ui.picked, k => k in AllPairs(Visible(ui)), p, q);
  }

  // -------------------------------------------------------- the filter and "Show more"

  /** The framework chosen last, and how often "Show more" was pressed since the list was last cut back to one
      screenful, which a scan's start and a choice of framework do. */
  function ChosenLast(events: seq<Event>): Option<Id>
    decreases |events|
  {
    if events == [] then None
    else
      match events[|events| - 1]
      case Act(SetFramework(f)) => f
      case _ => ChosenLast(events[..|events| - 1])
  }

  function ShownMore(events: seq<Event>): nat
    decreases |events|
  {
    if events == [] then 0
    else
      match events[|events| - 1]
      case Act(SetFramework(_)) => 0
      case Start(_) => 0
      case Act(ShowMore) => ShownMore(events[..|events| - 1]) + 1
      case _ => ShownMore(events[..|events| - 1])
  }

  /** After any run the list is filtered by the framework chosen last, and reaches one screenful further for every
      "Show more" since it was cut back. */
  lemma {:induction false} ListFollowsTheUser(events: seq<Event>)
    requires Possible(START, events)
    ensures var ui := Run(START, events).ui;
            && ui.framework == ChosenLast(events)
            && ui.shown == GROUPS_SHOWN * (1 + ShownMore(events))
    decreases |events|
  {
    if events != [] {
      var n := |events| - 1;
      var pre, e := events[..n], events[n];
      assert events == pre + [e];
      LastEvent(pre, e);
      ListFollowsTheUser(pre);
      StepShows(Run(START, pre), e);
    }
  }

  lemma StepShows(w: World, e: Event)
    ensures var ui := Do(w, e).ui;
            && ui.framework == (if e.Act? && e.tick.SetFramework? then e.tick.framework else w.ui.framework)
            && ui.shown == (if e.Start? || (e.Act? && e.tick.SetFramework?) then GROUPS_SHOWN
                            else if e.Act? && e.tick.ShowMore? then w.ui.shown + GROUPS_SHOWN else w.ui.shown)
  {
    hide Filter, IncludeAll, Without, StrongPairs;
  }

  // ------------------------------------------------------------- the accept's progress

  function Written(events: seq<Event>): nat {
    if events == [] then 0 else (if events[0] == Accepting(Wrote) then 1 else 0) + Written(events[1..])
  }

  /** An accept with `n` of its requests answered: over when they held every pair. */
  function After(pairs: seq<Pair>, n: nat): Option<Save> {
    if n * ACCEPT_CHUNK < |pairs| then Some(Save(pairs, n * ACCEPT_CHUNK)) else None
  }

  ghost predicate OneAccept(events: seq<Event>) {
    forall e :: e in events && e.Accepting? ==> e.write.Wrote?
  }

  /** Whatever a scan or the user does meanwhile, an accept sends what was submitted when it began, has sent
      `ACCEPT_CHUNK` pairs for every answer since, and ends when all are sent; a failure ends it at once. */
  lemma AcceptProgress(pre: seq<Event>, tail: seq<Event>)
    requires Possible(START, pre + [Accepting(Began)] + tail) && OneAccept(tail)
    ensures Run(START, pre + [Accepting(Began)] + tail).ui.saving
            == After(Submitted(Run(START, pre).ui), Written(tail))
    ensures var events := pre + [Accepting(Began)] + tail;
            forall m :: Run(START, events + [Accepting(Fell(m))]).ui.saving == None
  {
    hide Submitted;
    RunAppend(START, pre + [Accepting(Began)], tail);
    LastEvent(pre, Accepting(Began));
    var w := Run(START, pre + [Accepting(Began)]);
    ProgressFrom(w, tail, Submitted(Run(START, pre).ui), 0);
    var events := pre + [Accepting(Began)] + tail;
    forall m ensures Run(START, events + [Accepting(Fell(m))]).ui.saving == None {
      RunAppend(START, events, [Accepting(Fell(m))]);
      assert [Accepting(Fell(m))][1..] == [];
      assert Run(Run(START, events), [Accepting(Fell(m))]) == Do(Run(START, events), Accepting(Fell(m)));
    }
  }

  lemma {:induction false} ProgressFrom(w: World, tail: seq<Event>, pairs: seq<Pair>, n: nat)
    requires Possible(w, tail) && OneAccept(tail)
    requires w.ui.saving == After(pairs, n)
    ensures Run(w, tail).ui.saving == After(pairs, n + Written(tail))
    decreases |tail|
  {
    if tail != [] {
      var e := tail[0];
      assert e in tail;
      StepSaves(w, e, pairs, n);
      ProgressFrom(Do(w, e), tail[1..], pairs, if e == Accepting(Wrote) then n + 1 else n);
    }
  }

  lemma StepSaves(w: World, e: Event, pairs: seq<Pair>, n: nat)
    requires Enabled(w, e) && (e.Accepting? ==> e.write.Wrote?)
    requires w.ui.saving == After(pairs, n)
    ensures Do(w, e).ui.saving == After(pairs, if e == Accepting(Wrote) then n + 1 else n)
  {
    hide Filter, IncludeAll, Without, StrongPairs;
  }
}
