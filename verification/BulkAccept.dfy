/** Accepting ticked suggestions: which pairs are submitted, and the chunked write that can stop
    part-way and be repeated. */
module BulkAccept {
  import opened Lists
  import opened BulkReview

  // ----------------------------------------------------------- what is submitted

  function HiddenPicked(ui: Ui): nat {
    var vis := AllPairs(Visible(ui));
    |Filter(ui.picked, k => k !in vis)|
  }

  /** Some group suggests the pair, in the framework if one is chosen. */
  ghost predicate Suggests(groups: seq<Group>, framework: Option<Id>, p: Pair) {
    exists g, x :: g in groups && x in g.suggestions && p == Pair(g.control, x.requirement)
      && (framework.Some? ==> x.framework == framework.value)
  }

  lemma PairsOfGroup(g: Group, p: Pair)
    ensures p in PairsOf(g) <==> exists x :: x in g.suggestions && p == Pair(g.control, x.requirement)
  {
    if p in PairsOf(g) {
      var i :| 0 <= i < |g.suggestions| && PairsOf(g)[i] == p;
      assert g.suggestions[i] in g.suggestions;
    }
    if x :| x in g.suggestions && p == Pair(g.control, x.requirement) {
      var i :| 0 <= i < |g.suggestions| && g.suggestions[i] == x;
      assert PairsOf(g)[i] == p;
    }
  }

  lemma {:induction false} PairsOfMember(groups: seq<Group>, p: Pair)
    ensures p in AllPairs(groups) <==> Suggests(groups, None, p)
  {
    if groups != [] {
      PairsOfGroup(groups[0], p);
      PairsOfMember(groups[1..], p);
      assert groups == [groups[0]] + groups[1..];
    }
  }

  lemma MappedGroups(groups: seq<Group>, f: Id, p: Pair)
    ensures Suggests(MapFramework(groups, f), None, p) <==> Suggests(groups, Some(f), p)
  {
    var mapped := MapFramework(groups, f);
    if g, x :| g in mapped && x in g.suggestions && p == Pair(g.control, x.requirement) {
      var k :| 0 <= k < |mapped| && mapped[k] == g;
      assert groups[k] in groups && x in groups[k].suggestions;
    }
    if g, x :| g in groups && x in g.suggestions && p == Pair(g.control, x.requirement) && x.framework == f {
      var k :| 0 <= k < |groups| && groups[k] == g;
      assert mapped[k] in mapped && x in mapped[k].suggestions;
    }
  }

  /** The filter leaves a pair when some loaded group suggests it in the chosen framework. */
  lemma ShownPairs(ui: Ui, p: Pair)
    ensures p in AllPairs(Visible(ui)) <==> Suggests(ui.groups, ui.framework, p)
  {
    PairsOfMember(Visible(ui), p);
    if ui.framework.Some? {
      var mapped := MapFramework(ui.groups, ui.framework.value);
      MappedGroups(ui.groups, ui.framework.value, p);
      assert Suggests(Filter(mapped, HasAny), None, p) <==> Suggests(mapped, None, p);
    }
  }

  /** The ticks are a set in every reachable state. */
  lemma {:induction false} TicksStayDistinct(w: World, events: seq<Event>)
    requires Distinct(w.ui.picked)
    ensures Distinct(Run(w, events).ui.picked)
    decreases |events|
  {
    if events != [] {
      StepKeepsDistinct(w, events[0]);
      TicksStayDistinct(Do(w, events[0]), events[1..]);
    }
  }

  lemma StepKeepsDistinct(w: World, e: Event)
    requires Distinct(w.ui.picked)
    ensures Distinct(Do(w, e).ui.picked)
  {
    hide IncludeAll, Without, Filter;
    match e
    case Act(t) => {
      match t
      case Flip(k) => WithoutDistinct(w.ui.picked, k);
      case SetMany(ks, on) =>
        IncludeAllDistinct(w.ui.picked, ks);
        FilterDistinct(w.ui.picked, x => x !in ks);
      case Clear =>
      case SetFramework(_) =>
      case ShowMore =>
    }
    case Reply(_, a) =>
      if a.Page? { IncludeAllDistinct(w.ui.picked, StrongPairs(Filter(a.groups, HasAny))); }
    case Start(_) =>
    case Accepting(_) =>
    case Close =>
  }

  /** In every reachable state Accept sends exactly the pairs both ticked and left by the filter, each
      once, and the button counts them. */
  lemma SubmittedIsTickedAndShown(events: seq<Event>)
    ensures var ui := Run(START, events).ui;
            && Distinct(Submitted(ui))
            && ToSet(Submitted(ui)) == ToSet(ui.picked) * ToSet(AllPairs(Visible(ui)))
            && |Submitted(ui)| == |ui.picked| - HiddenPicked(ui)
  {
    TicksStayDistinct(START, events);
    var ui := Run(START, events).ui;
    var vis := AllPairs(Visible(ui));
    FilterDistinct(ui.picked, k => k in vis);
    FilterSplit(ui.picked, k => k in vis, k => k !in vis);
  }

  // ------------------------------------------------------------ what is on screen

  /** The rows on screen: the groups past `shown` wait for "Show more". */
  function Rendered(ui: Ui): seq<Pair> {
    AllPairs(Visible(ui)[..Min(ui.shown, |Visible(ui)|)])
  }

  ghost predicate OneGroupEach(groups: seq<Group>) {
    forall i, j :: 0 <= i < j < |groups| ==> groups[i].control != groups[j].control
  }

  ghost predicate NoEmpty(groups: seq<Group>) {
    forall g :: g in groups ==> HasAny(g)
  }

  lemma {:induction false} GroupsAreNotEmpty(w: World, events: seq<Event>)
    requires NoEmpty(w.ui.groups)
    ensures NoEmpty(Run(w, events).ui.groups)
    decreases |events|
  {
    if events != [] {
      GroupsAreNotEmpty(Do(w, events[0]), events[1..]);
    }
  }

  lemma {:induction false} FilterKeepsOneEach(groups: seq<Group>)
    requires OneGroupEach(groups)
    ensures OneGroupEach(Filter(groups, HasAny))
  {
    if groups != [] {
      var rest := groups[1..];
      FilterKeepsOneEach(rest);
      forall g | g in Filter(rest, HasAny) ensures g.control != groups[0].control {
        assert g in rest;
      }
    }
  }

  lemma VisibleGroups(ui: Ui)
    requires NoEmpty(ui.groups) && OneGroupEach(ui.groups)
    ensures NoEmpty(Visible(ui)) && OneGroupEach(Visible(ui))
  {
    if ui.framework.Some? { FilterKeepsOneEach(MapFramework(ui.groups, ui.framework.value)); }
  }

  /** Whatever is ticked, Accept sends only what is on screen. */
  ghost predicate SendsOnlyRendered(ui: Ui) {
    forall ticks: seq<Pair>, p: Pair :: p in Submitted(ui.(picked := ticks)) ==> p in Rendered(ui)
  }

  /** Accept never sends a tick that is not on screen, if and only if every group the filter leaves
      is: the ones "Show more" would still render are sent as well. */
  lemma SubmitsOnlyRenderedExactly(events: seq<Event>)
    requires OneGroupEach(Run(START, events).ui.groups)
    ensures var ui := Run(START, events).ui;
            SendsOnlyRendered(ui) <==> |Visible(ui)| <= ui.shown
  {
    var ui := Run(START, events).ui;
    GroupsAreNotEmpty(START, events);
    VisibleGroups(ui);
    if |Visible(ui)| <= ui.shown { AllOnScreen(ui); } else { GroupIsSentUnseen(ui); }
  }

  lemma AllOnScreen(ui: Ui)
    requires |Visible(ui)| <= ui.shown
    ensures SendsOnlyRendered(ui)
  {
    assert Visible(ui)[..|Visible(ui)|] == Visible(ui);
    forall ticks: seq<Pair>, p: Pair | p in Submitted(ui.(picked := ticks)) ensures p in Rendered(ui) {
      assert Visible(ui.(picked := ticks)) == Visible(ui);
    }
  }

  lemma GroupIsSentUnseen(ui: Ui)
    requires NoEmpty(Visible(ui)) && OneGroupEach(Visible(ui)) && ui.shown < |Visible(ui)|
    ensures !SendsOnlyRendered(ui)
  {
    var g := Visible(ui)[ui.shown];
    assert g in Visible(ui) && HasAny(g);
    var p := Pair(g.control, g.suggestions[0].requirement);
    assert PairsOf(g)[0] == p;
    NotOnScreen(Visible(ui), ui.shown, p);
    OneTickIsSent(ui, p);
    hide Submitted, Rendered, Visible;
    assert p in Submitted(ui.(picked := [p])) && p !in Rendered(ui);
  }

  lemma OneTickIsSent(ui: Ui, p: Pair)
    requires p in AllPairs(Visible(ui))
    ensures p in Submitted(ui.(picked := [p]))
  {
    assert Visible(ui.(picked := [p])) == Visible(ui);
    assert [p][0] == p;
  }

  lemma NotOnScreen(visible: seq<Group>, n: nat, p: Pair)
    requires OneGroupEach(visible) && n < |visible| && p in PairsOf(visible[n])
    ensures p in AllPairs(visible) && p !in AllPairs(visible[..n])
  {
    PairsOfGroup(visible[n], p);
    PairsOfMember(visible, p);
    PairsOfMember(visible[..n], p);
    assert Suggests(visible, None, p);
    forall g | g in visible[..n] ensures g.control != p.control {
      var i :| 0 <= i < n && visible[i] == g;
    }
  }

  /** The ticks need no help: the strong matches of a scan of more than a screenful of controls are
      ticked as they arrive, and those past the first `GROUPS_SHOWN` groups are sent unseen. */
  lemma UnrenderedAreSubmitted(ids: seq<Id>, groups: seq<Group>) returns (p: Pair)
    requires GROUPS_SHOWN < |groups| && 0 < |ids| && OneGroupEach(groups)
    requires forall g :: g in groups ==> g.suggestions != [] && IsStrong(g.suggestions[0])
    ensures var events := [Start(Chosen(ids)), Reply(1, Page(groups, 0, 0, 0, None))];
            var ui := Run(START, events).ui;
            Possible(START, events) && p in Submitted(ui) && p !in Rendered(ui)
  {
    var g := groups[GROUPS_SHOWN];
    p := Pair(g.control, g.suggestions[0].requirement);
    var ui := Do(Do(START, Start(Chosen(ids))), Reply(1, Page(groups, 0, 0, 0, None))).ui;
    TwoSteps(Start(Chosen(ids)), Reply(1, Page(groups, 0, 0, 0, None)));
    ScreenAfterOnePage(ids, groups);
    hide Do, StrongPairs, IncludeAll, IsStrong;
    assert g in groups && PairsOf(g)[0] == p;
    NotOnScreen(groups, GROUPS_SHOWN, p);
    StrongIsTicked(groups, g, p);
    assert Visible(ui) == groups;
  }

  lemma TwoSteps(first: Event, second: Event)
    ensures Run(START, [first, second]) == Do(Do(START, first), second)
    ensures Possible(START, [first, second]) <==> Enabled(START, first) && Enabled(Do(START, first), second)
  {
    hide Do, Enabled;
    var w1 := Do(START, first);
    assert [first, second][1..] == [second] && [second][1..] == [];
    assert Run(w1, [second]) == Run(Do(w1, second), []);
    assert Possible(w1, [second]) <==> Enabled(w1, second) && Possible(Do(w1, second), []);
  }

  lemma ScreenAfterOnePage(ids: seq<Id>, groups: seq<Group>)
    requires ids != [] && forall g :: g in groups ==> HasAny(g)
    ensures Enabled(START, Start(Chosen(ids)))
    ensures Enabled(Do(START, Start(Chosen(ids))), Reply(1, Page(groups, 0, 0, 0, None)))
    ensures var ui := Do(Do(START, Start(Chosen(ids))), Reply(1, Page(groups, 0, 0, 0, None))).ui;
            && ui.groups == groups && ui.framework == None && ui.shown == GROUPS_SHOWN
            && ui.picked == IncludeAll([], StrongPairs(groups))
  {
    FilterAll(groups, HasAny);
  }

  lemma {:induction false} StrongIsTicked(groups: seq<Group>, g: Group, p: Pair)
    requires g in groups && g.suggestions != [] && IsStrong(g.suggestions[0])
    requires p == Pair(g.control, g.suggestions[0].requirement)
    ensures p in StrongPairs(groups) && p in IncludeAll([], StrongPairs(groups))
  {
    if g == groups[0] {
      assert PairsOf(Strong(g))[0] == p;
    } else {
      StrongIsTicked(groups[1..], g, p);
    }
    IncludeAllMembers([], StrongPairs(groups));
  }

  // ------------------------------------------------------------ the chunked write

  /** How the server answers one request: it links the whole chunk, it refuses it, or it links it
      and the answer is lost. */
  datatype Outcome = Linked | Refused | Lost

  function Controls(pairs: seq<Pair>): set<Id> {
    set p | p in pairs :: p.control
  }

  /** The links once `pairs` are written: writing is a set union. */
  function Link(links: set<Pair>, pairs: seq<Pair>): set<Pair> {
    links + ToSet(pairs)
  }

  /** How many links writing `pairs` adds. */
  function Added(links: set<Pair>, pairs: seq<Pair>): nat {
    |ToSet(pairs) - links|
  }

  /** The pairs of a list of requests, in order. */
  function Joined(sent: seq<seq<Pair>>): seq<Pair> {
    FlatMap(sent, (c: seq<Pair>) => c)
  }

  function NextRequest(pairs: seq<Pair>, n: nat): seq<Pair>
    requires n <= |pairs|
  {
    pairs[n..Min(n + ACCEPT_CHUNK, |pairs|)]
  }

  /** `sent` are whole requests for exactly the first `n` pairs, in order: `ACCEPT_CHUNK` pairs
      each, except the last one of all. */
  ghost predicate Requests(pairs: seq<Pair>, n: nat, sent: seq<seq<Pair>>)
    requires n <= |pairs|
  {
    && Joined(sent) == pairs[..n] && n == Min(|sent| * ACCEPT_CHUNK, |pairs|)
    && forall j :: 0 <= j < |sent| ==>
         0 < |sent[j]| <= ACCEPT_CHUNK && (|sent[j]| < ACCEPT_CHUNK ==> n == |pairs| && j == |sent| - 1)
  }

  /** The loop of `accept`: `outcomes(j)` answers the j-th request. `answered` are the requests
      that were answered, holding the first `acked` pairs, and `linked` the new links they
      reported. A request that fails may still have been carried out. */
  method Accept(pairs: seq<Pair>, before: set<Pair>, outcomes: nat -> Outcome)
    returns (links: set<Pair>, answered: seq<seq<Pair>>, acked: nat, linked: nat, controls: set<Id>, failed: bool)
    ensures acked <= |pairs| && Requests(pairs, acked, answered)
    ensures forall j :: 0 <= j < |answered| ==> outcomes(j) == Linked
    ensures failed <==> acked < |pairs|
    ensures failed ==> outcomes(|answered|) != Linked
    ensures links == Link(before, pairs[..if failed && outcomes(|answered|) == Lost
                                          then Min(acked + ACCEPT_CHUNK, |pairs|) else acked])
    ensures linked == Added(before, pairs[..acked]) && controls == Controls(pairs[..acked])
  {
    hide Link, Added, Requests, Controls;
    links, answered, acked, linked, controls, failed := before, [], 0, 0, {}, false;
    NothingSent(pairs, before);
    while acked < |pairs|
      invariant acked <= |pairs| && !failed
      invariant forall j :: 0 <= j < |answered| ==> outcomes(j) == Linked
      invariant Requests(pairs, acked, answered)
      invariant links == Link(before, pairs[..acked])
      invariant linked == Added(before, pairs[..acked])
      invariant controls == Controls(pairs[..acked])
    {
      var chunk := NextRequest(pairs, acked);
      assert pairs[..acked + |chunk|] == pairs[..acked] + chunk;
      LinkMore(before, pairs[..acked], chunk);
      var outcome := outcomes(|answered|);
      if outcome != Linked {
        if outcome == Lost { links := Link(links, chunk); }
        failed := true;
        return;
      }
      RequestMore(pairs, acked, answered);
      answered := answered + [chunk];
      linked := linked + Added(links, chunk);
      links := Link(links, chunk);
      controls := controls + Controls(chunk);
      acked := acked + |chunk|;
    }
  }

  lemma NothingSent(pairs: seq<Pair>, before: set<Pair>)
    ensures Requests(pairs, 0, [])
    ensures Link(before, pairs[..0]) == before && Added(before, pairs[..0]) == 0 && Controls(pairs[..0]) == {}
  {
    assert ToSet(pairs[..0]) == {};
  }

  lemma RequestMore(pairs: seq<Pair>, n: nat, sent: seq<seq<Pair>>)
    requires n < |pairs| && Requests(pairs, n, sent)
    ensures var chunk := NextRequest(pairs, n);
            Requests(pairs, n + |chunk|, sent + [chunk])
  {
    var chunk := NextRequest(pairs, n);
    assert pairs[..n + |chunk|] == pairs[..n] + chunk;
    FlatMapAppend(sent, [chunk], (c: seq<Pair>) => c);
    assert [chunk][1..] == [];
    assert Joined([chunk]) == chunk + [] == chunk;
  }

  /** Writing in two parts: the links are those of one write, and the parts' counts of new links
      add up to its count. */
  lemma LinkMore(before: set<Pair>, first: seq<Pair>, chunk: seq<Pair>)
    ensures Link(Link(before, first), chunk) == Link(before, first + chunk)
    ensures Added(before, first + chunk) == Added(before, first) + Added(Link(before, first), chunk)
    ensures Controls(first + chunk) == Controls(first) + Controls(chunk)
  {
    assert ToSet(first + chunk) == ToSet(first) + ToSet(chunk);
    assert ToSet(first + chunk) - before == (ToSet(first) - before) + (ToSet(chunk) - Link(before, first));
    forall c | c in Controls(first) + Controls(chunk) ensures c in Controls(first + chunk) {
      var p: Pair :| p in first + chunk && p.control == c;
    }
  }

  /** Some request of the attempt fails. */
  ghost predicate Fails(pairs: seq<Pair>, outcomes: nat -> Outcome) {
    exists j: nat :: j * ACCEPT_CHUNK < |pairs| && outcomes(j) != Linked
  }

  lemma FailsExactly(pairs: seq<Pair>, outcomes: nat -> Outcome, acked: nat, answered: seq<seq<Pair>>, failed: bool)
    requires acked <= |pairs| && Requests(pairs, acked, answered)
    requires forall j :: 0 <= j < |answered| ==> outcomes(j) == Linked
    requires failed <==> acked < |pairs|
    requires failed ==> outcomes(|answered|) != Linked
    ensures failed <==> Fails(pairs, outcomes)
  {
    if failed {
      assert |answered| * ACCEPT_CHUNK < |pairs| && outcomes(|answered|) != Linked;
    } else {
      forall j: nat | j * ACCEPT_CHUNK < |pairs| ensures outcomes(j) == Linked {
        assert j < |answered|;
      }
    }
  }

  /** Accept, and accept the same ticks again while an attempt fails: the links are those of one
      uninterrupted write as soon as one attempt does not fail, and never more than those. */
  method RetryReachesTheSameLinks(pairs: seq<Pair>, before: set<Pair>, attempts: seq<nat -> Outcome>)
    returns (links: set<Pair>, failed: bool)
    ensures failed <==> forall k :: 0 <= k < |attempts| ==> Fails(pairs, attempts[k])
    ensures !failed ==> links == Link(before, pairs)
    ensures before <= links <= Link(before, pairs)
  {
    hide Added, Requests, Controls, Fails;
    links, failed := before, true;
    for n := 0 to |attempts|
      invariant failed && forall k :: 0 <= k < n ==> Fails(pairs, attempts[k])
      invariant before <= links <= Link(before, pairs)
    {
      var after, answered, acked, linked, controls, fell := Accept(pairs, links, attempts[n]);
      FailsExactly(pairs, attempts[n], acked, answered, fell);
      assert pairs[..|pairs|] == pairs;
      links := after;
      if !fell {
        failed := false;
        return;
      }
    }
  }
}

/** The text keys ticks are kept under. */
module PairKeys {
  import opened Lists

  function PairKey(control: string, requirement: string): string {
    control + ":" + requirement
  }

  /** `k.split(":")`. */
  function Split(k: string): (r: seq<string>)
    ensures |r| > 0
  {
    if k == "" then [""]
    else
      var rest := Split(k[1..]);
      if k[0] == ':' then [""] + rest else [[k[0]] + rest[0]] + rest[1..]
  }

  lemma {:induction false} SplitFirst(a: string, b: string)
    requires ':' !in a
    ensures Split(a + ":" + b) == [a] + Split(b)
  {
    if a == "" {
      assert a + ":" + b == ":" + b;
      assert (":" + b)[1..] == b;
    } else {
      assert (a + ":" + b)[1..] == a[1..] + ":" + b;
      SplitFirst(a[1..], b);
      assert [a[0]] + a[1..] == a;
    }
  }

  lemma {:induction false} FirstPart(k: string)
    ensures ':' !in Split(k)[0]
    ensures Split(k)[0] == k <==> ':' !in k
  {
    if k != "" {
      FirstPart(k[1..]);
      assert k == [k[0]] + k[1..];
    }
  }

  /** The pair sent to the server is the pair that was ticked exactly when neither id contains a
      colon, as UUIDs never do. */
  lemma KeyRoundTrip(control: string, requirement: string)
    ensures var parts := Split(PairKey(control, requirement));
            |parts| > 1 && (parts[0] == control && parts[1] == requirement <==> ':' !in control && ':' !in requirement)
  {
    var k := PairKey(control, requirement);
    FirstPart(k);
    HasTwoParts(k);
    if ':' !in control {
      SplitFirst(control, requirement);
      FirstPart(requirement);
    }
  }

  lemma {:induction false} HasTwoParts(k: string)
    requires ':' in k
    ensures |Split(k)| > 1
  {
    if k[0] != ':' {
      assert k == [k[0]] + k[1..];
      HasTwoParts(k[1..]);
    }
  }
}
