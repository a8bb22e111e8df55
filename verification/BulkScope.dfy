/** Accepting while the register-wide scan of unmapped controls still runs: the links written take
    controls out of the scope the scan pages through, and its next offset passes over others. */
module BulkScope {
  import opened Lists
  import opened BulkReview
  import opened BulkAccept

  /** The scope "unmapped": the controls of the register that no link names. */
  function Unmapped(register: seq<Group>, linked: set<Id>): (r: seq<Group>)
    ensures |r| <= |register|
    ensures forall g :: g in r <==> g in register && g.control !in linked
  {
    if register == [] then []
    else (if register[0].control in linked then [] else [register[0]]) + Unmapped(register[1..], linked)
  }

  lemma {:induction false} UnmappedAppend(a: seq<Group>, b: seq<Group>, linked: set<Id>)
    ensures Unmapped(a + b, linked) == Unmapped(a, linked) + Unmapped(b, linked)
  {
    if a == [] {
      assert a + b == b;
    } else {
      assert (a + b)[1..] == a[1..] + b;
      UnmappedAppend(a[1..], b, linked);
    }
  }

  /** Linking more controls narrows the scope. */
  lemma {:induction false} UnmappedNarrows(register: seq<Group>, before: set<Id>, after: set<Id>)
    requires before <= after
    ensures Unmapped(register, after) == Unmapped(Unmapped(register, before), after)
  {
    if register != [] {
      var g, tail := register[0], Unmapped(register[1..], before);
      UnmappedNarrows(register[1..], before, after);
      if g.control in before {
        assert Unmapped(register, before) == tail;
      } else {
        assert Unmapped(register, before) == [g] + tail && ([g] + tail)[1..] == tail;
      }
    }
  }

  lemma {:induction false} UnmappedNone(register: seq<Group>)
    ensures Unmapped(register, {}) == register
  {
    if register != [] { UnmappedNone(register[1..]); }
  }

  lemma {:induction false} UnmappedOneEach(register: seq<Group>, linked: set<Id>)
    requires OneGroupEach(register)
    ensures OneGroupEach(Unmapped(register, linked))
  {
    if register != [] {
      var rest := register[1..];
      UnmappedOneEach(rest, linked);
      forall g | g in Unmapped(rest, linked) ensures g.control != register[0].control {
        assert g in rest;
      }
    }
  }

  lemma {:induction false} UnmappedSame(register: seq<Group>, linked: set<Id>)
    ensures |Unmapped(register, linked)| == |register| <==> forall g :: g in register ==> g.control !in linked
  {
    if register != [] {
      UnmappedSame(register[1..], linked);
      assert register == [register[0]] + register[1..];
    }
  }

  // ---------------------------------------------------------------- one page

  /** The controls a page at `offset` looks at. */
  function Scanned(scope: seq<Group>, offset: nat): seq<Group> {
    scope[Min(offset, |scope|)..Min(offset + REVIEW_PAGE, |scope|)]
  }

  lemma PageShowsScanned(s: Server, offset: nat)
    ensures ReviewPage(s, offset).groups == Filter(Scanned(s.register, offset), HasAny)
    ensures ReviewPage(s, offset).scanned == |Scanned(s.register, offset)|
  {
  }

  /** A scan has looked at the first `from` controls of a scope when more controls are linked. Its
      next page passes over exactly as many of the controls it has yet to look at as it has looked
      at and are now linked. */
  lemma NextPageSkips(register: seq<Group>, before: set<Id>, after: set<Id>, from: nat)
    requires before <= after && from <= |Unmapped(register, before)|
    ensures var scope := Unmapped(register, before);
            var left := Unmapped(scope[from..], after);
            var gone := from - |Unmapped(scope[..from], after)|;
            && gone >= 0
            && Scanned(Unmapped(register, after), from) == Scanned(left, gone)
            && (gone == 0 <==> forall g :: g in scope[..from] ==> g.control !in after)
  {
    var scope := Unmapped(register, before);
    assert scope == scope[..from] + scope[from..];
    UnmappedNarrows(register, before, after);
    UnmappedAppend(scope[..from], scope[from..], after);
    UnmappedSame(scope[..from], after);
    hide Unmapped;
    DropPrefix(Unmapped(scope[..from], after), Unmapped(scope[from..], after), from);
  }

  lemma DropPrefix(kept: seq<Group>, left: seq<Group>, from: nat)
    requires |kept| <= from
    ensures Scanned(kept + left, from) == Scanned(left, from - |kept|)
  {
    var all, gone := kept + left, from - |kept|;
    var a, b := Min(from, |all|), Min(from + REVIEW_PAGE, |all|);
    var c, d := Min(gone, |left|), Min(gone + REVIEW_PAGE, |left|);
    if gone <= |left| {
      assert a == |kept| + c && b == |kept| + d;
      assert all[a..b] == left[c..d];
    } else {
      assert a == b == |all| && c == d == |left|;
    }
  }

  /** The next page goes on where the scan stopped, if and only if no control it has looked at has
      been linked since, or none is left. */
  lemma NextPageFitsExactly(register: seq<Group>, before: set<Id>, after: set<Id>, from: nat)
    requires before <= after && from <= |Unmapped(register, before)| && OneGroupEach(register)
    ensures var scope := Unmapped(register, before);
            var left := Unmapped(scope[from..], after);
            Scanned(Unmapped(register, after), from) == Scanned(left, 0)
            <==> left == [] || forall g :: g in scope[..from] ==> g.control !in after
  {
    hide Unmapped, Scanned, OneGroupEach;
    var scope := Unmapped(register, before);
    var left := Unmapped(scope[from..], after);
    NextPageSkips(register, before, after, from);
    UnmappedOneEach(register, before);
    TailOneEach(scope, from);
    UnmappedOneEach(scope[from..], after);
    SkipShows(left, from - |Unmapped(scope[..from], after)|);
  }

  lemma SkipShows(left: seq<Group>, gone: nat)
    requires OneGroupEach(left)
    ensures Scanned(left, gone) == Scanned(left, 0) <==> left == [] || gone == 0
    ensures gone > 0 && left != [] ==> left[0] !in Scanned(left, gone)
  {
    if gone > 0 && left != [] {
      var page := Scanned(left, gone);
      assert Scanned(left, 0)[0] == left[0];
      forall i | 0 <= i < |page| ensures page[i] != left[0] {
        assert page[i] == left[gone + i];
      }
    }
  }

  lemma TailOneEach(scope: seq<Group>, from: nat)
    requires OneGroupEach(scope) && from <= |scope|
    ensures OneGroupEach(scope[from..])
  {
  }

  // ---------------------------------------------------------------- a whole scan

  /** A scan of the unmapped controls: what is linked by now, the controls looked at, and whether the
      last page has been read. */
  datatype Scan = Scan(linked: set<Id>, looked: seq<Group>, ended: bool)

  /** More controls are linked, or the scan reads its next page. */
  datatype Happening = Links(more: set<Id>) | Reads

  function Next(register: seq<Group>, s: Scan, h: Happening): Scan {
    match h
    case Links(more) => s.(linked := s.linked + more)
    case Reads =>
      if s.ended then s
      else
        var scope := Unmapped(register, s.linked);
        var page := Scanned(scope, |s.looked|);
        s.(looked := s.looked + page, ended := page == [] || |s.looked| + |page| >= |scope|)
  }

  function Later(register: seq<Group>, s: Scan, run: seq<Happening>): Scan
    decreases |run|
  {
    if run == [] then s else Later(register, Next(register, s, run[0]), run[1..])
  }

  /** The controls looked at that are still in scope are the first of the scope. */
  ghost predicate Kept(register: seq<Group>, s: Scan) {
    Unmapped(s.looked, s.linked) <= Unmapped(register, s.linked)
  }

  /** The controls in scope that have not been looked at. */
  function Left(register: seq<Group>, s: Scan): seq<Group>
    requires Kept(register, s)
  {
    Unmapped(register, s.linked)[|Unmapped(s.looked, s.linked)|..]
  }

  /** The next page reads on where the scan stopped. */
  ghost predicate ReadsOn(register: seq<Group>, s: Scan) {
    Kept(register, s) && Scanned(Unmapped(register, s.linked), |s.looked|) == Scanned(Left(register, s), 0)
  }

  ghost predicate InStep(register: seq<Group>, s: Scan) {
    || (forall g :: g in s.looked ==> g.control !in s.linked)
    || (forall g :: g in Unmapped(register, s.linked) ==> g in s.looked)
  }

  ghost predicate AlwaysReadsOn(register: seq<Group>, s: Scan, run: seq<Happening>)
    decreases |run|
  {
    run == [] ||
    ((run[0].Reads? && !s.ended ==> ReadsOn(register, s))
     && AlwaysReadsOn(register, Next(register, s, run[0]), run[1..]))
  }

  /** Whenever a page is read no control looked at has been linked, or none is left to look at. */
  ghost predicate AllInStep(register: seq<Group>, s: Scan, run: seq<Happening>)
    decreases |run|
  {
    run == [] ||
    ((run[0].Reads? && !s.ended ==> InStep(register, s)) && AllInStep(register, Next(register, s, run[0]), run[1..]))
  }

  /** Once the scan has ended, everything still in scope has been looked at. */
  ghost predicate Complete(register: seq<Group>, s: Scan) {
    s.ended ==> forall g :: g in Unmapped(register, s.linked) ==> g in s.looked
  }

  lemma UnmappedPrefix(a: seq<Group>, b: seq<Group>, linked: set<Id>)
    requires a <= b
    ensures Unmapped(a, linked) <= Unmapped(b, linked)
  {
    assert b == a + b[|a|..];
    UnmappedAppend(a, b[|a|..], linked);
  }

  lemma LinksKeep(register: seq<Group>, s: Scan, more: set<Id>)
    requires Kept(register, s)
    ensures Kept(register, Next(register, s, Links(more)))
    ensures Complete(register, s) ==> Complete(register, Next(register, s, Links(more)))
  {
    UnmappedNarrows(s.looked, s.linked, s.linked + more);
    UnmappedNarrows(register, s.linked, s.linked + more);
    UnmappedPrefix(Unmapped(s.looked, s.linked), Unmapped(register, s.linked), s.linked + more);
  }

  /** A list is its own scope when none of it is linked, and shorter otherwise. */
  lemma {:induction false} UnmappedAll(groups: seq<Group>, linked: set<Id>)
    requires forall g :: g in groups ==> g.control !in linked
    ensures Unmapped(groups, linked) == groups
  {
    if groups != [] { UnmappedAll(groups[1..], linked); }
  }

  lemma NothingLeft(register: seq<Group>, s: Scan)
    requires OneGroupEach(register) && Kept(register, s)
    ensures Left(register, s) == [] <==> forall g :: g in Unmapped(register, s.linked) ==> g in s.looked
  {
    var scope, kept := Unmapped(register, s.linked), Unmapped(s.looked, s.linked);
    UnmappedOneEach(register, s.linked);
    if |kept| < |scope| {
      NotOnTheFirstPage(scope, |kept|);
      assert scope[|kept|] in scope && scope[..|kept|] == kept;
    } else {
      assert scope == kept;
    }
  }

  lemma ReadsOnExactly(register: seq<Group>, s: Scan)
    requires OneGroupEach(register) && Kept(register, s)
    ensures ReadsOn(register, s) <==> InStep(register, s)
  {
    hide Unmapped, Scanned, OneGroupEach;
    var scope, kept, left := Unmapped(register, s.linked), Unmapped(s.looked, s.linked), Left(register, s);
    NothingLeft(register, s);
    NoneGone(s);
    UnmappedOneEach(register, s.linked);
    TailOneEach(scope, |kept|);
    assert scope == kept + left && left == scope[|kept|..];
    DropPrefix(kept, left, |s.looked|);
    SkipShows(left, |s.looked| - |kept|);
  }

  lemma NoneGone(s: Scan)
    ensures |Unmapped(s.looked, s.linked)| <= |s.looked|
    ensures |Unmapped(s.looked, s.linked)| == |s.looked| <==> forall g :: g in s.looked ==> g.control !in s.linked
  {
    UnmappedSame(s.looked, s.linked);
  }

  /** Nothing looked at has been linked: the page is added to the controls looked at. */
  lemma PageAdds(register: seq<Group>, s: Scan)
    requires Kept(register, s) && !s.ended && forall g :: g in s.looked ==> g.control !in s.linked
    ensures Kept(register, Next(register, s, Reads)) && Complete(register, Next(register, s, Reads))
  {
    var scope := Unmapped(register, s.linked);
    UnmappedAll(s.looked, s.linked);
    var page := Scanned(scope, |s.looked|);
    var end := |s.looked| + |page|;
    assert s.looked + page == scope[..end];
    assert forall g :: g in s.looked + page ==> g in scope;
    UnmappedAll(s.looked + page, s.linked);
    if end == |scope| { assert scope[..end] == scope; }
  }

  /** Nothing is left to look at: the page is empty and the scan ends. */
  lemma PageEnds(register: seq<Group>, s: Scan)
    requires OneGroupEach(register) && Kept(register, s) && !s.ended
    requires forall g :: g in Unmapped(register, s.linked) ==> g in s.looked
    ensures Kept(register, Next(register, s, Reads)) && Complete(register, Next(register, s, Reads))
  {
    NothingLeft(register, s);
    assert Scanned(Unmapped(register, s.linked), |s.looked|) == [];
    assert s.looked + [] == s.looked;
  }

  lemma PageKeeps(register: seq<Group>, s: Scan)
    requires OneGroupEach(register) && Kept(register, s) && InStep(register, s) && !s.ended
    ensures Kept(register, Next(register, s, Reads)) && Complete(register, Next(register, s, Reads))
  {
    hide Kept, Complete, Next, OneGroupEach;
    if forall g :: g in s.looked ==> g.control !in s.linked { PageAdds(register, s); } else { PageEnds(register, s); }
  }

  /** Over a whole scan during which links are written: every page reads on where the scan stopped, if
      and only if whenever a page is read no control looked at has been linked or none is left. Then the
      scan ends with every control still unmapped looked at. */
  lemma {:induction false} ScanReadsOnExactly(register: seq<Group>, s: Scan, run: seq<Happening>)
    requires OneGroupEach(register) && Kept(register, s) && Complete(register, s)
    ensures AlwaysReadsOn(register, s, run) <==> AllInStep(register, s, run)
    ensures AllInStep(register, s, run) ==> Complete(register, Later(register, s, run))
    decreases |run|
  {
    if run != [] {
      hide Kept, Complete, ReadsOn, InStep, Next, OneGroupEach;
      ReadsOnExactly(register, s);
      match run[0]
      case Links(more) =>
        LinksKeep(register, s, more);
        ScanReadsOnExactly(register, Next(register, s, run[0]), run[1..]);
      case Reads =>
        if s.ended {
          EndedStays(register, s);
          ScanReadsOnExactly(register, s, run[1..]);
        } else if InStep(register, s) {
          PageKeeps(register, s);
          ScanReadsOnExactly(register, Next(register, s, Reads), run[1..]);
        }
    }
  }

  lemma EndedStays(register: seq<Group>, s: Scan)
    requires s.ended
    ensures Next(register, s, Reads) == s
  {
  }

  lemma ScanStartsKept(register: seq<Group>, linked: set<Id>)
    ensures Kept(register, Scan(linked, [], false)) && Complete(register, Scan(linked, [], false))
  {
  }

  // ------------------------------------------------------- a run that loses a control

  ghost predicate Takes(w: World, e: Event, next: World) {
    Enabled(w, e) && next == Do(w, e)
  }

  /** A run, followed through its states. */
  lemma {:induction false} Follow(states: seq<World>, events: seq<Event>)
    requires |states| == |events| + 1
    requires forall i :: 0 <= i < |events| ==> Takes(states[i], events[i], states[i + 1])
    ensures Possible(states[0], events) && Run(states[0], events) == states[|events|]
  {
    if events != [] {
      assert Takes(states[0], events[0], states[1]);
      Follow(states[1..], events[1..]);
    }
  }

  /** The dialog scans the unmapped controls of a register; after the first page its strong matches
      are accepted, the server links them and the answer is lost; then the second page arrives. */
  function LostControlRun(first: Answer, message: Message, second: Answer): seq<Event> {
    [Start(Review(0)), Reply(1, first), Accepting(Began), Accepting(Fell(message)), Reply(1, second)]
  }

  lemma FollowLostControl(first: Answer, message: Message, second: Answer,
                          w1: World, w2: World, w3: World, w4: World, w5: World)
    requires Takes(START, Start(Review(0)), w1) && Takes(w1, Reply(1, first), w2)
    requires Takes(w2, Accepting(Began), w3) && Takes(w3, Accepting(Fell(message)), w4)
    requires Takes(w4, Reply(1, second), w5)
    ensures var events := LostControlRun(first, message, second);
            Possible(START, events) && Run(START, events) == w5
  {
    hide Takes, Run, Possible;
    Follow([START, w1, w2, w3, w4, w5], LostControlRun(first, message, second));
  }

  function FirstPageShown(first: Answer): World {
    Do(Do(START, Start(Review(0))), Reply(1, first))
  }

  /** What the accept's first request links once the first page is on screen. */
  function LinkedThen(first: Answer): set<Id> {
    Controls(NextRequest(Submitted(FirstPageShown(first).ui), 0))
  }

  lemma FirstPage(s: Server)
    requires NoEmpty(s.register) && |s.register| > REVIEW_PAGE
    ensures ReviewPage(s, 0) == Page(s.register[..REVIEW_PAGE], 0, REVIEW_PAGE, |s.register|, Some(REVIEW_PAGE))
    ensures Filter(s.register[..REVIEW_PAGE], HasAny) == s.register[..REVIEW_PAGE]
  {
    assert s.register[0..REVIEW_PAGE] == s.register[..REVIEW_PAGE];
    FilterAll(s.register[..REVIEW_PAGE], HasAny);
  }

  lemma ScanStarts()
    ensures var w1 := Do(START, Start(Review(0)));
            && Takes(START, Start(Review(0)), w1)
            && w1.token == 1 && w1.mounted && w1.jobs == map[1 := Job(Review(0), Some(0))]
            && w1.ui == START.ui.(groups := [], picked := [], error := None, shown := GROUPS_SHOWN, loading := true)
  {
  }

  /** The first page of such a register is on screen. */
  lemma FirstPageLands(s: Server)
    requires NoEmpty(s.register) && |s.register| > REVIEW_PAGE
    ensures var w1 := Do(START, Start(Review(0)));
            var w2 := FirstPageShown(ReviewPage(s, 0));
            && Takes(w1, Reply(1, ReviewPage(s, 0)), w2)
            && w2.token == 1 && w2.mounted && w2.jobs == map[1 := Job(Review(0), Some(REVIEW_PAGE))]
            && w2.ui.groups == s.register[..REVIEW_PAGE] && w2.ui.framework == None && w2.ui.saving == None
            && w2.ui.picked == IncludeAll([], StrongPairs(s.register[..REVIEW_PAGE]))
  {
    FirstPage(s);
    ScanStarts();
    hide Filter, IncludeAll, StrongPairs, ReviewPage, NoEmpty;
    PageLands(Do(START, Start(Review(0))), s.register[..REVIEW_PAGE], |s.register|);
  }

  lemma PageLands(w: World, page: seq<Group>, total: nat)
    requires w.token == 1 && w.jobs == map[1 := Job(Review(0), Some(0))] && Filter(page, HasAny) == page
    ensures var reply := Reply(1, Page(page, 0, REVIEW_PAGE, total, Some(REVIEW_PAGE)));
            var next := Do(w, reply);
            && Takes(w, reply, next) && next.token == 1 && next.mounted == w.mounted
            && next.jobs == map[1 := Job(Review(0), Some(REVIEW_PAGE))]
            && next.ui.groups == w.ui.groups + page && next.ui.picked == IncludeAll(w.ui.picked, StrongPairs(page))
            && next.ui.framework == w.ui.framework && next.ui.saving == w.ui.saving
  {
    hide Filter, IncludeAll, StrongPairs;
  }

  /** A ticked strong match is sent. */
  lemma StrongIsSent(ui: Ui)
    requires ui.framework == None && ui.groups != [] && ui.picked == IncludeAll([], StrongPairs(ui.groups))
    requires HasAny(ui.groups[0]) && IsStrong(ui.groups[0].suggestions[0])
    ensures Submitted(ui) != []
  {
    var g := ui.groups[0];
    var p := Pair(g.control, g.suggestions[0].requirement);
    StrongIsTicked(ui.groups, g, p);
    PairsOfMember(ui.groups, p);
    hide StrongPairs, IncludeAll, IsStrong, AllPairs;
    assert g in ui.groups && g.suggestions[0] in g.suggestions && Suggests(ui.groups, None, p);
    assert p in Submitted(ui);
  }

  /** Whatever Accept sends belongs to a group on screen. */
  lemma SentIsLoaded(ui: Ui)
    requires ui.framework == None
    ensures forall p :: p in Submitted(ui) ==> exists g :: g in ui.groups && g.control == p.control
  {
    hide AllPairs;
    forall p | p in Submitted(ui) ensures exists g :: g in ui.groups && g.control == p.control {
      PairsOfMember(ui.groups, p);
    }
  }

  lemma WhatIsLinked(ui: Ui)
    requires Submitted(ui) != []
    requires forall p :: p in Submitted(ui) ==> exists g :: g in ui.groups && g.control == p.control
    ensures Controls(NextRequest(Submitted(ui), 0)) != {}
    ensures forall c :: c in Controls(NextRequest(Submitted(ui), 0)) ==> exists g :: g in ui.groups && g.control == c
  {
    hide Submitted;
    var chunk := NextRequest(Submitted(ui), 0);
    assert chunk[0].control in Controls(chunk);
    forall c | c in Controls(chunk) ensures exists g :: g in ui.groups && g.control == c {
      var q :| q in chunk && q.control == c;
      assert q in Submitted(ui);
    }
  }

  /** From there the accept starts and fails, and the next page is added to the groups. */
  lemma AcceptThenPage(w2: World, message: Message, second: Answer)
    requires w2.token == 1 && w2.mounted && w2.jobs == map[1 := Job(Review(0), Some(REVIEW_PAGE))]
    requires w2.ui.saving == None && Submitted(w2.ui) != [] && second.Page?
    ensures var w3 := Do(w2, Accepting(Began));
            var w4 := Do(w3, Accepting(Fell(message)));
            var w5 := Do(w4, Reply(1, second));
            && Takes(w2, Accepting(Began), w3) && Takes(w3, Accepting(Fell(message)), w4)
            && Takes(w4, Reply(1, second), w5)
            && w5.ui.groups == w2.ui.groups + Filter(second.groups, HasAny)
  {
    hide Filter, IncludeAll, StrongPairs, Submitted;
  }

  /** After any of the first page's controls have been linked, the next page lacks the control it
      should begin with. */
  lemma ControlPassedOver(register: seq<Group>, linked: set<Id>)
    requires OneGroupEach(register) && |register| > REVIEW_PAGE && linked != {}
    requires forall c :: c in linked ==> exists g :: g in register[..REVIEW_PAGE] && g.control == c
    ensures var g := register[REVIEW_PAGE];
            && g in Unmapped(register, linked) && g !in register[..REVIEW_PAGE]
            && g !in Scanned(Unmapped(register, linked), REVIEW_PAGE)
  {
    hide Unmapped, Scanned, OneGroupEach;
    var page, rest := register[..REVIEW_PAGE], register[REVIEW_PAGE..];
    NotOnTheFirstPage(register, REVIEW_PAGE);
    UnmappedNone(register);
    NextPageSkips(register, {}, linked, REVIEW_PAGE);
    SomeLinked(page, linked);
    TailOneEach(register, REVIEW_PAGE);
    UnmappedOneEach(rest, linked);
    FirstLeft(rest, linked);
    SkipShows(Unmapped(rest, linked), REVIEW_PAGE - |Unmapped(page, linked)|);
    assert rest[0] == register[REVIEW_PAGE] && rest[0] in register;
  }

  lemma SomeLinked(page: seq<Group>, linked: set<Id>)
    requires linked != {} && forall c :: c in linked ==> exists g :: g in page && g.control == c
    ensures !(forall g :: g in page ==> g.control !in linked)
  {
    var c :| c in linked;
  }

  lemma FirstLeft(rest: seq<Group>, linked: set<Id>)
    requires rest != [] && rest[0].control !in linked
    ensures Unmapped(rest, linked) != [] && Unmapped(rest, linked)[0] == rest[0]
  {
  }

  lemma NotOnTheFirstPage(register: seq<Group>, n: nat)
    requires OneGroupEach(register) && n < |register|
    ensures forall g :: g in register[..n] ==> g.control != register[n].control
  {
    forall g | g in register[..n] ensures g.control != register[n].control {
      var i :| 0 <= i < n && register[..n][i] == g;
      assert register[i] == g;
    }
  }

  /** In any register of more than a page of controls with suggestions, strong ones for the first, the
      first control after the page then goes unreviewed: it is still unmapped, but the page that
      should show it does not. */
  lemma AcceptDuringScanSkips(s: Server, message: Message)
    requires OneGroupEach(s.register) && NoEmpty(s.register) && |s.register| > REVIEW_PAGE
    requires HasAny(s.register[0]) && IsStrong(s.register[0].suggestions[0])
    ensures var first := ReviewPage(s, 0);
            var scope := Unmapped(s.register, LinkedThen(first));
            var second := ReviewPage(s.(register := scope), REVIEW_PAGE);
            && first.next == Some(REVIEW_PAGE) && Possible(START, LostControlRun(first, message, second))
            && s.register[REVIEW_PAGE] in scope
            && s.register[REVIEW_PAGE] !in Run(START, LostControlRun(first, message, second)).ui.groups
  {
    hide Takes, Do, FirstPageShown, Unmapped, Scanned, Submitted, Controls, OneGroupEach, LostControlRun, Filter;
    var first := ReviewPage(s, 0);
    var linked := LinkedThen(first);
    var narrowed := s.(register := Unmapped(s.register, linked));
    var second := ReviewPage(narrowed, REVIEW_PAGE);
    var w2 := FirstPageShown(first);
    var w3 := Do(w2, Accepting(Began));
    var w4 := Do(w3, Accepting(Fell(message)));
    FirstPage(s);
    ScanStarts();
    FirstPageLands(s);
    assert w2.ui.groups[0] == s.register[0];
    StrongIsSent(w2.ui);
    SentIsLoaded(w2.ui);
    WhatIsLinked(w2.ui);
    AcceptThenPage(w2, message, second);
    FollowLostControl(first, message, second, Do(START, Start(Review(0))), w2, w3, w4, Do(w4, Reply(1, second)));
    ControlPassedOver(s.register, linked);
    PageShowsScanned(narrowed, REVIEW_PAGE);
  }
}
