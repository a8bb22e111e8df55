/** The bulk mapping review: page scans guarded by a run token, ticks, and acceptance in chunks.

    A scan is a loop of requests that can be overtaken: a filter change or an unmount moves the
    token on, and whatever the old loop still receives must not show. */
module BulkReview {
  import opened Lists

  type Id = nat
  type Message = nat

  const SUGGEST_CHUNK := 500
  const REVIEW_PAGE := 100
  const ACCEPT_CHUNK := 500
  const GROUPS_SHOWN := 100
  const STRONG_SUGGESTION: real := 0.75

  datatype Suggestion = Suggestion(requirement: Id, framework: Id, score: real)
  datatype Group = Group(control: Id, suggestions: seq<Suggestion>)
  datatype Pair = Pair(control: Id, requirement: Id)

  /** What a scan is asked for: the selected controls, or the register under one filter. */
  datatype Query = Chosen(ids: seq<Id>) | Review(filter: nat)

  datatype Answer =
    | Page(groups: seq<Group>, offset: nat, scanned: nat, total: nat, next: Option<nat>)
    | Failed(message: Message)

  /** An accept under way: what it submits and how much of it has been answered. */
  datatype Save = Save(pairs: seq<Pair>, done: nat)

  /** The dialog's state. `picked` is in the order of a JavaScript Set. */
  datatype Ui = Ui(groups: seq<Group>, picked: seq<Pair>, error: Option<Message>, loading: bool,
                   done: nat, total: nat, framework: Option<Id>, shown: nat, saving: Option<Save>)

  /** One scan loop: its query and the offset of the request it awaits, if it still runs. */
  datatype Job = Job(query: Query, awaiting: Option<nat>)

  datatype Tick =
    | Flip(pair: Pair)
    | SetMany(pairs: seq<Pair>, on: bool)
    | Clear
    | SetFramework(framework: Option<Id>)
    | ShowMore

  /** The steps of an accept: it starts, one of its requests is answered, or one fails. */
  datatype Write = Began | Wrote | Fell(message: Message)

  predicate HasAny(g: Group) { g.suggestions != [] }
  predicate IsStrong(x: Suggestion) { x.score >= STRONG_SUGGESTION }

  function PairsOf(g: Group): seq<Pair> {
    seq(|g.suggestions|, i requires 0 <= i < |g.suggestions| => Pair(g.control, g.suggestions[i].requirement))
  }

  function Strong(g: Group): Group {
    g.(suggestions := Filter(g.suggestions, IsStrong))
  }

  function AllPairs(groups: seq<Group>): seq<Pair> {
    FlatMap(groups, PairsOf)
  }

  function StrongPairs(groups: seq<Group>): seq<Pair> {
    FlatMap(groups, g => PairsOf(Strong(g)))
  }

  /** The groups the framework filter leaves, without those it empties. */
  function Visible(ui: Ui): seq<Group> {
    match ui.framework
    case None => ui.groups
    case Some(f) => Filter(MapFramework(ui.groups, f), HasAny)
  }

  function MapFramework(groups: seq<Group>, f: Id): seq<Group> {
    seq(|groups|, i requires 0 <= i < |groups| =>
      groups[i].(suggestions := Filter(groups[i].suggestions, (x: Suggestion) => x.framework == f)))
  }

  /** What Accept sends: the ticked pairs the filter leaves, in the order they were ticked. */
  function Submitted(ui: Ui): seq<Pair> {
    var vis := AllPairs(Visible(ui));
    Filter(ui.picked, k => k in vis)
  }

  // ---------------------------------------------------------------- one scan alone

  /** The effect's synchronous part: the screen is reset and the first request goes out. Without
      controls there is no request, and the loop ends at once. In register-wide mode the progress
      of the scan before stays on screen until the first page. */
  function Begin(ui: Ui, q: Query): (Ui, Job) {
    var reset := ui.(groups := [], picked := [], error := None, shown := GROUPS_SHOWN, loading := true);
    match q
    case Review(_) => (reset, Job(q, Some(0)))
    case Chosen(ids) =>
      var zero := reset.(done := 0, total := |ids|);
      if ids == [] then (zero.(loading := false), Job(q, None)) else (zero, Job(q, Some(0)))
  }

  function AddPage(ui: Ui, page: seq<Group>): Ui {
    var withAny := Filter(page, HasAny);
    ui.(groups := ui.groups + withAny, picked := IncludeAll(ui.picked, StrongPairs(withAny)))
  }

  /** The request a loop awaits is answered. */
  function Receive(ui: Ui, job: Job, a: Answer): (Ui, Job)
    requires job.awaiting.Some?
  {
    match a
    case Failed(message) => (ui.(error := Some(message), loading := false), job.(awaiting := None))
    case Page(groups, offset, scanned, total, next) =>
      match job.query {
        case Review(_) =>
          (AddPage(ui, groups).(done := offset + scanned, total := total, loading := ui.loading && next.Some?),
           job.(awaiting := next))
        case Chosen(ids) =>
          var i := job.awaiting.value;
          var chunk := Min(SUGGEST_CHUNK, if i < |ids| then |ids| - i else 0);
          var more := i + SUGGEST_CHUNK < |ids|;
          (AddPage(ui, groups).(done := Min(|ids|, i + chunk), total := |ids|, loading := ui.loading && more),
           job.(awaiting := if more then Some(i + SUGGEST_CHUNK) else None))
      }
  }

  function Apply(ui: Ui, t: Tick): Ui {
    match t
    case Flip(k) => ui.(picked := if k in ui.picked then Without(ui.picked, k) else ui.picked + [k])
    case SetMany(ks, on) => ui.(picked := if on then IncludeAll(ui.picked, ks) else Filter(ui.picked, x => x !in ks))
    case Clear => ui.(picked := [])
    case SetFramework(f) => ui.(framework := f, shown := GROUPS_SHOWN)
    case ShowMore => ui.(shown := ui.shown + GROUPS_SHOWN)
  }

  /** An accept reports on the line the scan reports on: starting clears it and a failure sets it. */
  function ApplyWrite(ui: Ui, e: Write): Ui {
    match e
    case Began => ui.(error := None, saving := Some(Save(Submitted(ui), 0)))
    case Wrote =>
      if ui.saving == None then ui
      else
        var s := ui.saving.value;
        var done := Min(|s.pairs|, s.done + ACCEPT_CHUNK);
        ui.(saving := if done < |s.pairs| then Some(s.(done := done)) else None)
    case Fell(message) => ui.(error := Some(message), saving := None)
  }

  /** What happens to a dialog whose only scan is never overtaken. */
  datatype Solo = Got(answer: Answer) | Ticked(tick: Tick) | Saved(write: Write)

  function Alone(ui: Ui, job: Job, events: seq<Solo>): (Ui, Job)
    decreases |events|
  {
    if events == [] then (ui, job)
    else
      match events[0]
      case Ticked(t) => Alone(Apply(ui, t), job, events[1..])
      case Saved(e) => Alone(ApplyWrite(ui, e), job, events[1..])
      case Got(a) =>
        if job.awaiting == None then Alone(ui, job, events[1..])
        else
          var (ui', job') := Receive(ui, job, a);
          Alone(ui', job', events[1..])
  }

  // ------------------------------------------------------- the component, interleaved

  /** `runRef`, the screen, whether an effect is mounted, and every loop ever started. */
  datatype World = World(token: nat, ui: Ui, mounted: bool, jobs: map<nat, Job>)

  datatype Event =
    | Start(query: Query)
    | Close
    | Reply(run: nat, answer: Answer)
    | Act(tick: Tick)
    | Accepting(write: Write)

  const START := World(0, Ui([], [], None, true, 0, 0, None, GROUPS_SHOWN, None), false, map[])

  /** The token an effect started now would hold: the cleanup of a mounted effect moves it on
      first. */
  function NextToken(w: World): nat {
    (if w.mounted then w.token + 1 else w.token) + 1
  }

  /** While an accept runs only "Show more" and the scan itself go on. When its last request has been
      answered the dialog is closed. */
  ghost predicate Enabled(w: World, e: Event) {
    match e
    case Start(_) => true
    case Close => w.mounted
    case Act(t) => w.mounted && (w.ui.saving == None || t.ShowMore?)
    case Accepting(Began) => w.mounted && w.ui.saving == None && Submitted(w.ui) != []
    case Accepting(_) => w.mounted && w.ui.saving.Some?
    case Reply(run, _) => run in w.jobs && w.jobs[run].awaiting.Some?
  }

  function Do(w: World, e: Event): World {
    match e
    case Start(q) =>
      var (ui, job) := Begin(w.ui, q);
      World(NextToken(w), ui, true, w.jobs[NextToken(w) := job])
    case Close => w.(token := w.token + 1, mounted := false)
    case Act(t) => w.(ui := Apply(w.ui, t))
    case Accepting(e) => w.(ui := ApplyWrite(w.ui, e))
    case Reply(run, a) =>
      if run !in w.jobs || w.jobs[run].awaiting == None then w
      else if run != w.token then w.(jobs := w.jobs[run := w.jobs[run].(awaiting := None)])
      else
        var (ui, job) := Receive(w.ui, w.jobs[run], a);
        w.(ui := ui, jobs := w.jobs[run := job])
  }

  function Run(w: World, events: seq<Event>): World
    decreases |events|
  {
    if events == [] then w else Run(Do(w, events[0]), events[1..])
  }

  ghost predicate Possible(w: World, events: seq<Event>)
    decreases |events|
  {
    events == [] || (Enabled(w, events[0]) && Possible(Do(w, events[0]), events[1..]))
  }

  /** Tokens are never reused: every loop started so far holds one the counter has passed, and the
      counter stands on a loop exactly while the effect is mounted. */
  ghost predicate Ok(w: World) {
    (forall t :: t in w.jobs ==> t <= w.token) && (w.mounted <==> w.token in w.jobs)
  }

  lemma {:induction false} RunKeepsOk(w: World, events: seq<Event>)
    requires Ok(w) && Possible(w, events)
    ensures Ok(Run(w, events))
    decreases |events|
  {
    if events != [] {
      RunKeepsOk(Do(w, events[0]), events[1..]);
    }
  }

  /** A reply to a superseded or unmounted scan changes nothing on the screen. */
  lemma SupersededReplyIsSilent(pre: seq<Event>, run: nat, a: Answer)
    requires Possible(START, pre + [Reply(run, a)])
    requires run != Run(START, pre).token || !Run(START, pre).mounted
    ensures Run(START, pre + [Reply(run, a)]).ui == Run(START, pre).ui
  {
    RunAppend(START, pre, [Reply(run, a)]);
    RunKeepsOk(START, pre);
    var w := Run(START, pre);
    assert Run(w, [Reply(run, a)]) == Run(Do(w, Reply(run, a)), [Reply(run, a)][1..]);
  }

  /** Nor does the superseded loop go on: the reply it was waiting for is its last. */
  lemma SupersededLoopEnds(pre: seq<Event>, run: nat, a: Answer, tail: seq<Event>)
    requires Possible(START, pre + [Reply(run, a)] + tail)
    requires run != Run(START, pre).token || !Run(START, pre).mounted
    ensures forall e :: e in tail ==> !(e.Reply? && e.run == run)
  {
    RunAppend(START, pre + [Reply(run, a)], tail);
    RunAppend(START, pre, [Reply(run, a)]);
    RunKeepsOk(START, pre);
    var w := Run(START, pre);
    assert Possible(w, [Reply(run, a)]) && [Reply(run, a)][1..] == [];
    var w' := Do(w, Reply(run, a));
    assert Run(w, [Reply(run, a)]) == Run(w', []);
    EndedLoopIsSilent(w', run, tail);
  }

  lemma {:induction false} EndedLoopIsSilent(w: World, run: nat, tail: seq<Event>)
    requires Ok(w) && Possible(w, tail)
    requires run in w.jobs && w.jobs[run].awaiting == None
    ensures forall e :: e in tail ==> !(e.Reply? && e.run == run)
    decreases |tail|
  {
    if tail != [] {
      assert tail == [tail[0]] + tail[1..];
      EndedLoopIsSilent(Do(w, tail[0]), run, tail[1..]);
    }
  }

  lemma {:induction false} RunAppend(w: World, a: seq<Event>, b: seq<Event>)
    ensures Run(w, a + b) == Run(Run(w, a), b)
    ensures Possible(w, a + b) <==> Possible(w, a) && Possible(Run(w, a), b)
    decreases |a|
  {
    if a == [] {
      assert a + b == b;
    } else {
      assert (a + b)[1..] == a[1..] + b;
      RunAppend(Do(w, a[0]), a[1..], b);
    }
  }

  /** The events after a start that belong to its scan, up to the unmount: its own replies, the
      user's ticks and the accept's steps. */
  function Own(run: nat, events: seq<Event>): seq<Solo>
    decreases |events|
  {
    if events == [] then []
    else
      match events[0]
      case Close => []
      case Reply(r, a) => (if r == run then [Got(a)] else []) + Own(run, events[1..])
      case Act(t) => [Ticked(t)] + Own(run, events[1..])
      case Accepting(e) => [Saved(e)] + Own(run, events[1..])
      case Start(_) => Own(run, events[1..])
  }

  lemma {:induction false} SilentAfterClose(w: World, events: seq<Event>)
    requires Ok(w) && !w.mounted && Possible(w, events)
    requires forall e :: e in events ==> !e.Start?
    ensures Run(w, events).ui == w.ui
    decreases |events|
  {
    if events != [] {
      assert events[0] in events;
      SilentAfterClose(Do(w, events[0]), events[1..]);
    }
  }

  lemma {:induction false} TailIsAlone(w: World, events: seq<Event>)
    requires Ok(w) && w.mounted && Possible(w, events)
    requires forall e :: e in events ==> !e.Start?
    ensures Run(w, events).ui == Alone(w.ui, w.jobs[w.token], Own(w.token, events)).0
    decreases |events|
  {
    if events != [] {
      var e := events[0];
      assert e in events;
      var w' := Do(w, e);
      var rest := Own(w.token, events[1..]);
      match e
      case Close => SilentAfterClose(w', events[1..]);
      case Act(t) =>
        TailIsAlone(w', events[1..]);
        assert ([Ticked(t)] + rest)[1..] == rest;
      case Accepting(wr) =>
        TailIsAlone(w', events[1..]);
        assert ([Saved(wr)] + rest)[1..] == rest;
      case Reply(r, a) =>
        TailIsAlone(w', events[1..]);
        assert ([Got(a)] + rest)[1..] == rest;
        assert [] + rest == rest;
    }
  }

  /** Whatever ran before and whatever else is still in flight, the screen is what a dialog shows
      that only ever ran the current scan. */
  lemma CurrentScanRunsAlone(pre: seq<Event>, q: Query, tail: seq<Event>)
    requires Possible(START, pre + [Start(q)] + tail)
    requires forall e :: e in tail ==> !e.Start?
    ensures var w := Run(START, pre);
            var (ui, job) := Begin(w.ui, q);
            Run(START, pre + [Start(q)] + tail).ui == Alone(ui, job, Own(NextToken(w), tail)).0
  {
    RunAppend(START, pre + [Start(q)], tail);
    RunAppend(START, pre, [Start(q)]);
    RunKeepsOk(START, pre);
    var w := Run(START, pre);
    assert [Start(q)][1..] == [];
    var started := Do(w, Start(q));
    assert Run(w, [Start(q)]) == Run(started, []) == started;
    TailIsAlone(started, tail);
  }

  // -------------------------------------------------------------- what a scan shows

  /** The answers a scan takes in: those up to and including the one that ends it. */
  function Taken(job: Job, events: seq<Solo>): seq<Answer>
    decreases |events|
  {
    if events == [] then []
    else if !events[0].Got? || job.awaiting == None then Taken(job, events[1..])
    else [events[0].answer] + Taken(NextJob(job, events[0].answer), events[1..])
  }

  function NextJob(job: Job, a: Answer): Job
    requires job.awaiting.Some?
  {
    match a
    case Failed(_) => job.(awaiting := None)
    case Page(_, _, _, _, next) =>
      if job.query.Review? then job.(awaiting := next)
      else if job.awaiting.value + SUGGEST_CHUNK < |job.query.ids| then
        job.(awaiting := Some(job.awaiting.value + SUGGEST_CHUNK))
      else job.(awaiting := None)
  }

  function GroupsOf(a: Answer): seq<Group> {
    if a.Page? then Filter(a.groups, HasAny) else []
  }

  lemma ReceiveShows(ui: Ui, job: Job, a: Answer)
    requires job.awaiting.Some? && ui.loading
    ensures var (ui', job') := Receive(ui, job, a);
            && job' == NextJob(job, a)
            && ui'.groups == ui.groups + GroupsOf(a)
            && (ui'.loading <==> job'.awaiting.Some?)
            && ui'.error == LastNotice(ui.error, AnswerNotices(a))
            && (job.query.Review? ==> (ui'.done, ui'.total) == Progress((ui.done, ui.total), [a]))
  {
    hide Filter, IncludeAll, StrongPairs;
    assert [a][1..] == [];
    if a.Page? { AddsGroups(ui, a.groups); }
  }

  lemma AddsGroups(ui: Ui, page: seq<Group>)
    ensures AddPage(ui, page).groups == ui.groups + Filter(page, HasAny)
  {
  }

  /** The progress a register-wide scan shows: that of its last page, and until the first page
      whatever was on screen before. */
  function Progress(before: (nat, nat), taken: seq<Answer>): (nat, nat)
    decreases |taken|
  {
    if taken == [] then before
    else Progress(if taken[0].Page? then (taken[0].offset + taken[0].scanned, taken[0].total) else before, taken[1..])
  }

  lemma ProgressFirst(before: (nat, nat), a: Answer, rest: seq<Answer>)
    ensures Progress(before, [a] + rest) == Progress(Progress(before, [a]), rest)
  {
    assert ([a] + rest)[1..] == rest && [a][1..] == [];
  }

  lemma TickShows(ui: Ui, t: Tick)
    ensures var ui' := Apply(ui, t);
            (ui'.groups, ui'.loading, ui'.error, ui'.done, ui'.total)
            == (ui.groups, ui.loading, ui.error, ui.done, ui.total)
  {
  }

  lemma WriteShows(ui: Ui, e: Write)
    ensures var ui' := ApplyWrite(ui, e);
            && (ui'.groups, ui'.loading, ui'.done, ui'.total) == (ui.groups, ui.loading, ui.done, ui.total)
            && ui'.error == LastNotice(ui.error, WriteNotices(e))
  {
  }

  /** What is put on the error line, and by whom; a starting accept clears it. */
  datatype Notice = ScanFailed(message: Message) | AcceptBegan | AcceptFailed(message: Message)

  function LineOf(n: Notice): Option<Message> {
    if n.AcceptBegan? then None else Some(n.message)
  }

  function WriteNotices(e: Write): seq<Notice> {
    match e
    case Began => [AcceptBegan]
    case Wrote => []
    case Fell(message) => [AcceptFailed(message)]
  }

  function AnswerNotices(a: Answer): seq<Notice> {
    if a.Failed? then [ScanFailed(a.message)] else []
  }

  /** Everything put on the error line while a scan is on screen. */
  function Notices(job: Job, events: seq<Solo>): seq<Notice>
    decreases |events|
  {
    if events == [] then []
    else
      match events[0]
      case Ticked(_) => Notices(job, events[1..])
      case Saved(e) => WriteNotices(e) + Notices(job, events[1..])
      case Got(a) =>
        if job.awaiting == None then Notices(job, events[1..])
        else AnswerNotices(a) + Notices(NextJob(job, a), events[1..])
  }

  function LastNotice(before: Option<Message>, notices: seq<Notice>): Option<Message> {
    if notices == [] then before else LineOf(notices[|notices| - 1])
  }

  lemma NoticeMore(before: Option<Message>, first: seq<Notice>, rest: seq<Notice>)
    ensures LastNotice(LastNotice(before, first), rest) == LastNotice(before, first + rest)
  {
  }

  /** What happened after the answer that failed the scan, if one did. */
  function SinceFailure(job: Job, events: seq<Solo>): Option<seq<Solo>>
    decreases |events|
  {
    if events == [] then None
    else if !events[0].Got? || job.awaiting == None then SinceFailure(job, events[1..])
    else if events[0].answer.Failed? then Some(events[1..])
    else SinceFailure(NextJob(job, events[0].answer), events[1..])
  }

  /** An accept starts or fails. */
  predicate Speaks(e: Solo) {
    e.Saved? && !e.write.Wrote?
  }

  ghost predicate Silent(events: seq<Solo>) {
    forall e :: e in events ==> !Speaks(e)
  }

  lemma SilentFirst(e: Solo, rest: seq<Solo>)
    ensures Silent([e] + rest) <==> !Speaks(e) && Silent(rest)
  {
    assert ([e] + rest)[0] == e;
  }

  /** A scan that has ended puts nothing more on the line. */
  lemma {:induction false} NoticesOfAccepts(job: Job, events: seq<Solo>)
    requires job.awaiting == None
    ensures Notices(job, events) == [] <==> Silent(events)
    ensures Notices(job, events) != [] ==> !Notices(job, events)[|Notices(job, events)| - 1].ScanFailed?
    decreases |events|
  {
    if events != [] {
      NoticesOfAccepts(job, events[1..]);
      assert events == [events[0]] + events[1..];
      SilentFirst(events[0], events[1..]);
    }
  }

  /** The scan's failure is what the line shows. */
  ghost predicate ShowsScan(notices: seq<Notice>) {
    notices != [] && notices[|notices| - 1].ScanFailed?
  }

  /** It is exactly when the scan has failed and no accept has started or failed since. */
  lemma {:induction false} ShowsScanExactly(job: Job, events: seq<Solo>)
    ensures ShowsScan(Notices(job, events)) <==>
            SinceFailure(job, events).Some? && Silent(SinceFailure(job, events).value)
    ensures var taken := Taken(job, events);
            && (SinceFailure(job, events).Some? <==> taken != [] && taken[|taken| - 1].Failed?)
            && (ShowsScan(Notices(job, events)) ==>
                  LastNotice(None, Notices(job, events)) == Some(taken[|taken| - 1].message))
    decreases |events|
  {
    if events != [] {
      var rest := events[1..];
      if !events[0].Got? || job.awaiting == None {
        ShowsScanExactly(job, rest);
      } else {
        var next := NextJob(job, events[0].answer);
        ShowsScanExactly(next, rest);
        if events[0].answer.Failed? {
          NothingTaken(next, rest);
          NoticesOfAccepts(next, rest);
        }
      }
    }
  }

  /** How many pages were taken in. */
  function Pages(taken: seq<Answer>): nat {
    if taken == [] then 0 else (if taken[0].Page? then 1 else 0) + Pages(taken[1..])
  }

  /** A scan of chosen controls stands at the controls answered for. */
  ghost predicate OnTrack(ui: Ui, job: Job) {
    job.query.Chosen? ==>
      && ui.total == |job.query.ids| && ui.done <= ui.total
      && (job.awaiting.Some? ==> job.awaiting.value == ui.done < ui.total)
  }

  lemma ReceiveKeepsTrack(ui: Ui, job: Job, a: Answer)
    requires job.awaiting.Some? && OnTrack(ui, job)
    ensures var (ui', job') := Receive(ui, job, a);
            && OnTrack(ui', job')
            && (job.query.Chosen? ==> ui'.done == Min(ui.total, ui.done + SUGGEST_CHUNK * Pages([a])))
  {
    hide Filter, IncludeAll, StrongPairs;
    assert [a][1..] == [];
  }

  /** The screen's groups are those of the pages taken in, in order, empty ones dropped; it loads
      while a request is out; its error is the last thing reported; and its progress is that of the
      last page of the register, or of the chosen controls answered for. */
  lemma {:induction false} AloneShowsItsPages(ui: Ui, job: Job, events: seq<Solo>)
    requires (ui.loading <==> job.awaiting.Some?) && OnTrack(ui, job)
    ensures var (end, j) := Alone(ui, job, events);
            var taken := Taken(job, events);
            && end.groups == ui.groups + FlatMap(taken, GroupsOf)
            && (end.loading <==> j.awaiting.Some?)
            && end.error == LastNotice(ui.error, Notices(job, events))
            && (job.query.Review? ==> (end.done, end.total) == Progress((ui.done, ui.total), taken))
            && (job.query.Chosen? ==>
                  end.total == ui.total && end.done == Min(ui.total, ui.done + SUGGEST_CHUNK * Pages(taken)))
    decreases |events|
  {
    hide Receive, Apply, ApplyWrite, GroupsOf, FlatMap, Progress, LastNotice, WriteNotices, AnswerNotices, Pages;
    if events == [] {
      NoAnswers(ui);
    } else if events[0].Ticked? {
      TickShows(ui, events[0].tick);
      AloneShowsItsPages(Apply(ui, events[0].tick), job, events[1..]);
    } else if events[0].Saved? {
      WriteShows(ui, events[0].write);
      AloneShowsItsPages(ApplyWrite(ui, events[0].write), job, events[1..]);
      NoticeMore(ui.error, WriteNotices(events[0].write), Notices(job, events[1..]));
    } else if job.awaiting == None {
      AloneShowsItsPages(ui, job, events[1..]);
    } else {
      var a := events[0].answer;
      var (ui', job') := Receive(ui, job, a);
      var taken := Taken(job', events[1..]);
      ReceiveShows(ui, job, a);
      ReceiveKeepsTrack(ui, job, a);
      AloneShowsItsPages(ui', job', events[1..]);
      FirstAnswer(ui.groups, a, taken);
      ProgressFirst((ui.done, ui.total), a, taken);
      PagesFirst(a, taken);
      NoticeMore(ui.error, AnswerNotices(a), Notices(job', events[1..]));
    }
  }

  lemma NoAnswers(ui: Ui)
    ensures ui.groups + FlatMap([], GroupsOf) == ui.groups
    ensures Progress((ui.done, ui.total), []) == (ui.done, ui.total)
    ensures LastNotice(ui.error, []) == ui.error && Pages([]) == 0
  {
  }

  lemma FirstAnswer(groups: seq<Group>, a: Answer, rest: seq<Answer>)
    ensures groups + GroupsOf(a) + FlatMap(rest, GroupsOf) == groups + FlatMap([a] + rest, GroupsOf)
  {
    assert ([a] + rest)[1..] == rest;
  }

  lemma PagesFirst(a: Answer, rest: seq<Answer>)
    ensures Pages([a] + rest) == Pages([a]) + Pages(rest)
  {
    assert ([a] + rest)[1..] == rest && [a][1..] == [];
  }

  lemma {:induction false} NothingTaken(job: Job, events: seq<Solo>)
    requires job.awaiting == None
    ensures Taken(job, events) == []
    decreases |events|
  {
    if events != [] { NothingTaken(job, events[1..]); }
  }

  /** In every interleaving the groups on screen are the non-empty groups of the pages the current
      scan received, in page order, and nothing else; loading and progress are that scan's; and the
      error is the last thing it or an accept reported since it began. */
  lemma GroupsAreTheCurrentScans(pre: seq<Event>, q: Query, tail: seq<Event>)
    requires Possible(START, pre + [Start(q)] + tail)
    requires forall e :: e in tail ==> !e.Start?
    ensures var w := Run(START, pre);
            var end := Run(START, pre + [Start(q)] + tail).ui;
            var job := Begin(w.ui, q).1;
            var own := Own(NextToken(w), tail);
            var taken := Taken(job, own);
            && end.groups == FlatMap(taken, GroupsOf)
            && (end.loading <==> Alone(Begin(w.ui, q).0, job, own).1.awaiting.Some?)
            && end.error == LastNotice(None, Notices(job, own))
            && (q.Review? ==> (end.done, end.total) == Progress((w.ui.done, w.ui.total), taken))
            && (q.Chosen? ==> end.total == |q.ids| && end.done == Min(|q.ids|, SUGGEST_CHUNK * Pages(taken)))
  {
    CurrentScanRunsAlone(pre, q, tail);
    var w := Run(START, pre);
    var (ui, job) := Begin(w.ui, q);
    AloneShowsItsPages(ui, job, Own(NextToken(w), tail));
  }

  /** The line shows the current scan's failure, if and only if its last answer failed and no accept has
      started or failed since. Without an accept there is an error exactly when that answer failed. */
  lemma ErrorIsTheScans(pre: seq<Event>, q: Query, tail: seq<Event>)
    requires Possible(START, pre + [Start(q)] + tail)
    requires forall e :: e in tail ==> !e.Start?
    ensures var w := Run(START, pre);
            var job, own := Begin(w.ui, q).1, Own(NextToken(w), tail);
            var taken, since := Taken(job, own), SinceFailure(job, own);
            var error := Run(START, pre + [Start(q)] + tail).ui.error;
            && error == LastNotice(None, Notices(job, own))
            && (ShowsScan(Notices(job, own)) <==> since.Some? && Silent(since.value))
            && (since.Some? <==> taken != [] && taken[|taken| - 1].Failed?)
            && (ShowsScan(Notices(job, own)) ==> error == Some(taken[|taken| - 1].message))
            && ((forall e :: e in tail ==> !e.Accepting?) ==> (error.Some? <==> since.Some?))
  {
    var w := Run(START, pre);
    var job, own := Begin(w.ui, q).1, Own(NextToken(w), tail);
    GroupsAreTheCurrentScans(pre, q, tail);
    hide Possible, Run, Begin, Taken, Own;
    ShowsScanExactly(job, own);
    if forall e :: e in tail ==> !e.Accepting? {
      OwnWithoutAccept(NextToken(w), tail);
      NoticesOfTheScan(job, own);
    }
  }

  /** As long as nothing is accepted, the only notice is the failure that ended the scan. */
  lemma {:induction false} NoticesOfTheScan(job: Job, events: seq<Solo>)
    requires forall e :: e in events ==> !e.Saved?
    ensures Notices(job, events) != [] <==> SinceFailure(job, events).Some?
    ensures Notices(job, events) != [] ==> ShowsScan(Notices(job, events))
    decreases |events|
  {
    if events != [] {
      var next := if events[0].Got? && job.awaiting.Some? then NextJob(job, events[0].answer) else job;
      assert events[0] in events;
      NoticesOfTheScan(next, events[1..]);
      if events[0].Got? && job.awaiting.Some? && events[0].answer.Failed? {
        NoticesOfAccepts(next, events[1..]);
        assert Silent(events[1..]);
      }
    }
  }

  lemma {:induction false} OwnWithoutAccept(run: nat, tail: seq<Event>)
    requires forall e :: e in tail ==> !e.Accepting?
    ensures forall e :: e in Own(run, tail) ==> !e.Saved?
    decreases |tail|
  {
    if tail != [] {
      assert tail[0] in tail;
      OwnWithoutAccept(run, tail[1..]);
    }
  }

  /** Pressing Accept clears the error of a scan that stopped short, although nothing about the scan
      has changed. */
  lemma AcceptHidesTheScansError(pre: seq<Event>)
    requires Possible(START, pre + [Accepting(Began)])
    ensures var before, after := Run(START, pre).ui, Run(START, pre + [Accepting(Began)]).ui;
            after == before.(error := None, saving := Some(Save(Submitted(before), 0)))
  {
    var w := Run(START, pre);
    RunAppend(START, pre, [Accepting(Began)]);
    assert Run(w, [Accepting(Began)]) == Run(Do(w, Accepting(Began)), [Accepting(Began)][1..]);
  }

  // ------------------------------------------------------- a scan nobody disturbs

  /** What the server holds: the register's controls in scope, with their suggestions, and the
      groups it returns for one control id (none when the control is gone). */
  datatype Server = Server(register: seq<Group>, groupsOf: Id -> seq<Group>)

  function ReviewPage(s: Server, offset: nat): Answer {
    var n := |s.register|;
    var controls := s.register[Min(offset, n)..Min(offset + REVIEW_PAGE, n)];
    var end := offset + |controls|;
    Page(Filter(controls, HasAny), offset, |controls|, n, if controls != [] && end < n then Some(end) else None)
  }

  function SuggestPage(s: Server, chunk: seq<Id>): Answer {
    Page(FlatMap(chunk, s.groupsOf), 0, 0, 0, None)
  }

  function Honest(s: Server, job: Job): Answer
    requires job.awaiting.Some?
  {
    var i := job.awaiting.value;
    match job.query
    case Review(_) => ReviewPage(s, i)
    case Chosen(ids) => SuggestPage(s, ids[Min(i, |ids|)..Min(i + SUGGEST_CHUNK, |ids|)])
  }

  /** Every group the server would return for the first `n` controls of the query at once. */
  function Whole(s: Server, q: Query, n: nat): seq<Group>
    requires n <= Size(s, q)
  {
    match q
    case Review(_) => s.register[..n]
    case Chosen(ids) => FlatMap(ids[..n], s.groupsOf)
  }

  function Size(s: Server, q: Query): nat {
    match q
    case Review(_) => |s.register|
    case Chosen(ids) => |ids|
  }

  /** The answers a loop gets from an honest server until it stops. */
  function Replies(s: Server, job: Job): seq<Solo>
    decreases if job.awaiting == None || job.awaiting.value > Size(s, job.query) then 0
              else 1 + Size(s, job.query) - job.awaiting.value
  {
    if job.awaiting == None || job.awaiting.value > Size(s, job.query) then []
    else [Got(Honest(s, job))] + Replies(s, NextJob(job, Honest(s, job)))
  }

  /** The loop of the scan effect, answered by an honest server. */
  method Scan(ui0: Ui, q: Query, s: Server) returns (ui: Ui)
    ensures ui == Alone(Begin(ui0, q).0, Begin(ui0, q).1, Replies(s, Begin(ui0, q).1)).0
  {
    hide Alone, Replies, Filter, IncludeAll, FlatMap, StrongPairs;
    ghost var (begun, job) := Begin(ui0, q);
    ghost var goal := Alone(begun, job, Replies(s, job)).0;
    if job.awaiting == None { Stopped(begun, job, s); }
    ui := ui0.(groups := [], picked := [], error := None, shown := GROUPS_SHOWN, loading := true);
    match q {
      case Chosen(ids) =>
        ui := ui.(done := 0, total := |ids|);
        var i := 0;
        while i < |ids|
          invariant ui.loading
          invariant if i < |ids| then goal == Alone(ui, Job(q, Some(i)), Replies(s, Job(q, Some(i)))).0
                    else goal == ui.(loading := false)
        {
          var chunk := ids[i..Min(i + SUGGEST_CHUNK, |ids|)];
          var res := SuggestPage(s, chunk);
          HonestStep(ui, Job(q, Some(i)), s);
          ui := AddPage(ui, res.groups);
          ui := ui.(done := Min(|ids|, i + |chunk|), total := |ids|);
          i := i + SUGGEST_CHUNK;
        }
      case Review(_) =>
        var offset := Some(0);
        while offset != None
          invariant ui.loading
          invariant offset.Some? ==> offset.value <= |s.register|
          invariant if offset.Some? then goal == Alone(ui, Job(q, offset), Replies(s, Job(q, offset))).0
                    else goal == ui.(loading := false)
          decreases if offset == None then 0 else 1 + |s.register| - offset.value
        {
          var page := ReviewPage(s, offset.value);
          HonestStep(ui, Job(q, offset), s);
          ui := AddPage(ui, page.groups);
          ui := ui.(done := page.offset + page.scanned, total := page.total);
          offset := page.next;
        }
    }
    ui := ui.(loading := false);
  }

  lemma Stopped(ui: Ui, job: Job, s: Server)
    requires job.awaiting == None
    ensures Alone(ui, job, Replies(s, job)) == (ui, job)
  {
  }

  lemma ReceiveNext(ui: Ui, job: Job, a: Answer)
    requires job.awaiting.Some?
    ensures Receive(ui, job, a).1 == NextJob(job, a)
  {
    hide AddPage;
  }

  lemma HonestStep(ui: Ui, job: Job, s: Server)
    requires job.awaiting.Some? && job.awaiting.value <= Size(s, job.query)
    ensures var (ui', job') := Receive(ui, job, Honest(s, job));
            && job' == NextJob(job, Honest(s, job))
            && Alone(ui, job, Replies(s, job)) == Alone(ui', job', Replies(s, job'))
            && (job'.awaiting == None ==> Alone(ui', job', Replies(s, job')) == (ui', job'))
  {
    hide Receive, Honest, NextJob;
    var a := Honest(s, job);
    ReceiveNext(ui, job, a);
    var (ui', job') := Receive(ui, job, a);
    var rest := Replies(s, job');
    assert Replies(s, job) == [Got(a)] + rest;
    assert ([Got(a)] + rest)[1..] == rest;
    if job'.awaiting == None { Stopped(ui', job', s); }
  }

  lemma FilterTwice(a: seq<Group>, b: seq<Group>)
    ensures Filter(a + b, HasAny) == Filter(a, HasAny) + Filter(Filter(b, HasAny), HasAny)
  {
    FilterAppend(a, b, HasAny);
    FilterAll(Filter(b, HasAny), HasAny);
  }

  lemma ReviewExtends(s: Server, from: nat)
    requires from <= |s.register|
    ensures Filter(s.register[..Min(from + REVIEW_PAGE, |s.register|)], HasAny)
            == Filter(s.register[..from], HasAny) + Filter(ReviewPage(s, from).groups, HasAny)
  {
    hide Filter;
    var end := Min(from + REVIEW_PAGE, |s.register|);
    assert s.register[..end] == s.register[..from] + s.register[from..end];
    FilterTwice(s.register[..from], s.register[from..end]);
  }

  lemma ChosenExtends(s: Server, ids: seq<Id>, from: nat)
    requires from <= |ids|
    ensures var end := Min(from + SUGGEST_CHUNK, |ids|);
            Filter(FlatMap(ids[..end], s.groupsOf), HasAny)
            == Filter(FlatMap(ids[..from], s.groupsOf), HasAny) + Filter(FlatMap(ids[from..end], s.groupsOf), HasAny)
  {
    hide Filter, FlatMap;
    var end := Min(from + SUGGEST_CHUNK, |ids|);
    assert ids[..end] == ids[..from] + ids[from..end];
    FlatMapAppend(ids[..from], ids[from..end], s.groupsOf);
    FilterAppend(FlatMap(ids[..from], s.groupsOf), FlatMap(ids[from..end], s.groupsOf), HasAny);
  }

  lemma PageExtends(s: Server, q: Query, from: nat)
    requires from <= Size(s, q)
    ensures var end := Min(from + (if q.Review? then REVIEW_PAGE else SUGGEST_CHUNK), Size(s, q));
            Filter(Whole(s, q, end), HasAny)
            == Filter(Whole(s, q, from), HasAny) + Filter(Honest(s, Job(q, Some(from))).groups, HasAny)
  {
    hide Filter, FlatMap;
    match q
    case Review(_) => ReviewExtends(s, from);
    case Chosen(ids) => ChosenExtends(s, ids, from);
  }

  lemma StrongExtend(a: seq<Group>, b: seq<Group>)
    ensures IncludeAll(IncludeAll([], StrongPairs(a)), StrongPairs(b)) == IncludeAll([], StrongPairs(a + b))
  {
    FlatMapAppend(a, b, g => PairsOf(Strong(g)));
    IncludeAllAppend([], StrongPairs(a), StrongPairs(b));
  }

  /** The screen after the first `n` controls have been answered for. */
  ghost predicate ShowsFirst(ui: Ui, s: Server, q: Query, n: nat) {
    && n <= Size(s, q)
    && ui.groups == Filter(Whole(s, q, n), HasAny)
    && ui.picked == IncludeAll([], StrongPairs(ui.groups))
    && ui.error == None
  }

  lemma ShowsNext(ui: Ui, q: Query, s: Server, from: nat)
    requires ShowsFirst(ui, s, q, from) && (from < Size(s, q) || (q.Review? && from == 0)) && ui.loading
    ensures var end := Min(from + (if q.Review? then REVIEW_PAGE else SUGGEST_CHUNK), Size(s, q));
            var (ui', job') := Receive(ui, Job(q, Some(from)), Honest(s, Job(q, Some(from))));
            && ShowsFirst(ui', s, q, end)
            && ui'.done == end && ui'.total == Size(s, q)
            && job' == Job(q, if end < Size(s, q) then Some(end) else None)
            && (ui'.loading <==> end < Size(s, q))
  {
    hide Filter, IncludeAll, FlatMap, StrongPairs, HasAny;
    PageExtends(s, q, from);
    StrongExtend(ui.groups, Filter(Honest(s, Job(q, Some(from))).groups, HasAny));
  }

  lemma {:induction false} HonestRest(ui: Ui, q: Query, s: Server, from: nat)
    requires ShowsFirst(ui, s, q, from) && (from < Size(s, q) || (q.Review? && from == 0)) && ui.loading
    ensures var job := Job(q, Some(from));
            var end := Alone(ui, job, Replies(s, job)).0;
            ShowsFirst(end, s, q, Size(s, q)) && !end.loading && end.done == end.total == Size(s, q)
    decreases Size(s, q) - from
  {
    hide ShowsFirst, Receive, Honest, Replies, Alone;
    ShowsInScope(ui, s, q, from);
    var job := Job(q, Some(from));
    var (ui', job') := Receive(ui, job, Honest(s, job));
    HonestStep(ui, job, s);
    ShowsNext(ui, q, s, from);
    var end := Min(from + (if q.Review? then REVIEW_PAGE else SUGGEST_CHUNK), Size(s, q));
    if end < Size(s, q) { HonestRest(ui', q, s, end); }
  }

  lemma ShowsInScope(ui: Ui, s: Server, q: Query, n: nat)
    requires ShowsFirst(ui, s, q, n)
    ensures n <= Size(s, q)
  {
  }

  lemma BeginShowsFirst(ui: Ui, q: Query, s: Server)
    ensures ShowsFirst(Begin(ui, q).0, s, q, 0)
    ensures !(q.Chosen? && q.ids == []) ==> Begin(ui, q).0.loading && Begin(ui, q).1 == Job(q, Some(0))
  {
    if q.Chosen? { assert q.ids[..0] == []; }
  }

  /** A scan that runs to its end shows every control's suggestions, in order, each once, with the
      strong ones ticked, and reports the whole scope as scanned. */
  lemma HonestScanShowsAll(ui0: Ui, q: Query, s: Server)
    ensures var (ui, job) := Begin(ui0, q);
            var end := Alone(ui, job, Replies(s, job)).0;
            ShowsFirst(end, s, q, Size(s, q)) && !end.loading && end.done == end.total == Size(s, q)
  {
    var (ui, job) := Begin(ui0, q);
    BeginShowsFirst(ui0, q, s);
    hide Alone, Replies, ShowsFirst;
    if job.awaiting.Some? { HonestRest(ui, q, s, 0); } else { Stopped(ui, job, s); }
  }
}
