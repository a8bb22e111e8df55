/** The archive dialog: a paged client copy of the server's archive from which records are
    restored, with page loads and restores as separate requests that may overlap.

    The search text is fixed and the archive holds distinct records; the only changes to it are
    the restores made here. */
module ArchiveList {
  import opened Lists

  type Id = nat

  const PAGE := 50

  /** The server's page at `offset`. */
  function PageAt(archive: seq<Id>, offset: nat): seq<Id> {
    archive[Min(offset, |archive|)..Min(offset + PAGE, |archive|)]
  }

  lemma PageExtends(archive: seq<Id>, n: nat)
    requires n <= |archive|
    ensures archive[..n] + PageAt(archive, n) == archive[..Min(n + PAGE, |archive|)]
    ensures n < |archive| ==> PageAt(archive, n) != []
  {
  }

  // -------------------------------------------------------------------- the client

  datatype Client = Client(rows: seq<Id>, total: nat)

  function LandPage(c: Client, offset: nat, items: seq<Id>, total: nat): Client {
    Client(if offset == 0 then items else c.rows + items, total)
  }

  function LandRestore(c: Client, id: Id): Client {
    Client(Without(c.rows, id), if c.total > 0 then c.total - 1 else 0)
  }

  /** The rows are the first records of the archive, and the total is its length. */
  ghost predicate Exact(c: Client, archive: seq<Id>) {
    c.rows <= archive && c.total == |archive|
  }

  class ArchiveDialog {
    var rows: seq<Id>
    var total: nat

    constructor ()
      ensures Now() == Client([], 0)
    {
      rows, total := [], 0;
    }

    ghost function Now(): Client
      reads this
    {
      Client(rows, total)
    }

    method Load(offset: nat, items: seq<Id>, count: nat)
      modifies this
      ensures Now() == LandPage(old(Now()), offset, items, count)
    {
      rows := if offset == 0 then items else rows + items;
      total := count;
    }

    method Restored(id: Id)
      modifies this
      ensures Now() == LandRestore(old(Now()), id)
    {
      rows := Without(rows, id);
      total := if total > 0 then total - 1 else 0;
    }

    /** "Show more" for as long as it is offered, from any moment at which the rows are exact. */
    method ShowAll(archive: seq<Id>)
      requires Exact(Now(), archive)
      modifies this
      ensures rows == archive && total == |archive|
    {
      while |rows| < total
        invariant Exact(Now(), archive)
        decreases total - |rows|
      {
        PageExtends(archive, |rows|);
        Load(|rows|, PageAt(archive, |rows|), |archive|);
      }
      assert archive[..|archive|] == archive;
    }
  }

  // ------------------------------------------------------ requests that may overlap

  /** A page request: asked, or read by the server and on its way back. */
  datatype Load = NoLoad | Asked(offset: nat) | Read(offset: nat, items: seq<Id>, total: nat)

  /** A restore: asked, or carried out and its answer on its way back. */
  datatype Restore = NoRestore | Wanted(id: Id) | Done(id: Id)

  datatype World = World(archive: seq<Id>, client: Client, failed: bool, load: Load, restore: Restore)

  /** A restore fails on screen when the server refuses it, and also when the server carries it out
      and the answer is lost. */
  datatype Event =
    | ShowMore | ServerReads | PageLands | PageFails
    | Click(id: Id) | ServerRestores | RestoreLands | RestoreRefused | RestoreLost

  /** The dialog as it opens: the first page is asked for. */
  function Opening(archive: seq<Id>): World {
    World(archive, Client([], 0), false, Asked(0), NoRestore)
  }

  /** What the buttons and the network allow: one load and one restore at a time. */
  ghost predicate Enabled(w: World, e: Event) {
    match e
    case ShowMore => w.load.NoLoad? && |w.client.rows| < w.client.total && !w.failed
    case ServerReads => w.load.Asked?
    case PageLands => w.load.Read?
    case PageFails => !w.load.NoLoad?
    case Click(id) => w.restore.NoRestore? && id in w.client.rows
    case ServerRestores => w.restore.Wanted? && w.restore.id in w.archive
    case RestoreLands => w.restore.Done?
    case RestoreRefused => w.restore.Wanted?
    case RestoreLost => w.restore.Done?
  }

  function Do(w: World, e: Event): World {
    match e
    case ShowMore => if !w.load.NoLoad? then w else w.(load := Asked(|w.client.rows|), failed := false)
    case ServerReads =>
      if !w.load.Asked? then w
      else w.(load := Read(w.load.offset, PageAt(w.archive, w.load.offset), |w.archive|))
    case PageLands =>
      if !w.load.Read? then w
      else w.(client := LandPage(w.client, w.load.offset, w.load.items, w.load.total), load := NoLoad)
    case PageFails => w.(load := NoLoad, failed := true)
    case Click(id) => w.(restore := Wanted(id))
    case ServerRestores =>
      if !w.restore.Wanted? then w
      else w.(archive := Without(w.archive, w.restore.id), restore := Done(w.restore.id))
    case RestoreLands =>
      if !w.restore.Done? then w
      else w.(client := LandRestore(w.client, w.restore.id), restore := NoRestore)
    case RestoreRefused => w.(restore := NoRestore)
    case RestoreLost => w.(restore := NoRestore)
  }

  function Run(w: World, events: seq<Event>): World
    decreases |events|
  {
    if events == [] then w else Run(Do(w, events[0]), events[1..])
  }

  ghost predicate Possible(w: World, events: seq<Event>)
    decreases |events|
  {
    events == [] || (Enabled(w, events[0]) && Possible(Do(w, events[0]), events[1..]))
  }

  /** The rows still in the archive; a restored one stays on screen until its answer arrives, and
      for good when the answer is lost. */
  function Kept(rows: seq<Id>, archive: seq<Id>): (r: seq<Id>)
    ensures |r| <= |rows|
    ensures forall x :: x in r <==> x in rows && x in archive
  {
    if rows == [] then [] else (if rows[0] in archive then [rows[0]] else []) + Kept(rows[1..], archive)
  }

  function Shown(w: World): seq<Id> {
    Kept(w.client.rows, w.archive)
  }

  function Arriving(w: World): seq<Id> {
    if w.load.Read? then w.load.items else []
  }

  /** The rows, and after them the page on its way, are the start of the archive. */
  ghost predicate Prefix(w: World) {
    Shown(w) + Arriving(w) <= w.archive
  }

  ghost predicate Inv(w: World) {
    && Distinct(w.archive) && Distinct(w.client.rows)
    && Prefix(w)
    && (w.load.Asked? ==> w.load.offset >= |Shown(w)|)
    && (!w.load.NoLoad? && w.load.offset == 0 ==> w.client.rows == [])
    && (w.restore.Done? ==> w.restore.id in w.client.rows && w.restore.id !in w.archive)
    && (w.restore.Wanted? ==> w.restore.id in w.client.rows)
  }

  /** The page about to be read continues the rows, or there is nothing left to read: its offset
      counts no restored record, whether the answer is awaited or lost. */
  predicate InStep(w: World) {
    w.load.Asked? ==> w.load.offset == |Shown(w)| || w.load.offset >= |w.archive|
  }

  /** Every page is read in step. */
  ghost predicate AllInStep(w: World, events: seq<Event>)
    decreases |events|
  {
    events == [] || ((events[0].ServerReads? ==> InStep(w)) && AllInStep(Do(w, events[0]), events[1..]))
  }

  ghost predicate AlwaysPrefix(w: World, events: seq<Event>)
    decreases |events|
  {
    Prefix(w) && (events == [] || AlwaysPrefix(Do(w, events[0]), events[1..]))
  }

  // --------------------------------------------------------------- removing a record

  /** Removing a record leaves one fewer. */
  lemma {:induction false} WithoutCount(rows: seq<Id>, id: Id)
    requires Distinct(rows) && id in rows
    ensures |Without(rows, id)| == |rows| - 1
  {
    if rows[0] == id {
      WithoutAbsent(rows[1..], id);
    } else {
      WithoutCount(rows[1..], id);
    }
  }

  /** Removing a record from an archive and from a prefix of it leaves a prefix. */
  lemma PrefixWithout(shown: seq<Id>, arriving: seq<Id>, archive: seq<Id>, id: Id)
    requires Distinct(archive) && shown + arriving <= archive && id in shown
    ensures Without(shown, id) + arriving <= Without(archive, id)
  {
    var n := |shown + arriving|;
    assert archive == shown + arriving + archive[n..];
    var j :| 0 <= j < |shown| && shown[j] == id;
    assert archive[j] == id;
    forall i | 0 <= i < |arriving| ensures arriving[i] != id {
      assert archive[|shown| + i] == arriving[i];
    }
    forall i | 0 <= i < |archive[n..]| ensures archive[n..][i] != id {
      assert archive[n + i] != archive[j];
    }
    WithoutAbsent(archive[n..], id);
    WithoutAbsent(arriving, id);
    WithoutAppend(shown + arriving, archive[n..], id);
    WithoutAppend(shown, arriving, id);
  }

  // -------------------------------------------------------- the rows still archived

  lemma {:induction false} KeptAppend(a: seq<Id>, b: seq<Id>, archive: seq<Id>)
    ensures Kept(a + b, archive) == Kept(a, archive) + Kept(b, archive)
  {
    if a == [] {
      assert a + b == b;
    } else {
      assert (a + b)[1..] == a[1..] + b;
      KeptAppend(a[1..], b, archive);
    }
  }

  lemma {:induction false} KeptAll(rows: seq<Id>, archive: seq<Id>)
    requires forall x :: x in rows ==> x in archive
    ensures Kept(rows, archive) == rows
  {
    if rows != [] { KeptAll(rows[1..], archive); }
  }

  /** Restoring a record takes it from the rows that are still archived. */
  lemma {:induction false} KeptRestore(rows: seq<Id>, archive: seq<Id>, id: Id)
    ensures Kept(rows, Without(archive, id)) == Without(Kept(rows, archive), id)
  {
    if rows != [] {
      var head, tail := if rows[0] in archive then [rows[0]] else [], Kept(rows[1..], archive);
      KeptRestore(rows[1..], archive, id);
      WithoutAppend(head, tail, id);
      assert Without([rows[0]], id) == if rows[0] == id then [] else [rows[0]];
    }
  }

  /** Taking a restored record off the screen changes nothing else. */
  lemma {:induction false} KeptLand(rows: seq<Id>, archive: seq<Id>, id: Id)
    requires id !in archive
    ensures Kept(Without(rows, id), archive) == Kept(rows, archive)
  {
    if rows != [] {
      var tail := Without(rows[1..], id);
      KeptLand(rows[1..], archive, id);
      assert Without(rows, id) == if rows[0] == id then tail else [rows[0]] + tail;
      assert ([rows[0]] + tail)[1..] == tail;
    }
  }

  // ------------------------------------------------------------- every interleaving

  /** A page is read in step with the rows exactly when its offset counts no restored record, or
      when there was nothing left to read. */
  lemma PageFitsExactly(w: World)
    requires Inv(w) && w.load.Asked?
    ensures Prefix(Do(w, ServerReads)) <==> InStep(w)
  {
    assert Shown(w) + [] == Shown(w);
    PageFits(w.archive, Shown(w), w.load.offset);
  }

  lemma PageFits(archive: seq<Id>, shown: seq<Id>, offset: nat)
    requires Distinct(archive) && shown <= archive && offset >= |shown|
    ensures shown + PageAt(archive, offset) <= archive <==> offset == |shown| || offset >= |archive|
  {
    if offset == |shown| {
      PageExtends(archive, |shown|);
    } else if offset < |archive| {
      SkippedRecord(archive, |shown|, offset);
    } else {
      assert PageAt(archive, offset) == [];
    }
  }

  lemma SkippedRecord(archive: seq<Id>, n: nat, offset: nat)
    requires Distinct(archive) && n < offset < |archive|
    ensures archive[n] !in archive[..n] + PageAt(archive, offset)
    ensures !(archive[..n] + PageAt(archive, offset) <= archive)
  {
    var rows, items := archive[..n] + PageAt(archive, offset), PageAt(archive, offset);
    assert forall i :: 0 <= i < |items| ==> items[i] == archive[offset + i];
    assert rows[n] == items[0] == archive[offset];
  }

  lemma RestoreKeepsInv(w: World)
    requires Inv(w) && Enabled(w, ServerRestores)
    ensures Inv(Do(w, ServerRestores))
  {
    var id := w.restore.id;
    WithoutDistinct(w.archive, id);
    KeptRestore(w.client.rows, w.archive, id);
    PrefixWithout(Shown(w), Arriving(w), w.archive, id);
    DistinctPrefix(Shown(w) + Arriving(w), w.archive);
    DistinctParts(Shown(w), Arriving(w));
    WithoutCount(Shown(w), id);
  }

  lemma LandRestoreKeepsInv(w: World)
    requires Inv(w) && w.restore.Done?
    ensures Inv(Do(w, RestoreLands))
  {
    WithoutDistinct(w.client.rows, w.restore.id);
    KeptLand(w.client.rows, w.archive, w.restore.id);
  }

  lemma LandPageKeepsInv(w: World)
    requires Inv(w) && w.load.Read?
    ensures Inv(Do(w, PageLands))
  {
    var rows, items, archive := w.client.rows, w.load.items, w.archive;
    assert Do(w, PageLands).client.rows == rows + items;
    DistinctPrefix(Shown(w) + items, archive);
    DistinctParts(Shown(w), items);
    assert forall x :: x in items ==> x in Shown(w) + items;
    KeptAppend(rows, items, archive);
    KeptAll(items, archive);
    assert Shown(w) + items + [] == Shown(w) + items;
    DistinctAppend(rows, items);
  }

  lemma StepKeepsInv(w: World, e: Event)
    requires Inv(w) && Enabled(w, e)
    requires e.ServerReads? ==> InStep(w)
    ensures Inv(Do(w, e))
  {
    match e
    case ServerReads => PageFitsExactly(w);
    case PageLands => LandPageKeepsInv(w);
    case ServerRestores => RestoreKeepsInv(w);
    case RestoreLands => LandRestoreKeepsInv(w);
    case PageFails =>
      assert Arriving(Do(w, e)) == [] && Shown(w) + [] == Shown(w);
    case ShowMore =>
    case Click(id) =>
    case RestoreRefused =>
    case RestoreLost =>
  }

  /** In every interleaving of loads and restores, answered or lost: the rows still in the archive,
      followed by the page on its way, are at every moment the start of the archive, without gap or
      duplicate, if and only if every page is read in step. */
  lemma {:induction false} PrefixIffInStep(w: World, events: seq<Event>)
    requires Inv(w) && Possible(w, events)
    ensures AlwaysPrefix(w, events) <==> AllInStep(w, events)
    ensures AllInStep(w, events) ==> Inv(Run(w, events))
    decreases |events|
  {
    hide Inv, Prefix, InStep, Enabled, Do;
    InvIsPrefix(w);
    if events != [] {
      var next := Do(w, events[0]);
      if events[0].ServerReads? && !InStep(w) {
        ReadOutOfStep(w);
      } else {
        StepKeepsInv(w, events[0]);
        PrefixIffInStep(next, events[1..]);
      }
    }
  }

  lemma InvIsPrefix(w: World)
    requires Inv(w)
    ensures Prefix(w)
  {
  }

  lemma ReadOutOfStep(w: World)
    requires Inv(w) && Enabled(w, ServerReads) && !InStep(w)
    ensures !Prefix(Do(w, ServerReads))
  {
    PageFitsExactly(w);
  }

  // ------------------------------------------------------ loads and restores apart

  ghost predicate Apart(w: World) {
    w.load.NoLoad? || w.restore.NoRestore?
  }

  ghost predicate ApartRun(w: World, events: seq<Event>)
    decreases |events|
  {
    events == [] || (Apart(Do(w, events[0])) && ApartRun(Do(w, events[0]), events[1..]))
  }

  ghost predicate Settled(w: World) {
    w.load.NoLoad? && w.restore.NoRestore?
  }

  /** The only row no longer archived is one whose answer is awaited, and it is still counted. */
  ghost predicate Counted(w: World) {
    && (forall x :: x in w.client.rows ==> x in w.archive || w.restore == Done(x))
    && (w.load.Asked? ==> w.load.offset == |w.client.rows|)
    && (w.load.Read? ==> w.load.total == |w.archive|)
    && w.client.total == |w.archive| + if w.restore.Done? then 1 else 0
  }

  /** Whenever nothing is outstanding, the rows and the total are exact. */
  ghost predicate AlwaysExact(w: World, events: seq<Event>)
    decreases |events|
  {
    && (Settled(w) ==> Exact(w.client, w.archive))
    && (events == [] || AlwaysExact(Do(w, events[0]), events[1..]))
  }

  lemma CountedIsExact(w: World)
    requires Inv(w) && Counted(w) && w.restore.NoRestore?
    ensures Shown(w) == w.client.rows && InStep(w)
    ensures Settled(w) ==> Exact(w.client, w.archive)
  {
    KeptAll(w.client.rows, w.archive);
    assert Shown(w) + [] == Shown(w);
  }

  lemma StepKeepsCount(w: World, e: Event)
    requires Inv(w) && Counted(w) && Apart(w) && Enabled(w, e) && Apart(Do(w, e))
    requires !e.RestoreLost?
    ensures Inv(Do(w, e)) && Counted(Do(w, e))
  {
    if w.restore.NoRestore? { CountedIsExact(w); }
    StepKeepsInv(w, e);
    if e.ServerRestores? { WithoutCount(w.archive, w.restore.id); }
    if e.PageLands? { assert forall x :: x in w.load.items ==> x in Shown(w) + w.load.items; }
  }

  /** A restore whose answer is lost leaves a row that is not in the archive. */
  lemma LostIsNotExact(w: World)
    requires Inv(w) && Apart(w) && w.restore.Done?
    ensures Settled(Do(w, RestoreLost)) && !Exact(Do(w, RestoreLost).client, w.archive)
  {
  }

  /** When no load overlaps a restore: whenever nothing is outstanding the rows are the first records
      of the archive as it then is and the total is its length, if and only if no restore's answer is
      lost. */
  lemma {:induction false} ApartRunIsExact(w: World, events: seq<Event>)
    requires Inv(w) && Counted(w) && Apart(w) && Possible(w, events) && ApartRun(w, events)
    ensures AlwaysExact(w, events) <==> RestoreLost !in events
    ensures RestoreLost !in events ==> Inv(Run(w, events)) && Counted(Run(w, events))
    decreases |events|
  {
    if w.restore.NoRestore? { CountedIsExact(w); }
    hide Inv, Counted, Exact, Do;
    if events != [] {
      var e, rest := events[0], events[1..];
      assert events == [e] + rest;
      if e == RestoreLost {
        LostIsNotExact(w);
      } else {
        StepKeepsCount(w, e);
        ApartRunIsExact(Do(w, e), rest);
      }
    }
  }

  /** The dialog once its first page has landed, from where the theorems about runs start. */
  lemma OpeningLands(archive: seq<Id>)
    requires Distinct(archive)
    ensures Inv(Opening(archive))
    ensures var w := Do(Do(Opening(archive), ServerReads), PageLands);
            Inv(w) && Counted(w) && Settled(w) && w.client.rows == PageAt(archive, 0)
  {
    var w := Opening(archive);
    assert Shown(w) + Arriving(w) == [];
    StepKeepsInv(w, ServerReads);
    StepKeepsInv(Do(w, ServerReads), PageLands);
  }

  // ------------------------------------------------------------ out of step: a gap

  /** A page read out of step skips a record, which stays out of the rows when the restore's answer
      arrives. The restore may be awaiting its answer, answered or lost. */
  lemma LatePageSkips(w: World)
    requires Inv(w) && w.load.Asked? && |Shown(w)| < w.load.offset < |w.archive|
    ensures var end := Do(Do(w, ServerReads), PageLands);
            && end.archive == Do(end, RestoreLands).archive == w.archive
            && w.archive[|Shown(w)|] !in end.client.rows
            && w.archive[|Shown(w)|] !in Do(end, RestoreLands).client.rows
  {
    var n, archive := |Shown(w)|, w.archive;
    assert Shown(w) + [] == Shown(w) == archive[..n];
    SkippedRecord(archive, n, w.load.offset);
    assert archive[n] !in archive[..n] && archive[n] !in PageAt(archive, w.load.offset);
    assert archive[n] in archive;
  }

  /** A run, followed through its states. */
  lemma {:induction false} Follow(states: seq<World>, events: seq<Event>)
    requires |states| == |events| + 1
    requires forall i :: 0 <= i < |events| ==> Steps(states[i], events[i], states[i + 1])
    ensures Possible(states[0], events) && Run(states[0], events) == states[|events|]
    ensures (forall i :: 0 < i < |states| ==> Apart(states[i])) ==> ApartRun(states[0], events)
  {
    if events != [] {
      assert Steps(states[0], events[0], states[1]);
      Follow(states[1..], events[1..]);
    }
  }

  ghost predicate Steps(w: World, e: Event, next: World) {
    Enabled(w, e) && next == Do(w, e)
  }

  /** The dialog after its first page has landed and the first record's restore is carried out. */
  function FirstRestored(archive: seq<Id>): seq<World>
    requires |archive| > PAGE
  {
    [Opening(archive),
     World(archive, Client([], 0), false, Read(0, archive[..PAGE], |archive|), NoRestore),
     World(archive, Client(archive[..PAGE], |archive|), false, NoLoad, NoRestore),
     World(archive, Client(archive[..PAGE], |archive|), false, NoLoad, Wanted(archive[0])),
     World(archive[1..], Client(archive[..PAGE], |archive|), false, NoLoad, Done(archive[0]))]
  }

  lemma FirstRestoredSteps(archive: seq<Id>)
    requires Distinct(archive) && |archive| > PAGE
    ensures var s := FirstRestored(archive);
            && Steps(s[0], ServerReads, s[1]) && Steps(s[1], PageLands, s[2])
            && Steps(s[2], Click(archive[0]), s[3]) && Steps(s[3], ServerRestores, s[4])
  {
    WithoutFirst(archive);
    hide Without, Distinct;
    assert archive[..PAGE][0] == archive[0] && archive[..PAGE][0] in archive[..PAGE];
  }

  lemma WithoutFirst(archive: seq<Id>)
    requires Distinct(archive) && archive != []
    ensures Without(archive, archive[0]) == archive[1..]
  {
    WithoutAbsent(archive[1..], archive[0]);
  }

  lemma FirstRestoredShows(archive: seq<Id>)
    requires Distinct(archive) && |archive| > PAGE
    ensures Shown(FirstRestored(archive)[4]) == archive[1..PAGE]
  {
    var page := archive[1..PAGE];
    KeptAll(page, archive[1..]);
    assert archive[..PAGE][0] == archive[0] && archive[..PAGE][1..] == page;
  }

  lemma FirstRestoredInv(archive: seq<Id>)
    requires Distinct(archive) && |archive| > PAGE
    ensures Inv(FirstRestored(archive)[4])
  {
    FirstRestoredShows(archive);
    assert Shown(FirstRestored(archive)[4]) + [] == archive[1..PAGE];
    DistinctPrefix(archive[..PAGE], archive);
    DistinctParts([archive[0]], archive[1..]);
    assert [archive[0]] + archive[1..] == archive;
    assert archive[0] in [archive[0]] && archive[..PAGE][0] == archive[0];
  }

  /** Any archive of more than a page and one record has such a run: the first record is restored and
      "Show more" is pressed before the answer arrives. Once everything has, the record after the
      first page is in the archive but not among the rows. */
  lemma OverlapLeavesGap(archive: seq<Id>)
    requires Distinct(archive) && |archive| > PAGE + 1
    ensures var events := [ServerReads, PageLands, Click(archive[0]), ServerRestores,
                           ShowMore, ServerReads, PageLands, RestoreLands];
            var end := Run(Opening(archive), events);
            && Possible(Opening(archive), events) && Settled(end) && !end.failed
            && archive[PAGE] in end.archive && archive[PAGE] !in end.client.rows
  {
    var s := FirstRestored(archive);
    var w5 := Do(s[4], ShowMore);
    var w6 := Do(w5, ServerReads);
    var w7 := Do(w6, PageLands);
    FirstRestoredSteps(archive);
    FirstRestoredShows(archive);
    FirstRestoredInv(archive);
    StepKeepsInv(s[4], ShowMore);
    LatePageSkips(w5);
    assert s[4].archive[PAGE - 1] == archive[PAGE];
    assert Steps(s[4], ShowMore, w5) && Steps(w5, ServerReads, w6) && Steps(w6, PageLands, w7);
    assert Steps(w7, RestoreLands, Do(w7, RestoreLands));
    hide Steps, Do, FirstRestored;
    Follow([s[0], s[1], s[2], s[3], s[4], w5, w6, w7, Do(w7, RestoreLands)],
           [ServerReads, PageLands, Click(archive[0]), ServerRestores, ShowMore, ServerReads, PageLands, RestoreLands]);
  }

  /** The same without any overlap, when the restore's answer is lost: the next page skips a record. */
  lemma LostAnswerLeavesGap(archive: seq<Id>)
    requires Distinct(archive) && |archive| > PAGE + 1
    ensures var events := [ServerReads, PageLands, Click(archive[0]), ServerRestores,
                           RestoreLost, ShowMore, ServerReads, PageLands];
            var end := Run(Opening(archive), events);
            && Possible(Opening(archive), events) && ApartRun(Opening(archive), events) && Settled(end) && !end.failed
            && archive[PAGE] in end.archive && archive[PAGE] !in end.client.rows
  {
    var s := FirstRestored(archive);
    var w5 := Do(s[4], RestoreLost);
    var w6 := Do(w5, ShowMore);
    var w7 := Do(w6, ServerReads);
    var w8 := Do(w7, PageLands);
    FirstRestoredSteps(archive);
    FirstRestoredShows(archive);
    FirstRestoredInv(archive);
    StepKeepsInv(s[4], RestoreLost);
    StepKeepsInv(w5, ShowMore);
    LatePageSkips(w6);
    assert s[4].archive[PAGE - 1] == archive[PAGE];
    assert Steps(s[4], RestoreLost, w5) && Steps(w5, ShowMore, w6);
    assert Steps(w6, ServerReads, w7) && Steps(w7, PageLands, w8);
    hide Steps, Do, FirstRestored;
    Follow([s[0], s[1], s[2], s[3], s[4], w5, w6, w7, w8],
           [ServerReads, PageLands, Click(archive[0]), ServerRestores, RestoreLost, ShowMore, ServerReads, PageLands]);
  }

  // ------------------------------------------------------------- requests that fail

  /** A load or one of its steps. */
  predicate IsLoading(e: Event) {
    e.ShowMore? || e.ServerReads? || e.PageLands? || e.PageFails?
  }

  lemma LoadingIgnoresRestores(w: World, e: Event, r: Restore)
    requires IsLoading(e)
    ensures Do(w.(restore := r), e) == Do(w, e).(restore := r)
  {
  }

  lemma {:induction false} LoadsIgnoreRestores(w: World, events: seq<Event>, r: Restore)
    requires forall e :: e in events ==> IsLoading(e)
    ensures Run(w.(restore := r), events) == Run(w, events).(restore := r)
    decreases |events|
  {
    if events != [] {
      assert events[0] in events;
      LoadingIgnoresRestores(w, events[0], r);
      hide Do;
      LoadsIgnoreRestores(Do(w, events[0]), events[1..], r);
    }
  }

  lemma {:induction false} RunAndOne(w: World, events: seq<Event>, last: Event)
    ensures Run(w, events + [last]) == Do(Run(w, events), last)
    decreases |events|
  {
    hide Do;
    if events == [] {
      assert [] + [last] == [last] && [last][1..] == [];
    } else {
      assert (events + [last])[1..] == events[1..] + [last];
      RunAndOne(Do(w, events[0]), events[1..], last);
    }
  }

  /** Whatever is loaded meanwhile, a restore the server refuses leaves everything as if nobody had asked for it. */
  lemma RefusedRestoreLeavesNoTrace(w: World, id: Id, loads: seq<Event>)
    requires w.restore.NoRestore?
    requires forall e :: e in loads ==> IsLoading(e)
    ensures Run(w, [Click(id)] + loads + [RestoreRefused]) == Run(w, loads)
  {
    RunAndOne(w, [Click(id)] + loads, RestoreRefused);
    assert ([Click(id)] + loads)[1..] == loads;
    LoadsIgnoreRestores(w, loads, Wanted(id));
    LoadsIgnoreRestores(w, loads, NoRestore);
  }

  /** After a load has failed no further page is ever asked for, nor arrives: the rows only shrink. */
  lemma {:induction false} NoPageAfterFailure(w: World, tail: seq<Event>)
    requires w.failed && w.load.NoLoad? && Possible(w, tail)
    ensures forall e :: e in tail ==> !IsLoading(e)
    ensures forall id :: id in Run(w, tail).client.rows ==> id in w.client.rows
    decreases |tail|
  {
    if tail != [] {
      NoPageAfterFailure(Do(w, tail[0]), tail[1..]);
      assert tail == [tail[0]] + tail[1..];
    }
  }

  /** The button "Show more" is gone for good with the first load that fails: what was not loaded then is out of reach
      under that search text. */
  lemma FailedLoadEndsPaging(archive: seq<Id>, pre: seq<Event>, tail: seq<Event>)
    requires Possible(Opening(archive), pre + [PageFails])
    requires Possible(Run(Opening(archive), pre + [PageFails]), tail)
    ensures forall e :: e in tail ==> !IsLoading(e)
    ensures forall id :: id in Run(Run(Opening(archive), pre + [PageFails]), tail).client.rows ==>
                           id in Run(Opening(archive), pre).client.rows
  {
    RunAndOne(Opening(archive), pre, PageFails);
    NoPageAfterFailure(Run(Opening(archive), pre + [PageFails]), tail);
  }
}
