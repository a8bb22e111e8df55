# Proofs for the Nexusline client

This project models the parts of Nexusline that keep state or compute something exact, and proves
what they promise. It is plain Dafny 4.11; `dafny verify dfyconfig.toml` checks all of it.

| file | what it models |
|---|---|
| `UnitTree.dfy` | the business-unit tree from the database to the picker: the server's depth-first list, the picker's descendant set and search, the server's cycle guard, and runs of edits |
| `UnitRequests.dfy` | re-parenting requests that overlap: the server's walk up the ancestry, one read at a time, and its write |
| `UnitEdits.dfy` | which units are listed and where they hang after any run of edits |
| `EscapeLayer.dfy` | the shared Escape stack: the module's state and insertion loop, the React lifecycle that drives it, the key |
| `BulkReview.dfy` | page scans that can be overtaken, guarded by a run token; the sequential scan they must look like |
| `BulkAccept.dfy` | which ticked pairs are submitted and which are on screen, the chunked write that can stop part-way and be repeated, and the text keys of the ticks |
| `BulkTicks.dfy` | the last word on every tick, the filter, "Show more" and the accept's progress over whole runs |
| `BulkScope.dfy` | accepting while the scan of unmapped controls still runs: the offsets of the pages after that |
| `LoadTest.dfy`, `LoadTally.dfy`, `Percentile.dfy` | virtual users interleaving at their awaits, the buckets, told from the events of the run, and the report; the percentile, the release gate and the weighted pick |
| `Csv.dfy` | the CSV printer against a reader for section 2 of RFC 4180 |
| `TableLayout.dfy` | the visible columns as a normal form, the column chooser's commits and drags, runs of saving, applying and deleting views |
| `Headings.dfy` | how the server makes a file's headings unique |
| `ColumnMapping.dfy` | the import wizard's column mapping, its counts, required fields and profiles |
| `ArchiveList.dfy` | the paged copy of the archive while records are restored from it |
| `RiskGroups.dfy` | grouping of risk proposals, the group's scores, and what is sent |
| `MenuFocus.dfy`, `MenuWords.dfy` | arrow keys, Home, End and typeahead in a dropdown menu; typing whole words |
| `RiskBands.dfy` | severity bands, the heat map's distribution, the cell overrides |
| `Lists.dfy` | sequences and insertion-ordered sets used by the others |

State that the source updates in place is a class whose methods are proved equal to functions on
values (`Stack`, `Client`, `Destinations`, …); concurrent behaviour is a step function over a state
value, an `Enabled` predicate for what the surroundings allow, and lemmas about all runs. Where requests
may overlap, a request, what the server does and the answer are separate steps; `UnitTree` alone takes
edits one at a time, and `UnitRequests` takes its re-parentings apart. Server answers are arbitrary
unless a lemma says it is about an honest server. Ids and handlers are numbers compared for
equality; names enter only through an arbitrary ranking.

## Where the code does less than its comments say

Each of these is a lemma, with the exact condition under which the promise holds.

- The unit picker hides a unit's descendants "so nobody can make a unit its own ancestor". A unit
  under an archived parent is listed as a root, so it is offered even when its chain continues to
  the edited unit (`UnitTree.ArchivedParentFoolsPicker`). The picker agrees with the server if and
  only if there is no such detour (`UnitTree.PickerAgrees`); the server's own guard is exact when edits
  come one at a time.
- The server's cycle guard reads the ancestry and writes afterwards, without a lock. Two requests that
  overlap can both pass it and close a cycle (`UnitRequests.OverlapClosesCycle`). The tree stays a tree
  if and only if at each write the new parent, in the links as they then are, does not lead to the unit
  (`UnitRequests.ForestExactly`), as it does when no other re-parenting is written during a request
  (`UnitRequests.UndisturbedKeepsForest`).
- The Escape stack says a discarded render only leaves a gap in the numbers. An already mounted hook
  stamped in a discarded render keeps its number and later opens below layers that opened before it
  (`EscapeLayer.DiscardedRenderBreaksOrder`), or below its parent in the same pass
  (`EscapeLayer.StaleChildOpensBelow`). A pass keeps the opening order if and only if every hook that
  opens with such a number has it above those of all layers that stay open and of all that open before
  it (`EscapeLayer.PassFollowsOrder`); the same over whole runs is `EscapeLayer.OrderExactly`.
- The archive dialog's "Show more" asks from the number of rows on screen. A restore that has been
  carried out but whose answer is awaited, or lost, still counts there, and a record is skipped
  (`ArchiveList.OverlapLeavesGap`, `ArchiveList.LostAnswerLeavesGap`, `ArchiveList.LatePageSkips`).
  `ArchiveList.PrefixIffInStep` is the condition over whole runs; without overlap it is that no answer
  is lost (`ArchiveList.ApartRunIsExact`).
- The archive dialog offers "Show more" only while no error is shown, and only loading clears the error. After one
  failed page the rest is out of reach under that search text (`ArchiveList.FailedLoadEndsPaging`).
- Accept's comment says "only what is ticked and shown". What is submitted is what the framework
  filter leaves, so strong matches past the first hundred groups, ticked as they arrive, are sent
  before "Show more" has rendered them (`BulkAccept.UnrenderedAreSubmitted`). Only rendered ticks are
  sent if and only if every group the filter leaves is rendered (`BulkAccept.SubmitsOnlyRenderedExactly`).
- Accept is enabled while the scan of unmapped controls runs. What it links leaves the scope, and when
  it fails afterwards the scan goes on from an offset that now passes over as many controls
  (`BulkScope.AcceptDuringScanSkips`). Every page reads on where the scan stopped if and only if
  whenever one is read no control looked at has been linked, or none is left; then the scan misses
  nothing (`BulkScope.ScanReadsOnExactly`).
- Accept and the scan share one error line. Starting an accept clears the error of a scan that stopped
  short (`BulkReview.AcceptHidesTheScansError`); the line shows the scan's failure if and only if no
  accept has started or failed since (`BulkReview.ErrorIsTheScans`).
- `Bucket.pct` calls itself nearest rank. When `p·n/100` is an odd whole number below `n`, half-even
  rounding reads the next rank up (`Percentile.NearestRankExactly`, `Percentile.MedianOfTwo`). It is
  a true quantile for every input.
- The CSV printer does not quote for CR. Every reader that breaks rows at LF only gets the rows back;
  one that also breaks at CR LF does exactly when no row but the last ends in a bare CR
  (`Csv.RoundTripCrLf`).
- The wizard's ignored count is wrong when a heading occurs twice. The server numbers repeated
  headings, but a number can make a heading that the file already has: `A`, `A`, `A (2)` reach the
  wizard as `A`, `A (2)`, `A (2)` (`Headings.HeadingsCanRepeat`, `ColumnMapping.BadgeCountsTwice`). The
  count is right if and only if no repeated heading is given a name the file uses
  (`ColumnMapping.BadgeExactly`).
- Typing one letter again is meant to walk through its matches. An item that starts with the letter
  twice holds the focus (`MenuFocus.DoubleLetterSticks`); no item is focused twice, from any start and
  at any pace, if and only if there is no such item or at most one match
  (`MenuFocus.RepeatedLetterExactly`).
- In register-wide mode a new scan keeps the progress of the one before until its first page
  (`BulkReview.GroupsAreTheCurrentScans`).

## Model

| member | source | states |
|---|---|---|
| UnitTree.Flattener.Walk | backend/app/api/v1/pickers.py:106-114 | one walk adds whole subtrees: every unit it lists has all its children listed, deeper lines, each under its real parent and in name order, and nothing already written changes |
| UnitTree.Flattener.WalkAll | backend/app/api/v1/pickers.py:113-119 | the same for a sorted list of siblings, roots or left-over units |
| UnitTree.Flatten | backend/app/api/v1/pickers.py:83-120 | for any data, cyclic or not: every unit is listed once, the indentation determines the parent (nearest line above with one level less), children of one parent stand in name order, and without a cycle so do the roots and every parent link is shown |
| UnitTree.ListingIsExact | backend/app/api/v1/pickers.py:86-88 | the list shows all parent links if and only if they have no cycle |
| UnitTree.OutlineIsAcyclic | backend/app/api/v1/pickers.py:86-88 | the links any such list shows are acyclic |
| UnitTree.AllReached | backend/app/api/v1/pickers.py:117-119 | without a cycle the pass over the roots leaves nothing over |
| UnitTree.DescendantsOf | frontend/components/BusinessUnitSelect.tsx:41-46 | on any list the set holds only the root and units whose links reach it; on a depth-first list it holds exactly those |
| UnitTree.Search | frontend/components/BusinessUnitSelect.tsx:74-89 | the options are the first 200, in list order, of the units that match and lie outside the excluded subtree |
| UnitTree.ParentRefused | backend/app/api/v1/organization.py:218-234 | the walk terminates on any links and refuses exactly when the proposed parent already leads to the unit |
| UnitTree.ReparentAcyclic | backend/app/api/v1/organization.py:220-221 | re-parenting keeps the links acyclic if and only if the new parent does not reach the unit |
| UnitTree.ServerKeepsForest | backend/app/api/v1/organization.py:190-251 | over any run of re-parentings, creations, archivings and restores the server accepts one at a time, the tree stays a tree |
| UnitEdits.ListedExactly | backend/app/api/v1/organization.py:190-251 | over any accepted run a unit is listed if and only if it was created, restored or there to begin with and has not been archived since; none is listed twice |
| UnitEdits.ParentIsTheLastGiven | backend/app/api/v1/organization.py:190-251 | a unit hangs where the last creation or re-parenting of it put it, through archiving and restoring |
| UnitRequests.ForestExactly | backend/app/api/v1/organization.py:218-236 | over any run of overlapping requests the tree stays a tree, if and only if at each write the new parent does not lead to the unit in the links as they then are |
| UnitRequests.UndisturbedKeepsForest | backend/app/api/v1/organization.py:218-236 | it does when no other re-parenting is written between a request and its write |
| UnitRequests.PendingExactly | backend/app/api/v1/organization.py:216-237 | over any run a request is under way exactly from when it is asked for until it is refused or written |
| UnitRequests.OverlapClosesCycle | backend/app/api/v1/organization.py:218-236 | two roots each moved under the other: both walks pass, and together they close a cycle |
| UnitTree.PickerAgrees | frontend/components/BusinessUnitSelect.tsx:17-18 | the picker offers exactly the parents the server accepts, if and only if no unit reaches the edited one through an archived parent |
| UnitTree.ArchivedParentFoolsPicker | frontend/components/BusinessUnitSelect.tsx:17-18 | a three-unit tree with an archived middle where an offered parent closes a cycle |
| UnitTree.PickerKeepsForest | frontend/components/BusinessUnitSelect.tsx:76-80 | over any run of re-parentings, creations, archivings and restores made one at a time, whose parents were picked from the list of that moment, with no detour to a re-parented unit, the server never refuses and the tree stays a tree |
| UnitTree.DetoursNeedOrphans | backend/app/api/v1/organization.py:190-251 | detours come only from archiving a unit with children or restoring one under an archived parent |
| EscapeLayer.EscapeStack.InsertLayer | frontend/lib/escapeLayer.ts:66-70 | the loop puts the layer below every layer numbered above it |
| EscapeLayer.EscapeStack.Render | frontend/lib/escapeLayer.ts:77-81 | what a render leaves in the ref: nothing when inactive, the number it had, or the next one |
| EscapeLayer.EscapeStack.Register | frontend/lib/escapeLayer.ts:83-87 | the effect inserts the layer with its hook's number, or the next one, and leaves the listener installed |
| EscapeLayer.EscapeStack.Unregister | frontend/lib/escapeLayer.ts:88-92 | removes the layer and drops the listener when the stack is empty |
| EscapeLayer.EscapeStack.OnKeyDown | frontend/lib/escapeLayer.ts:42-52 | one handler, the top layer's, for an Escape that was not consumed; none otherwise; prevented exactly then |
| EscapeLayer.RunKeepsInv | frontend/lib/escapeLayer.ts:73-94 | in every state reached by any renders (also discarded), commits, effects and cleanups in any order: the stack is strictly sorted, holds exactly the mounted layers, no number is shared, and the listener is installed exactly when it is non-empty |
| EscapeLayer.SettledStackIsActiveHooks | frontend/lib/escapeLayer.ts:54-64 | when nothing is outstanding the stack holds one layer per active hook, and the listener is there exactly when one is active |
| EscapeLayer.SortedUnique | frontend/lib/escapeLayer.ts:38 | a sorted stack is determined by the layers it holds, whatever order they were inserted in |
| EscapeLayer.PassFollowsOrder | frontend/lib/escapeLayer.ts:77-93 | a committed pass, with its cleanups and effects in any order and any numbers left by discarded renders, changes the stack as the opening order says, if and only if every hook that opens with such a number has it above all layers that stay and all that open before it |
| EscapeLayer.OrderExactly | frontend/lib/escapeLayer.ts:16-20 | over any run of discarded and committed passes the stack is always the opening order, if and only if every committed pass is so |
| EscapeLayer.StackIsOpeningOrder | frontend/lib/escapeLayer.ts:16-20 | over any run of passes with nothing discarded the stack is the opening order |
| EscapeLayer.OrderFromStart | frontend/lib/escapeLayer.ts:16-20 | in particular from the empty stack |
| EscapeLayer.NewLayerIsAbove | frontend/lib/escapeLayer.ts:16-20 | a layer that opens sits above those already open and above those rendered before it in the same pass |
| EscapeLayer.EscapeRunsNewestHandlerOfTop | frontend/lib/escapeLayer.ts:29-30 | after a pass in order an unconsumed Escape runs exactly the most recently opened layer's handler, as last rendered |
| EscapeLayer.EscapeClosesInReverse | frontend/lib/escapeLayer.ts:42-52 | from any state between passes, if handlers close their layers, n presses run the n handlers from the top down and leave no layer and no listener |
| EscapeLayer.OpensOnTop | frontend/lib/escapeLayer.ts:77-81 | a layer that opens alone lands on top if and only if its ref was clear or still above every open layer's number |
| EscapeLayer.RemountedOpensOnTop | frontend/lib/escapeLayer.ts:74-81 | a hook unmounted and mounted again has forgotten its number and opens on top |
| EscapeLayer.DiscardedRenderBreaksOrder | frontend/lib/escapeLayer.ts:77-81 | a run in which a mounted hook's render is thrown away and the layer opened last is not on top |
| EscapeLayer.StaleChildOpensBelow | frontend/lib/escapeLayer.ts:16-20 | a run after which a child that opens with its parent lies below it, although nothing else is open |
| BulkReview.SupersededReplyIsSilent | frontend/components/SuggestedClauses.tsx:223-240 | a reply to a superseded or unmounted scan leaves the whole screen as it was |
| BulkReview.SupersededLoopEnds | frontend/components/SuggestedClauses.tsx:223-245 | the reply a superseded loop was waiting for is its last: it asks for nothing more |
| BulkReview.CurrentScanRunsAlone | frontend/components/SuggestedClauses.tsx:199-248 | in every interleaving, accepts included, the whole screen equals that of a dialog that only ever ran the current scan, without tokens |
| BulkReview.GroupsAreTheCurrentScans | frontend/components/SuggestedClauses.tsx:207-248 | the groups are the non-empty groups of the current scan's pages in order; loading while it awaits; progress its last page's, or the chosen controls answered for; the error the last thing the scan or an accept reported |
| BulkReview.ErrorIsTheScans | frontend/components/SuggestedClauses.tsx:238-242 | the line shows the scan's failure if and only if its last answer failed and no accept has started or failed since |
| BulkReview.AcceptHidesTheScansError | frontend/components/SuggestedClauses.tsx:312-313 | starting an accept clears the line and changes nothing else of the scan |
| BulkReview.AloneShowsItsPages | frontend/components/SuggestedClauses.tsx:207-241 | the same for a scan that is never overtaken, from any screen |
| BulkReview.Scan | frontend/components/SuggestedClauses.tsx:216-242 | the loops, against an honest server, compute what the step-by-step scan does |
| BulkReview.HonestScanShowsAll | backend/app/services/clause_suggestions.py:811-840 | a scan that is not overtaken ends with every control's suggestions in order, once each, exactly the strong ones ticked, and the whole scope reported |
| BulkAccept.ShownPairs | frontend/components/SuggestedClauses.tsx:271-278 | the filter leaves a pair exactly when a loaded group suggests it in the chosen framework |
| BulkAccept.SubmittedIsTickedAndShown | frontend/components/SuggestedClauses.tsx:283-310 | in every reachable state Accept sends each pair ticked and left by the filter once, and their number is the one on the button; what is ticked is `BulkTicks.LastWordDecides` |
| BulkTicks.LastWordDecides | frontend/components/SuggestedClauses.tsx:199-215 | over any run a pair is ticked if and only if some event ticked it and none since unticked it: a flip of it unticked, a bulk select, or a page of the current scan with it strong, against a flip of it ticked, a bulk deselect, "Clear" or a new scan |
| BulkTicks.SentExactly | frontend/components/SuggestedClauses.tsx:288-310 | Accept sends a pair if and only if the last word on it ticked it and a loaded group suggests it in the chosen framework |
| BulkTicks.TicksInOrder | frontend/components/SuggestedClauses.tsx:288-302 | the ticks stand in the order in which they were last set |
| BulkTicks.SentInOrder | frontend/components/SuggestedClauses.tsx:304-310 | and are sent in that order |
| BulkTicks.ListFollowsTheUser | frontend/components/SuggestedClauses.tsx:381-460 | over any run the list is filtered by the framework chosen last and shows a hundred groups more for each "Show more" since the filter was chosen or the scan started |
| BulkTicks.AcceptProgress | frontend/components/SuggestedClauses.tsx:304-333 | whatever happens meanwhile an accept sends what was submitted when it began, counts 500 pairs for each answer, ends when all are answered, and at once on a failure |
| BulkAccept.SubmitsOnlyRenderedExactly | frontend/components/SuggestedClauses.tsx:305-310 | in every reachable state with one group a control: whatever is ticked only rendered pairs are sent, if and only if every group the filter leaves is rendered |
| BulkAccept.UnrenderedAreSubmitted | frontend/components/SuggestedClauses.tsx:441 | a scan of more than a hundred controls with strong matches sends one that is not rendered |
| BulkAccept.Accept | frontend/components/SuggestedClauses.tsx:304-334 | requests are whole chunks of 500 of the pairs in order; a failure leaves exactly the answered prefix, and at most the failing chunk besides; the new links reported are the links added |
| BulkAccept.RetryReachesTheSameLinks | frontend/components/SuggestedClauses.tsx:327-330 | the loop repeated with the same ticks, any number of times: once an attempt does not fail the links are those of one uninterrupted run; all fail exactly when each has a failing request |
| BulkScope.NextPageSkips | backend/app/services/clause_suggestions.py:811-840 | after more controls are linked, the next page passes over exactly as many controls as were looked at and are now linked |
| BulkScope.NextPageFitsExactly | backend/app/services/clause_suggestions.py:811-840 | it continues the scan if and only if that number is zero or no control is left |
| BulkScope.ScanReadsOnExactly | backend/app/services/clause_suggestions.py:811-840 | over a whole scan with growing links every page reads on where the scan stopped, if and only if whenever one is read no control looked at has been linked or none is left; then every control still unmapped at the end has been looked at |
| BulkScope.ScanStartsKept | frontend/components/SuggestedClauses.tsx:229 | a scan that starts meets what that asks for |
| BulkScope.AcceptDuringScanSkips | frontend/components/SuggestedClauses.tsx:229-236 | in any register of more than a page, a run in which an accept during the scan leaves a control unreviewed |
| PairKeys.KeyRoundTrip | frontend/components/SuggestedClauses.tsx:175 | the pair split from a key is the pair it was made from if and only if neither id contains a colon |
| LoadTest.EveryInterleaving | scripts/loadtest.py:149-174 | at every await: completed plus awaited requests at most cap + users − 1; completed = samples + errors = statuses; each bucket's failing statuses are its errors; which bucket is `LoadTally.EachEndpointsBucket` |
| LoadTally.UsersFollowTheirEvents | scripts/loadtest.py:149-174 | at every await each user is ready, out of its loop, or awaiting the endpoint its own last test picked, and the counter is the number of replies |
| LoadTally.EachEndpointsBucket | scripts/loadtest.py:155-171 | at every await, for each endpoint: it has one bucket, from its first request on; the bucket's samples are the elapsed times of the successful replies to users awaiting that endpoint, in order; its errors and each status count are the numbers of such replies |
| LoadTest.BoundIsReached | scripts/loadtest.py:149-172 | for any users and cap some run reaches that bound |
| LoadTest.FinishedRunMeetsCap | scripts/loadtest.py:149 | a test that ends without running out of time made at least cap and at most cap + users − 1 requests |
| LoadTest.RecordBalances | scripts/loadtest.py:156-171 | a request adds one sample or one error, and one status |
| LoadTest.Report | scripts/loadtest.py:209-250 | the totals equal the requests recorded; failures by status count each failing status over all buckets and sum to the errors |
| LoadTest.ReportCountsCompleted | scripts/loadtest.py:210-214 | after any run the report's request total is the counter |
| Percentile.PctIsAQuantile | scripts/loadtest.py:95-101 | the result is a real sample v with 100·(samples below v) ≤ p·n ≤ 100·(samples at most v) |
| Percentile.PctMonotone | scripts/loadtest.py:95-101 | a higher percentile never reads a lower sample |
| Percentile.RankIsCeiling | scripts/loadtest.py:99-101 | the rank is the ceiling of p·n/100, at least 1, and one more on an odd tie below n |
| Percentile.NearestRankExactly | scripts/loadtest.py:99-101 | it is the nearest rank if and only if there is no such tie |
| Percentile.MedianOfTwo | scripts/loadtest.py:99-101 | the 50th percentile of two samples is the larger |
| Percentile.GateMeans95Percent | scripts/loadtest.py:273-278 | of its successful requests an endpoint within budget answered at least 95% within it, one over budget at most 95% |
| Percentile.CountSorted | scripts/loadtest.py:98 | sorting changes no count of samples satisfying a bound |
| Percentile.Weighted | scripts/loadtest.py:123-131 | the entry returned is the one the mark falls to; the first for a mark of 0, the last past the total |
| Percentile.MarksArePartitioned | scripts/loadtest.py:123-131 | each mark above 0 up to the total falls to exactly one entry, over a span equal to its weight |
| Csv.RoundTrip | frontend/components/DataTable.tsx:143-145 | a reader with LF as the only row break recovers the rows of any table of one or more cells a row |
| Csv.UniquelyDecodable | frontend/components/ImportExport.tsx:594-601 | two tables with the same text are the same table |
| Csv.PrintedAsItIs | frontend/components/DataTable.tsx:143-145 | a cell is printed as it is if and only if it holds no quote, comma or LF; else it grows by two quotes and one for each of its own |
| Csv.RoundTripCrLf | frontend/components/DataTable.tsx:143-145 | a reader that also breaks rows at CR LF recovers them if and only if no row but the last ends in a CR in a cell without quote, comma or LF |
| Csv.ReadDocument | frontend/components/DataTable.tsx:143-145 | exactly what either reader gets |
| Csv.LoneCRIsLost | frontend/components/DataTable.tsx:143-145 | a two-row table on which the two readers differ |
| Csv.ExportSelection | frontend/components/DataTable.tsx:333-341 | after the leading BOM the export reads back as a row of headings and a row for each selected record with its texts, in the order of the columns; with no data column shown, as as many rows of one empty cell |
| TableLayout.Visible | frontend/components/DataTable.tsx:232-239 | the loops compute the layout of the remembered, or else the default, columns |
| TableLayout.LayoutShows | frontend/components/DataTable.tsx:230-239 | shown are exactly the chosen declared columns in their order, then the missing locked ones, of which "actions" is one and last; duplicates are not introduced |
| TableLayout.LayoutIsNormalForm | frontend/components/DataTable.tsx:230-239 | the layout is idempotent, and leaves a list alone if and only if it is declared, holds every locked column and has "actions" only at its end |
| TableLayout.DefaultLayoutShows | frontend/components/DataTable.tsx:225-228 | without a remembered layout: the columns not hidden, and the locked ones |
| TableLayout.MovePlaces | frontend/components/DataTable.tsx:648-653 | a drag is a permutation, puts the column immediately before its target and keeps the others in order |
| TableLayout.EveryOrderIsReachable | frontend/components/DataTable.tsx:648-653 | although a drop only places before, every arrangement is reached by drops |
| TableLayout.ChosenIsShown | frontend/components/DataTable.tsx:646-698 | what hiding, adding or dragging commits is exactly what is then shown; what that is is `TableLayout.ChoosingTakesEffect` |
| TableLayout.ChoosingTakesEffect | frontend/components/DataTable.tsx:646-698 | unless a column was remembered twice: on screen hiding takes out exactly the one column, adding puts it after the other data columns, a drop puts it immediately before its target; every other column stays in its order, and a drop on itself changes nothing |
| TableLayout.EveryChoiceTakesEffect | frontend/components/DataTable.tsx:646-698 | the same, with no such condition, after any run of choices, saves, applications, deletions and resets in a table that declares no column twice |
| TableLayout.EveryChoiceIsShown | frontend/components/DataTable.tsx:646-698 | the same over any run of choices |
| TableLayout.ActiveViewIsShown | frontend/components/DataTable.tsx:350-386 | over any run of choosing columns, saving, applying and deleting views and resetting: while a view is marked active the columns shown are that view's |
| TableLayout.ViewRoundTrip | frontend/components/DataTable.tsx:354-382 | whatever happens in between, applying a saved view shows the columns that were on screen when it was saved |
| TableLayout.Preferences.Choosing | frontend/components/DataTable.tsx:241 | the committed columns are remembered and no view is active; an offered choice does on screen what `TableLayout.ChoosingTakesEffect` says |
| TableLayout.Preferences.Save | frontend/components/DataTable.tsx:367-382 | the columns on screen become a view, which is active |
| TableLayout.Preferences.Apply | frontend/components/DataTable.tsx:354-365 | when the views hold, an existing view's columns come on screen as saved; "All items" shows the default layout; no view changes |
| TableLayout.Preferences.Delete | frontend/components/DataTable.tsx:384-386 | no view has the id any more, the others keep their columns and order, what is on screen is unchanged, and only that view stops being active |
| ColumnMapping.OptionRoundTrip | frontend/components/ImportExport.tsx:510-514 | an option is read back as its destination, except a field whose heading is empty or starts with "cf:", and only then |
| ColumnMapping.Wizard.SetDestination | frontend/components/ImportExport.tsx:510-526 | the column gets the destination the option stands for, a column that held the field it takes becomes ignored, nothing else changes |
| ColumnMapping.EditsStayInjective | frontend/components/ImportExport.tsx:510-526 | over any run of edits no two columns fill the same field |
| ColumnMapping.LastEditDecides | frontend/components/ImportExport.tsx:510-526 | over any run a column ends at a field or custom field if and only if it was sent there, or was there, and since then nobody sent it elsewhere or took its field |
| Headings.DedupeHeaders | backend/app/services/import_mapping.py:288-301 | the loop gives every heading the name and number that `Headings.NumberedInTurn` describes |
| Headings.NumberedInTurn | backend/app/services/import_mapping.py:292-300 | a blank heading is named by its place; the first of its kind keeps its name, the second gets 2, each later one the number after that of the one before |
| Headings.DecimalValue | backend/app/services/import_mapping.py:293-296 | the numerals are the decimal ones of their numbers |
| Headings.DedupedExactly | backend/app/services/import_mapping.py:288-289 | the result is distinct if and only if no repeated heading is given a name the file uses itself |
| Headings.HeadingsCanRepeat | backend/app/services/import_mapping.py:288-301 | a file of three columns for which it is not |
| ColumnMapping.CountsPartition | frontend/components/ImportExport.tsx:441-443 | mapped, custom and ignored columns partition the distinct headings; the badge's ignored count is right if and only if no heading repeats |
| ColumnMapping.BadgeExactly | frontend/components/ImportExport.tsx:441-443 | for the headings the server hands on: if and only if no repeated heading was given a name the file uses |
| ColumnMapping.BadgeCountsTwice | frontend/components/ImportExport.tsx:441-443 | a file with two columns ignored for which the badge says three |
| ColumnMapping.NothingMissingMeansOneSource | frontend/components/ImportExport.tsx:436-439 | nothing is missing if and only if every required field has a column, and then exactly one |
| ColumnMapping.Wizard.Payloads | frontend/components/ImportExport.tsx:424-432 | the two payloads are the field and the custom destinations |
| ColumnMapping.Wizard.ApplyProfile | frontend/components/ImportExport.tsx:487-508 | every heading gets its custom field, else its field, else is ignored, and headings the file lacks are dropped; without a profile the suggested mapping is restored |
| ColumnMapping.ProfileRoundTrip | frontend/components/ImportExport.tsx:487-508 | a mapping saved and applied to the same headings is restored |
| ColumnMapping.ProfileRestricts | frontend/components/ImportExport.tsx:487-508 | applied to other headings it is the restriction, every other column ignored, still injective |
| ColumnMapping.Wizard.Preselect | frontend/components/ImportExport.tsx:470-476 | the suggested fields, then the suggested custom fields, over an ignored file |
| ColumnMapping.PreselectedIsInjective | frontend/components/ImportExport.tsx:470-476 | a suggested mapping that proposes no field twice is injective, covers just the file's columns, and gives a column its suggested custom field |
| ColumnMapping.PreselectedAt | frontend/components/ImportExport.tsx:470-476 | a column is preselected for the last custom field suggested for it, without one for the last field, and is ignored when nothing is suggested |
| ArchiveList.PrefixIffInStep | frontend/components/ArchivedRecords.tsx:113-160 | in every interleaving of loads and restores, answered or lost: the rows still archived, then the page on its way, are at every moment the start of the archive, if and only if every page is read in step |
| ArchiveList.PageFitsExactly | frontend/components/ArchivedRecords.tsx:118-119 | a page fits the rows if and only if its offset counts no restored record, or nothing was left |
| ArchiveList.ApartRunIsExact | frontend/components/ArchivedRecords.tsx:118-160 | when loads and restores do not overlap: whenever nothing is outstanding the rows are the first records of the archive and the total its length, if and only if no restore's answer is lost |
| ArchiveList.OpeningLands | frontend/components/ArchivedRecords.tsx:130-134 | the first page establishes what the run theorems start from |
| ArchiveList.LatePageSkips | frontend/components/ArchivedRecords.tsx:236-238 | a page read out of step leaves a record of the archive out of the rows, also after the restore's answer |
| ArchiveList.OverlapLeavesGap | frontend/components/ArchivedRecords.tsx:236-238 | every archive of more than 51 records has a possible run, with a load during a restore, after which nothing is outstanding and the record after the first page is missing |
| ArchiveList.LostAnswerLeavesGap | frontend/components/ArchivedRecords.tsx:155-158 | and one without overlap, in which a restore's answer is lost |
| ArchiveList.RefusedRestoreLeavesNoTrace | frontend/components/ArchivedRecords.tsx:149-160 | whatever is loaded meanwhile, a refused restore leaves everything as if nobody had asked |
| ArchiveList.FailedLoadEndsPaging | frontend/components/ArchivedRecords.tsx:236-238 | after a failed load no page is asked for or arrives, and the rows only shrink |
| ArchiveList.ArchiveDialog.ShowAll | frontend/components/ArchivedRecords.tsx:236-238 | from any moment at which the rows and total are exact, also after restores, repeated "Show more" ends with the whole archive |
| RiskGroups.Worst | frontend/components/GenerateRisks.tsx:87-96 | the scores are those of one pair no other pair exceeds in score, then impact, then likelihood |
| RiskGroups.WorstIsOrderFree | frontend/components/GenerateRisks.tsx:87-96 | they depend neither on the order of the pairs nor on which maximal pair is taken |
| RiskGroups.ByKeySplits | frontend/components/GenerateRisks.tsx:100-105 | the map splits the proposals by key, each part non-empty and in input order |
| RiskGroups.ToGroups | frontend/components/GenerateRisks.tsx:100-123 | one group per key, with its title, tick, scores and labels |
| RiskGroups.GroupsPartition | frontend/components/GenerateRisks.tsx:100-123 | in any sort order the groups are a stable partition of the proposals by key, each scored at a maximal pair |
| RiskGroups.SendingConserves | frontend/components/GenerateRisks.tsx:201-233 | after any edits each proposal of a ticked group is sent as often as it was proposed and nothing else; with all ticked the list is a permutation; what an item carries is `RiskGroups.ItemsCarryTheirGroup` |
| RiskGroups.ItemsCarryTheirGroup | frontend/components/GenerateRisks.tsx:216-233 | after any edits every item sent is for a pair of the one group with its key, which is ticked, and carries that group's likelihood, impact and title, or the pair's own title when the group's is empty |
| RiskGroups.UneditedIsSentAsProposed | frontend/components/GenerateRisks.tsx:87-123 | unedited, a proposal is sent unless the first of its key was rejected, with the scores of a most exposed proposal of its key and the queued, own or group title |
| RiskGroups.MadeAreFresh | frontend/components/GenerateRisks.tsx:100-123 | the groups made from the proposals, in any sort order, are such unedited ones |
| RiskGroups.LabelsOfGroup | frontend/components/GenerateRisks.tsx:118 | a group's labels are its pairs' non-empty labels, each once |
| RiskGroups.UniqueIsASet | frontend/components/GenerateRisks.tsx:98 | the labels are the non-empty ones, each once |
| MenuFocus.FocusableMeans | frontend/components/Menu.tsx:60-62 | focus lands exactly on enabled items, in order |
| MenuFocus.ArrowsGoRound | frontend/components/Menu.tsx:108-115 | from an enabled item ArrowDown goes to the next enabled one with none between, round the end, and ArrowUp to the one before; from outside they enter at the two ends |
| MenuFocus.ArrowsAreInverse | frontend/components/Menu.tsx:108-115 | from an enabled item ArrowDown and ArrowUp undo each other |
| MenuFocus.DownVisitsAll | frontend/components/Menu.tsx:108-111 | as many presses of ArrowDown as there are enabled items visit each exactly once and end where they began |
| MenuFocus.FindLoop | frontend/components/Menu.tsx:136-143 | the loop finds what the search specifies |
| MenuFocus.FindIsNearest | frontend/components/Menu.tsx:136-143 | it fails only when no enabled item matches, and otherwise finds the nearest going round from its start |
| MenuFocus.MatchKeepsFocus | frontend/components/Menu.tsx:137 | with several letters typed an item that still matches keeps the focus |
| MenuFocus.PressLands | frontend/components/Menu.tsx:130-154 | a letter lands on a match for all that was typed in time, else for the letter alone, else stays; the time limit is measured from it on |
| MenuFocus.KeyLands | frontend/components/Menu.tsx:130-154 | the same for the menu's items; without an enabled item nothing changes |
| MenuWords.WordFindsNearest | frontend/components/Menu.tsx:130-154 | a word typed from a fresh start, each letter at most 600 ms after the one before, with an enabled item that starts with it: the text is the word and the focus is on the first such item after the one it was on, going round, as a search for the whole word would find it |
| MenuFocus.RepeatedLetterVisitsAll | frontend/components/Menu.tsx:130-154 | when no enabled item starts with the letter twice, pressing it as often as there are matches, at any pace, focuses each exactly once |
| MenuFocus.RepeatedLetterExactly | frontend/components/Menu.tsx:130-154 | from every start and at any pace no item is focused twice, if and only if no enabled item starts with the letter twice or at most one matches |
| MenuFocus.DoubleLetterSticks | frontend/components/Menu.tsx:144-149 | for any item that starts with the letter twice, with another match: a start from which the second press stays on it |
| MenuFocus.Menu.ArrowDown | frontend/components/Menu.tsx:102-111 | focus goes to the next enabled item, going round; from outside to the first; nowhere when none is enabled |
| MenuFocus.Menu.ArrowUp | frontend/components/Menu.tsx:112-115 | focus goes to the item the old one is next after; from outside to the last |
| MenuFocus.Menu.Home | frontend/components/Menu.tsx:116-119 | focus goes to the first enabled item |
| MenuFocus.Menu.End | frontend/components/Menu.tsx:120-123 | focus goes to the last enabled item |
| MenuFocus.Menu.Type | frontend/components/Menu.tsx:130-154 | the key handler follows the specified step, and lands as `MenuFocus.KeyLands` says |
| RiskBands.CustomBandsByThreshold | frontend/components/RiskMethodology.tsx:177-187 | for any three thresholds, sorted or not, a score from 1 up gets the band of the first threshold it does not exceed |
| RiskBands.CustomRangesDivide | frontend/components/RiskMethodology.tsx:177-184 | any three thresholds make contiguous ranges from 1 to the largest safe integer, on which editor and heat map agree; thresholds in order put every score in one range |
| RiskBands.CustomBandsMonotone | frontend/components/RiskMethodology.tsx:177-187 | a higher score never gets a lower band |
| RiskBands.LookupsAgreeExactly | frontend/components/RiskHeatmap.tsx:20-23 | the editor's and the heat map's lookups agree on a score if and only if some range holds it |
| RiskBands.EditorMatchesHeatMap | frontend/components/RiskHeatmap.tsx:20-28 | on contiguous bands from 1 they agree on every score covered |
| RiskBands.Distribution | frontend/components/RiskHeatmap.tsx:41-49 | each counter is the number of inherent or residual risks in the cells of its band, which is the server's, else that of the first range to hold the score, else low; they add up to all risks if and only if every cell with risks is in one of the four bands |
| RiskBands.Editor.CycleCell | frontend/components/RiskMethodology.tsx:189-199 | a click moves one cell along the cycle and leaves the others |
| RiskBands.OwnClicksOnly | frontend/components/RiskMethodology.tsx:189-199 | after any clicks a cell's override is its first one moved on by its own clicks |
| RiskBands.OverrideAfterClicks | frontend/components/RiskMethodology.tsx:189-199 | from no override it depends only on its own clicks modulo 5 |

## Left out

- Requests, JSON, `localStorage`, files, downloads, toasts and confirm dialogs: an answer is an arbitrary value, or an honest server's where a lemma says so.
- React rendering, DOM and CSS; `trapTab` and `useDialogFocus`, which depend on the browser; the Escape model keeps renders, commits, effects and cleanups. `typeof window` is taken to be defined.
- The unit picker's cached list: each pick is made from a list of the tree at that moment. Paths and the text match are an arbitrary predicate.
- The tree edit forms: the unit's other fields, and the roles that may edit.
- Load-test time, randomness and floating-point error: the clock and the pick are arbitrary choices, the percentile is over real numbers. Login, the warm-up probe, byte totals and the printed layout are not modelled.
- The load test's `--only`/`--exclude` filter of the scenario.
- Scores, thresholds and matrix axes are integers; `resize`, appetites and the residual policy would add only easy members.
- The register's server query, sorting, paging bounds, selection map and dynamic status.
- A changed column catalogue between saving and applying a view, and a view's sort, search and filters. A new view's id is taken to be unused.
- The scope "unmapped" for one framework: every link counts as a clause mapped.
- The archive's search box: the search text is fixed, and changes by other users between requests are not modelled.
- Keys named like built-in properties of a JavaScript object, and its numeric-key ordering: `Destinations` is a map.
- RiskGroups.ByKeySplits: keys are structured values; the source joins scenario reference and asset with a bar into one string shared with the given de-duplication keys, so that two could coincide.
- Titles are taken as trimmed, and only what an empty one means is kept.
- A risk group's unmapped references: the list is made as its labels are.
- Wording and locale order: the sort of groups and siblings is any permutation or any ranking.
- The framework totals in the review dialog's filter list.
- `SuggestedClauses`, the one-control panel: a single load and a single accept without chunks.
