/** Risk severity bands: the editor's thresholds, the heat map's lookup and distribution, and the
    per-cell overrides that clicking cycles through. */
module RiskBands {
  import opened Lists

  datatype Severity = Low | Medium | High | Critical

  /** A band name as the server sends it: one of the four, or a name the client does not know. */
  datatype Band = Known(severity: Severity) | Unknown(name: nat)

  datatype Range = Range(band: Band, min: int, max: int)

  const MAX_SAFE_INTEGER := 9007199254740991

  function Rank(s: Severity): nat {
    match s case Low => 0 case Medium => 1 case High => 2 case Critical => 3
  }

  // ------------------------------------------------------------------- first match

  function FirstMatch(ranges: seq<Range>, score: int): Option<Band> {
    if ranges == [] then None
    else if ranges[0].min <= score <= ranges[0].max then Some(ranges[0].band)
    else FirstMatch(ranges[1..], score)
  }

  /** The editor's band of a score: critical when no range holds it. */
  function ScoreBand(ranges: seq<Range>, score: int): Band {
    match FirstMatch(ranges, score) case Some(b) => b case None => Known(Critical)
  }

  /** The heat map's: low when no range holds it. */
  function BandFor(score: int, ranges: seq<Range>): Band {
    match FirstMatch(ranges, score) case Some(b) => b case None => Known(Low)
  }

  ghost predicate Holds(ranges: seq<Range>, score: int) {
    exists i :: 0 <= i < |ranges| && ranges[i].min <= score <= ranges[i].max
  }

  lemma {:induction false} FirstMatchFinds(ranges: seq<Range>, score: int)
    ensures FirstMatch(ranges, score).Some? <==> Holds(ranges, score)
    ensures FirstMatch(ranges, score).Some? ==>
              exists i :: 0 <= i < |ranges| && ranges[i].min <= score <= ranges[i].max
                          && Some(ranges[i].band) == FirstMatch(ranges, score)
  {
    if ranges != [] && !(ranges[0].min <= score <= ranges[0].max) {
      var rest := ranges[1..];
      FirstMatchFinds(rest, score);
      assert forall i :: 0 <= i < |rest| ==> rest[i] == ranges[i + 1];
      assert forall i :: 1 <= i < |ranges| ==> ranges[i] == rest[i - 1];
    }
  }

  /** The two lookups agree on every score some range holds, and on no other. */
  lemma LookupsAgreeExactly(ranges: seq<Range>, score: int)
    ensures ScoreBand(ranges, score) == BandFor(score, ranges) <==>
            Holds(ranges, score)
  {
    FirstMatchFinds(ranges, score);
  }

  /** Ranges that follow one another without a gap. */
  ghost predicate Contiguous(ranges: seq<Range>) {
    forall i :: 0 <= i < |ranges| - 1 ==> ranges[i + 1].min == ranges[i].max + 1
  }

  lemma {:induction false} ContiguousHolds(ranges: seq<Range>, score: int)
    requires ranges != [] && Contiguous(ranges)
    requires ranges[0].min <= score <= ranges[|ranges| - 1].max
    ensures Holds(ranges, score)
  {
    if score <= ranges[0].max {
      assert ranges[0].min <= score <= ranges[0].max;
    } else {
      var rest := ranges[1..];
      assert forall i :: 0 <= i < |rest| ==> rest[i] == ranges[i + 1];
      ContiguousHolds(rest, score);
      var i :| 0 <= i < |rest| && rest[i].min <= score <= rest[i].max;
      assert ranges[i + 1].min <= score <= ranges[i + 1].max;
    }
  }

  /** On bands that run from 1 up without a gap, the editor's preview and the heat map show the same band
      for every score they cover, despite their opposite fallbacks. */
  lemma EditorMatchesHeatMap(ranges: seq<Range>, score: int)
    requires ranges != [] && Contiguous(ranges) && ranges[0].min == 1 && 1 <= score <= ranges[|ranges| - 1].max
    ensures ScoreBand(ranges, score) == BandFor(score, ranges)
  {
    ContiguousHolds(ranges, score);
    LookupsAgreeExactly(ranges, score);
  }

  // -------------------------------------------------------------- custom thresholds

  function CustomRanges(low: int, medium: int, high: int): seq<Range> {
    [Range(Known(Low), 1, low), Range(Known(Medium), low + 1, medium),
     Range(Known(High), medium + 1, high), Range(Known(Critical), high + 1, MAX_SAFE_INTEGER)]
  }

  /** The band a reader expects of three thresholds: the first one the score does not exceed. */
  function ByThreshold(low: int, medium: int, high: int, score: int): Severity {
    if score <= low then Low else if score <= medium then Medium else if score <= high then High else Critical
  }

  /** For any three thresholds, in order or not, every score from 1 up gets the band of the first
      threshold it does not exceed. */
  lemma CustomBandsByThreshold(low: int, medium: int, high: int, score: int)
    requires score >= 1
    ensures ScoreBand(CustomRanges(low, medium, high), score) == Known(ByThreshold(low, medium, high, score))
  {
    var r := CustomRanges(low, medium, high);
    assert r[1..] == [r[1], r[2], r[3]] && [r[1], r[2], r[3]][1..] == [r[2], r[3]];
    assert [r[2], r[3]][1..] == [r[3]] && [r[3]][1..] == [];
    Unfold(r[0], [r[1], r[2], r[3]], score);
    Unfold(r[1], [r[2], r[3]], score);
    Unfold(r[2], [r[3]], score);
    Unfold(r[3], [], score);
    assert r == [r[0]] + [r[1], r[2], r[3]];
    assert [r[1], r[2], r[3]] == [r[1]] + [r[2], r[3]] && [r[2], r[3]] == [r[2]] + [r[3]] && [r[3]] == [r[3]] + [];
  }

  lemma Unfold(first: Range, rest: seq<Range>, score: int)
    ensures FirstMatch([first] + rest, score) ==
            if first.min <= score <= first.max then Some(first.band) else FirstMatch(rest, score)
  {
    assert ([first] + rest)[1..] == rest;
  }

  /** Three thresholds make four ranges that follow one another from 1 to the largest number a browser counts to; in
      order, they divide the scores between them. */
  lemma CustomRangesDivide(low: int, medium: int, high: int, score: int)
    requires 1 <= score <= MAX_SAFE_INTEGER
    ensures var r := CustomRanges(low, medium, high);
            && Contiguous(r) && r[0].min == 1 && r[|r| - 1].max == MAX_SAFE_INTEGER
            && ScoreBand(r, score) == BandFor(score, r)
            && (low <= medium <= high ==>
                  forall i, j | 0 <= i < |r| && 0 <= j < |r| ::
                    (r[i].min <= score <= r[i].max && r[j].min <= score <= r[j].max) ==> i == j)
  {
    EditorMatchesHeatMap(CustomRanges(low, medium, high), score);
  }

  /** A higher score never gets a lower band. */
  lemma CustomBandsMonotone(low: int, medium: int, high: int, a: int, b: int)
    requires 1 <= a <= b
    ensures var r := CustomRanges(low, medium, high);
            && ScoreBand(r, a).Known? && ScoreBand(r, b).Known?
            && Rank(ScoreBand(r, a).severity) <= Rank(ScoreBand(r, b).severity)
  {
    CustomBandsByThreshold(low, medium, high, a);
    CustomBandsByThreshold(low, medium, high, b);
  }

  // -------------------------------------------------------------------- distribution

  /** A heat-map cell: the server's band, if it sent one, and the risks plotted in it. */
  datatype Cell = Cell(band: Option<Band>, score: int, inherent: nat, residual: nat)

  function CellBand(c: Cell, ranges: seq<Range>): Band {
    match c.band case Some(b) => b case None => BandFor(c.score, ranges)
  }

  function Plotted(c: Cell, inherent: bool): nat {
    if inherent then c.inherent else c.residual
  }

  function TotalPlotted(cells: seq<Cell>, inherent: bool): nat {
    if cells == [] then 0 else Plotted(cells[0], inherent) + TotalPlotted(cells[1..], inherent)
  }

  function PlottedIn(cells: seq<Cell>, ranges: seq<Range>, inherent: bool, s: Severity): nat {
    if cells == [] then 0
    else (if CellBand(cells[0], ranges) == Known(s) then Plotted(cells[0], inherent) else 0)
         + PlottedIn(cells[1..], ranges, inherent, s)
  }

  /** The first range that holds the score. */
  ghost predicate FirstHolding(ranges: seq<Range>, score: int, i: int) {
    && 0 <= i < |ranges| && ranges[i].min <= score <= ranges[i].max
    && forall j :: 0 <= j < i ==> !(ranges[j].min <= score <= ranges[j].max)
  }

  /** A cell is in the band the server gives it; without one, in that of the first range to hold its score, and low
      when none does. */
  ghost predicate InBand(c: Cell, ranges: seq<Range>, s: Severity) {
    match c.band
    case Some(b) => b == Known(s)
    case None =>
      || (exists i :: FirstHolding(ranges, c.score, i) && ranges[i].band == Known(s))
      || (s == Low && !Holds(ranges, c.score))
  }

  /** The inherent or the residual risks plotted in the cells of one band, and in all cells. */
  ghost function RisksIn(cells: seq<Cell>, ranges: seq<Range>, inherent: bool, s: Severity): nat {
    if cells == [] then 0
    else
      (if !InBand(cells[0], ranges, s) then 0 else if inherent then cells[0].inherent else cells[0].residual)
      + RisksIn(cells[1..], ranges, inherent, s)
  }

  ghost function AllRisks(cells: seq<Cell>, inherent: bool): nat {
    if cells == [] then 0
    else (if inherent then cells[0].inherent else cells[0].residual) + AllRisks(cells[1..], inherent)
  }

  lemma {:induction false} FirstMatchIsFirst(ranges: seq<Range>, score: int)
    ensures FirstMatch(ranges, score).Some? ==>
              exists i :: FirstHolding(ranges, score, i) && Some(ranges[i].band) == FirstMatch(ranges, score)
    ensures FirstMatch(ranges, score).Some? <==> Holds(ranges, score)
  {
    FirstMatchFinds(ranges, score);
    if ranges != [] {
      if ranges[0].min <= score <= ranges[0].max {
        assert FirstHolding(ranges, score, 0);
      } else if FirstMatch(ranges, score).Some? {
        var rest := ranges[1..];
        FirstMatchIsFirst(rest, score);
        var i :| FirstHolding(rest, score, i) && Some(rest[i].band) == FirstMatch(rest, score);
        FirstInRest(ranges, score, i);
        assert Some(ranges[i + 1].band) == FirstMatch(ranges, score);
      }
    }
  }

  lemma FirstInRest(ranges: seq<Range>, score: int, i: int)
    requires ranges != [] && !(ranges[0].min <= score <= ranges[0].max) && FirstHolding(ranges[1..], score, i)
    ensures FirstHolding(ranges, score, i + 1) && ranges[i + 1] == ranges[1..][i]
  {
    var rest := ranges[1..];
    assert ranges[i + 1] == rest[i];
    forall j | 0 <= j < i + 1 ensures !(ranges[j].min <= score <= ranges[j].max) {
      if j > 0 { assert ranges[j] == rest[j - 1]; }
    }
  }

  lemma OneIsFirst(ranges: seq<Range>, score: int, i: int, j: int)
    requires FirstHolding(ranges, score, i) && FirstHolding(ranges, score, j)
    ensures i == j
  {
  }

  lemma CellBandMeans(c: Cell, ranges: seq<Range>, s: Severity)
    ensures CellBand(c, ranges) == Known(s) <==> InBand(c, ranges, s)
  {
    if c.band == None {
      FirstMatchIsFirst(ranges, c.score);
      if FirstMatch(ranges, c.score).Some? {
        var i :| FirstHolding(ranges, c.score, i) && Some(ranges[i].band) == FirstMatch(ranges, c.score);
        if j :| FirstHolding(ranges, c.score, j) && ranges[j].band == Known(s) { OneIsFirst(ranges, c.score, i, j); }
      }
    }
  }

  lemma {:induction false} PlottedAreRisks(cells: seq<Cell>, ranges: seq<Range>, inherent: bool, s: Severity)
    ensures PlottedIn(cells, ranges, inherent, s) == RisksIn(cells, ranges, inherent, s)
    ensures TotalPlotted(cells, inherent) == AllRisks(cells, inherent)
  {
    if cells != [] {
      hide InBand;
      CellBandMeans(cells[0], ranges, s);
      PlottedAreRisks(cells[1..], ranges, inherent, s);
    }
  }

  /** The four counters of the legend. A band the client does not know gets a counter of its own,
      which no counter shown reads. */
  method Distribution(cells: seq<Cell>, ranges: seq<Range>, inherent: bool)
    returns (low: nat, medium: nat, high: nat, critical: nat)
    ensures low == RisksIn(cells, ranges, inherent, Low) && medium == RisksIn(cells, ranges, inherent, Medium)
    ensures high == RisksIn(cells, ranges, inherent, High) && critical == RisksIn(cells, ranges, inherent, Critical)
    ensures low + medium + high + critical == AllRisks(cells, inherent) <==>
            forall c :: c in cells && (if inherent then c.inherent else c.residual) > 0 ==>
                          exists s :: InBand(c, ranges, s)
  {
    PlottedAreRisks(cells, ranges, inherent, Low);
    PlottedAreRisks(cells, ranges, inherent, Medium);
    PlottedAreRisks(cells, ranges, inherent, High);
    PlottedAreRisks(cells, ranges, inherent, Critical);
    low, medium, high, critical := 0, 0, 0, 0;
    for i := 0 to |cells|
      invariant low + PlottedIn(cells[i..], ranges, inherent, Low) == PlottedIn(cells, ranges, inherent, Low)
      invariant medium + PlottedIn(cells[i..], ranges, inherent, Medium) == PlottedIn(cells, ranges, inherent, Medium)
      invariant high + PlottedIn(cells[i..], ranges, inherent, High) == PlottedIn(cells, ranges, inherent, High)
      invariant critical + PlottedIn(cells[i..], ranges, inherent, Critical)
                == PlottedIn(cells, ranges, inherent, Critical)
    {
      assert cells[i..][1..] == cells[i + 1..];
      var n := Plotted(cells[i], inherent);
      match CellBand(cells[i], ranges) {
        case Known(Low) => low := low + n;
        case Known(Medium) => medium := medium + n;
        case Known(High) => high := high + n;
        case Known(Critical) => critical := critical + n;
        case Unknown(_) =>
      }
    }
    CountersAddUp(cells, ranges, inherent);
    forall c | c in cells ensures CellBand(c, ranges).Known? <==> exists s :: InBand(c, ranges, s) {
      KnownBand(c, ranges);
    }
  }

  lemma KnownBand(c: Cell, ranges: seq<Range>)
    ensures CellBand(c, ranges).Known? <==> exists s :: InBand(c, ranges, s)
  {
    hide CellBand, InBand;
    var b := CellBand(c, ranges);
    if b.Known? { CellBandMeans(c, ranges, b.severity); }
    if s :| InBand(c, ranges, s) { CellBandMeans(c, ranges, s); }
  }

  function Unseen(cells: seq<Cell>, ranges: seq<Range>, inherent: bool): nat {
    if cells == [] then 0
    else
      (if CellBand(cells[0], ranges).Unknown? then Plotted(cells[0], inherent) else 0)
      + Unseen(cells[1..], ranges, inherent)
  }

  lemma {:induction false} CountersAddUp(cells: seq<Cell>, ranges: seq<Range>, inherent: bool)
    ensures PlottedIn(cells, ranges, inherent, Low) + PlottedIn(cells, ranges, inherent, Medium)
            + PlottedIn(cells, ranges, inherent, High) + PlottedIn(cells, ranges, inherent, Critical)
            + Unseen(cells, ranges, inherent) == TotalPlotted(cells, inherent)
    ensures Unseen(cells, ranges, inherent) == 0 <==>
            forall c :: c in cells && Plotted(c, inherent) > 0 ==> CellBand(c, ranges).Known?
  {
    if cells != [] {
      CountersAddUp(cells[1..], ranges, inherent);
      assert cells == [cells[0]] + cells[1..];
      match CellBand(cells[0], ranges) {
        case Unknown(_) =>
        case Known(Low) =>
        case Known(Medium) =>
        case Known(High) =>
        case Known(Critical) =>
      }
    }
  }

  // ------------------------------------------------------------------------ overrides

  type Place = (nat, nat)
  type Overrides = map<Place, Band>

  const CYCLE: seq<Severity> := [Low, Medium, High, Critical]

  /** What a click makes of a cell's override; a band outside the cycle starts it afresh. */
  function Next(b: Option<Band>): Option<Band> {
    match b
    case Some(Known(Low)) => Some(Known(Medium))
    case Some(Known(Medium)) => Some(Known(High))
    case Some(Known(High)) => Some(Known(Critical))
    case Some(Known(Critical)) => None
    case _ => Some(Known(Low))
  }

  function OverrideAt(o: Overrides, p: Place): Option<Band> {
    if p in o then Some(o[p]) else None
  }

  class Editor {
    var cells: Overrides

    constructor (cells: Overrides)
      ensures this.cells == cells
    {
      this.cells := cells;
    }

    method CycleCell(p: Place)
      modifies this
      ensures cells == Click(old(cells), p)
    {
      var at := -1;
      if p in cells {
        var i := 0;
        while i < |CYCLE| && Known(CYCLE[i]) != cells[p]
          invariant 0 <= i <= |CYCLE|
          invariant forall j :: 0 <= j < i ==> Known(CYCLE[j]) != cells[p]
        {
          i := i + 1;
        }
        if i < |CYCLE| { at := i; }
        assert CYCLE[0] == Low && CYCLE[1] == Medium && CYCLE[2] == High && CYCLE[3] == Critical;
      }
      if at == |CYCLE| - 1 { cells := cells - {p}; } else { cells := cells[p := Known(CYCLE[at + 1])]; }
    }
  }

  function Click(o: Overrides, p: Place): Overrides {
    match Next(OverrideAt(o, p))
    case Some(b) => o[p := b]
    case None => o - {p}
  }

  function ClickAll(o: Overrides, clicks: seq<Place>): Overrides
    decreases |clicks|
  {
    if clicks == [] then o else ClickAll(Click(o, clicks[0]), clicks[1..])
  }

  function Times(b: Option<Band>, n: nat): Option<Band>
    decreases n
  {
    if n == 0 then b else Times(Next(b), n - 1)
  }

  /** After any clicks anywhere, a cell's override is its first one moved on by its own clicks. */
  lemma {:induction false} OwnClicksOnly(o: Overrides, clicks: seq<Place>, p: Place)
    ensures OverrideAt(ClickAll(o, clicks), p) == Times(OverrideAt(o, p), multiset(clicks)[p])
    decreases |clicks|
  {
    if clicks != [] {
      OwnClicksOnly(Click(o, clicks[0]), clicks[1..], p);
      assert clicks == [clicks[0]] + clicks[1..];
    }
  }

  lemma {:induction false} FiveClicksRound(n: nat)
    ensures Times(None, n) == Times(None, n % 5)
    decreases n
  {
    if n >= 5 {
      var k1 := Next(None);
      assert Times(None, n) == Times(Next(Next(Next(Next(Next(None))))), n - 5) by {
        assert Times(None, n) == Times(k1, n - 1) == Times(Next(k1), n - 2) == Times(Next(Next(k1)), n - 3);
        assert Times(Next(Next(k1)), n - 3) == Times(Next(Next(Next(k1))), n - 4);
        assert Times(Next(Next(Next(k1))), n - 4) == Times(Next(Next(Next(Next(k1)))), n - 5);
      }
      FiveClicksRound(n - 5);
      assert (n - 5) % 5 == n % 5;
    }
  }

  /** Starting without an override, a cell's override depends only on its own clicks modulo 5: none,
      low, medium, high, critical. */
  lemma OverrideAfterClicks(o: Overrides, clicks: seq<Place>, p: Place)
    requires p !in o
    ensures var k := multiset(clicks)[p] % 5;
            OverrideAt(ClickAll(o, clicks), p) == if k == 0 then None else Some(Known(CYCLE[k - 1]))
  {
    OwnClicksOnly(o, clicks, p);
    FiveClicksRound(multiset(clicks)[p]);
    var k := multiset(clicks)[p] % 5;
    assert Times(None, 0) == None;
    assert Times(None, 1) == Times(Next(None), 0);
    assert Times(None, 2) == Times(Next(None), 1) == Times(Next(Next(None)), 0);
    assert Times(None, 3) == Times(Next(None), 2) == Times(Next(Next(None)), 1) == Times(Next(Next(Next(None))), 0);
    assert Times(None, 4) == Times(Next(None), 3) == Times(Next(Next(None)), 2) == Times(Next(Next(Next(None))), 1)
        == Times(Next(Next(Next(Next(None)))), 0);
  }
}
