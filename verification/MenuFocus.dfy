/** Keyboard movement in a dropdown menu: arrows, Home and End over the enabled items, and
    typeahead. The focus is an item's index; focus outside the items is -1. */
module MenuFocus {
  import opened Lists

  /** Labels are trimmed and in lower case. */
  datatype Item = Divider | Action(text: string, disabled: bool)

  const TYPEAHEAD_MS := 600

  predicate CanFocus(item: Item) {
    item.Action? && !item.disabled
  }

  /** The indexes focus can land on, in order, from index `from` on. */
  function FocusableFrom(items: seq<Item>, from: nat): seq<nat>
    decreases |items| - from
  {
    if from >= |items| then []
    else (if CanFocus(items[from]) then [from] else []) + FocusableFrom(items, from + 1)
  }

  function Focusable(items: seq<Item>): seq<nat> {
    FocusableFrom(items, 0)
  }

  ghost predicate Ascending(s: seq<nat>) {
    forall i, j :: 0 <= i < j < |s| ==> s[i] < s[j]
  }

  lemma {:induction false} FocusableMeans(items: seq<Item>, from: nat)
    ensures forall i :: i in FocusableFrom(items, from) <==> from <= i < |items| && CanFocus(items[i])
    ensures Ascending(FocusableFrom(items, from))
    decreases |items| - from
  {
    if from < |items| {
      FocusableMeans(items, from + 1);
      var rest := FocusableFrom(items, from + 1);
      var all := (if CanFocus(items[from]) then [from] else []) + rest;
      forall i, j | 0 <= i < j < |all| ensures all[i] < all[j] {
        assert forall k :: 0 <= k < |rest| ==> rest[k] in rest;
      }
    }
  }

  /** The remainder of a number that goes round at most once. */
  lemma Round(x: nat, n: nat)
    requires x < n + n
    ensures x % n == if x < n then x else x - n
  {
    var q := x / n;
    assert x == n * q + x % n;
    if q >= 2 { Twice(n, q); }
  }

  lemma Twice(n: nat, q: nat)
    requires q >= 2
    ensures n * q >= n + n
  {
    assert n * q == n + n + n * (q - 2);
  }

  // ------------------------------------------------------------------------ arrows

  /** Where `focus` is among the focusable indexes, or -1. */
  function PosIn(idx: seq<nat>, focus: int): (p: int)
    ensures -1 <= p < |idx|
    ensures p >= 0 ==> idx[p] == focus
    ensures p == -1 ==> forall i :: 0 <= i < |idx| ==> idx[i] != focus
  {
    if idx == [] then -1
    else if idx[0] == focus then 0
    else
      var p := PosIn(idx[1..], focus);
      assert forall i :: 1 <= i < |idx| ==> idx[i] == idx[1..][i - 1];
      if p < 0 then -1 else p + 1
  }

  lemma PosInAt(idx: seq<nat>, k: nat)
    requires Ascending(idx) && k < |idx|
    ensures PosIn(idx, idx[k]) == k
  {
    var p := PosIn(idx, idx[k]);
    assert p >= 0 && idx[p] == idx[k];
  }

  lemma FocusedAt(idx: seq<nat>, focus: int)
    requires PosIn(idx, focus) >= 0
    ensures idx[PosIn(idx, focus)] == focus
  {
  }

  /** The next and the previous of `n` positions, going round; from outside, the two ends. */
  function Down(pos: int, n: nat): (r: nat)
    requires -1 <= pos < n && n > 0
    ensures r < n && r == if pos + 1 < n then pos + 1 else 0
  {
    if pos < 0 then 0
    else
      Round(pos + 1, n);
      (pos + 1) % n
  }

  function Up(pos: int, n: nat): (r: nat)
    requires -1 <= pos < n && n > 0
    ensures r < n && r == if pos > 0 then pos - 1 else n - 1
  {
    if pos < 0 then n - 1
    else
      Round(pos - 1 + n, n);
      (pos - 1 + n) % n
  }

  /** The focus after an arrow. */
  function DownFrom(items: seq<Item>, focus: int): int {
    var idx := Focusable(items);
    if idx == [] then focus else idx[Down(PosIn(idx, focus), |idx|)]
  }

  function UpFrom(items: seq<Item>, focus: int): int {
    var idx := Focusable(items);
    if idx == [] then focus else idx[Up(PosIn(idx, focus), |idx|)]
  }

  ghost predicate Enabled(items: seq<Item>, i: int) {
    0 <= i < |items| && CanFocus(items[i])
  }

  ghost predicate IsFirst(items: seq<Item>, i: int) {
    Enabled(items, i) && forall j :: j < i ==> !Enabled(items, j)
  }

  ghost predicate IsLast(items: seq<Item>, i: int) {
    Enabled(items, i) && forall j :: j > i ==> !Enabled(items, j)
  }

  /** `j` is the next enabled item after `i`, with none between, going round at the end. */
  ghost predicate Follows(items: seq<Item>, i: int, j: int) {
    && Enabled(items, i) && Enabled(items, j)
    && if i < j then forall k :: i < k < j ==> !Enabled(items, k) else IsLast(items, i) && IsFirst(items, j)
  }

  lemma FocusableEnabled(items: seq<Item>)
    ensures Ascending(Focusable(items))
    ensures forall i :: Enabled(items, i) <==> i in Focusable(items)
    ensures forall i :: Enabled(items, i) <==> PosIn(Focusable(items), i) >= 0
  {
    FocusableMeans(items, 0);
    forall i ensures Enabled(items, i) <==> PosIn(Focusable(items), i) >= 0 {
      var p := PosIn(Focusable(items), i);
      if p >= 0 { assert Focusable(items)[p] in Focusable(items); }
    }
  }

  /** In an ascending list of the enabled items nothing enabled lies outside or between. */
  lemma Neighbours(items: seq<Item>, k: nat)
    requires k < |Focusable(items)|
    ensures Enabled(items, Focusable(items)[k])
    ensures k == 0 ==> IsFirst(items, Focusable(items)[0])
    ensures k == |Focusable(items)| - 1 ==> IsLast(items, Focusable(items)[k])
    ensures k + 1 < |Focusable(items)| ==> Follows(items, Focusable(items)[k], Focusable(items)[k + 1])
  {
    var idx := Focusable(items);
    FocusableEnabled(items);
    assert idx[k] in idx;
    if k + 1 < |idx| { assert idx[k + 1] in idx; }
    forall j | Enabled(items, j) ensures (k == 0 ==> j >= idx[0]) && (k == |idx| - 1 ==> j <= idx[k])
                                         && !(k + 1 < |idx| && idx[k] < j < idx[k + 1]) {
      var p := PosIn(idx, j);
      assert if p < k then idx[p] < idx[k] else p == k || idx[k] < idx[p];
      if k + 1 < |idx| { assert p > k + 1 ==> idx[k + 1] < idx[p]; }
    }
  }

  /** ArrowDown goes to the next enabled item and ArrowUp to the one it is the next of; from outside
      the enabled items they enter at the two ends. */
  lemma ArrowsGoRound(items: seq<Item>, focus: int)
    requires Focusable(items) != []
    ensures Enabled(items, focus) ==> Follows(items, focus, DownFrom(items, focus))
    ensures Enabled(items, focus) ==> Follows(items, UpFrom(items, focus), focus)
    ensures !Enabled(items, focus) ==> IsFirst(items, DownFrom(items, focus)) && IsLast(items, UpFrom(items, focus))
  {
    var idx := Focusable(items);
    var pos := PosIn(idx, focus);
    FocusableEnabled(items);
    hide Follows, IsFirst, IsLast, Enabled, Focusable, PosIn;
    Neighbours(items, 0);
    Neighbours(items, |idx| - 1);
    EndsMeet(items);
    if pos >= 0 {
      assert idx[pos] == focus;
      Neighbours(items, pos);
      if pos > 0 { Neighbours(items, pos - 1); }
    }
  }

  lemma EndsMeet(items: seq<Item>)
    requires Focusable(items) != []
    ensures var idx := Focusable(items); Follows(items, idx[|idx| - 1], idx[0])
  {
    var idx := Focusable(items);
    FocusableMeans(items, 0);
    Neighbours(items, 0);
    Neighbours(items, |idx| - 1);
  }

  /** On the enabled items the arrows undo each other. */
  lemma ArrowsAreInverse(items: seq<Item>, focus: int)
    requires Enabled(items, focus)
    ensures UpFrom(items, DownFrom(items, focus)) == focus && DownFrom(items, UpFrom(items, focus)) == focus
  {
    var idx := Focusable(items);
    var pos := PosIn(idx, focus);
    FocusableEnabled(items);
    hide Focusable, PosIn;
    PosInAt(idx, Down(pos, |idx|));
    PosInAt(idx, Up(pos, |idx|));
  }

  /** The items focused by pressing ArrowDown `n` times. */
  function DownRun(items: seq<Item>, focus: int, n: nat): seq<int>
    decreases n
  {
    if n == 0 then [] else [DownFrom(items, focus)] + DownRun(items, DownFrom(items, focus), n - 1)
  }

  lemma {:induction false} DownRunAt(items: seq<Item>, pos: nat, n: nat)
    requires pos < |Focusable(items)| && n <= |Focusable(items)|
    ensures var idx := Focusable(items);
            var run := DownRun(items, idx[pos], n);
            |run| == n && forall j :: 0 <= j < n ==> run[j] == idx[Turn(pos, j, |idx|)]
    decreases n
  {
    if n > 0 {
      hide Focusable, DownFrom, Turn, Down;
      var idx := Focusable(items);
      DownAt(items, pos);
      var next := Down(pos, |idx|);
      DownRunAt(items, next, n - 1);
      var run, rest := DownRun(items, idx[pos], n), DownRun(items, idx[next], n - 1);
      assert run == [idx[next]] + rest;
      forall j | 0 <= j < n ensures run[j] == idx[Turn(pos, j, |idx|)] {
        TurnNext(pos, j, |idx|);
        if j > 0 { assert run[j] == rest[j - 1]; }
      }
    }
  }

  lemma DownAt(items: seq<Item>, pos: nat)
    requires pos < |Focusable(items)|
    ensures DownFrom(items, Focusable(items)[pos]) == Focusable(items)[Down(pos, |Focusable(items)|)]
  {
    FocusableMeans(items, 0);
    PosInAt(Focusable(items), pos);
  }

  /** The position reached by the `j`-th further step, for one round. */
  function Turn(pos: nat, j: nat, n: nat): (r: nat)
    requires pos < n && j < n
    ensures r < n
  {
    if pos + 1 + j < n then pos + 1 + j else pos + 1 + j - n
  }

  lemma TurnNext(pos: nat, j: nat, n: nat)
    requires pos < n && j < n
    ensures Turn(pos, j, n) == if j == 0 then Down(pos, n) else Turn(Down(pos, n), j - 1, n)
  {
  }

  /** As many presses of ArrowDown as there are enabled items visit each of them exactly once, and
      end where they began. */
  lemma DownVisitsAll(items: seq<Item>, focus: int)
    requires Enabled(items, focus)
    ensures var run := DownRun(items, focus, |Focusable(items)|);
            && Distinct(run) && (forall i :: i in run <==> Enabled(items, i))
            && run != [] && run[|run| - 1] == focus
  {
    var idx := Focusable(items);
    var pos := PosIn(idx, focus);
    FocusableEnabled(items);
    assert idx[pos] == focus;
    DownRunAt(items, pos, |idx|);
    Rotation(idx, DownRun(items, focus, |idx|), Down(pos, |idx|));
  }

  /** A list read from its `b`-th place, going round, holds each of its elements once. */
  lemma Rotation(m: seq<nat>, v: seq<int>, b: nat)
    requires Ascending(m) && b < |m| && |v| == |m|
    requires forall j :: 0 <= j < |v| ==> v[j] == m[if b + j < |m| then b + j else b + j - |m|]
    ensures Distinct(v)
    ensures forall i: nat :: i in v <==> i in m
    ensures forall i :: i in v ==> i >= 0
  {
    forall i | i in m ensures i in v {
      var k :| 0 <= k < |m| && m[k] == i;
      assert v[if k >= b then k - b else k - b + |m|] == i;
    }
    forall i | i in v ensures i >= 0 && i in m {
      var j :| 0 <= j < |v| && v[j] == i;
      assert m[if b + j < |m| then b + j else b + j - |m|] in m;
    }
    forall i, j | 0 <= i < j < |v| ensures v[i] != v[j] {
      var p, q := if b + i < |m| then b + i else b + i - |m|, if b + j < |m| then b + j else b + j - |m|;
      assert if p < q then m[p] < m[q] else m[q] < m[p];
    }
  }

  // --------------------------------------------------------------------- typeahead

  predicate StartsWith(text: string, prefix: string) {
    |prefix| <= |text| && text[..|prefix|] == prefix
  }

  /** The position `k` places after `start`, going round. */
  function At(start: nat, k: nat, n: nat): nat
    requires n > 0
  {
    (start + k) % n
  }

  /** Where the search for `prefix` starts: a single letter looks past the current item. */
  function StartOf(pos: int, prefix: string): nat
    requires pos >= -1
  {
    if pos < 0 then 0 else if |prefix| == 1 then pos + 1 else pos
  }

  /** The first match at or after the `k`-th place from `start`. */
  function FindFrom(labels: seq<string>, start: nat, prefix: string, k: nat): Option<nat>
    decreases |labels| - k
  {
    if k >= |labels| then None
    else if StartsWith(labels[At(start, k, |labels|)], prefix) then Some(At(start, k, |labels|))
    else FindFrom(labels, start, prefix, k + 1)
  }

  function Find(labels: seq<string>, pos: int, prefix: string): Option<nat>
    requires pos >= -1
  {
    FindFrom(labels, StartOf(pos, prefix), prefix, 0)
  }

  /** `find`: the labels of the focusable items are tried in turn, going round from the start. */
  method FindLoop(labels: seq<string>, pos: int, prefix: string) returns (hit: Option<nat>)
    requires pos >= -1
    ensures hit == Find(labels, pos, prefix)
    ensures hit.Some? ==> hit.value < |labels| && StartsWith(labels[hit.value], prefix)
  {
    var start := StartOf(pos, prefix);
    for k := 0 to |labels|
      invariant Find(labels, pos, prefix) == FindFrom(labels, start, prefix, k)
    {
      var i := At(start, k, |labels|);
      if StartsWith(labels[i], prefix) { return Some(i); }
    }
    return None;
  }

  lemma {:induction false} FindFromNearest(labels: seq<string>, start: nat, prefix: string, k: nat)
    requires k <= |labels|
    ensures match FindFrom(labels, start, prefix, k)
            case None => forall j :: k <= j < |labels| ==> !StartsWith(labels[At(start, j, |labels|)], prefix)
            case Some(i) =>
              exists d :: k <= d < |labels| && i == At(start, d, |labels|) && StartsWith(labels[i], prefix)
                && forall j :: k <= j < d ==> !StartsWith(labels[At(start, j, |labels|)], prefix)
    decreases |labels| - k
  {
    if k < |labels| && !StartsWith(labels[At(start, k, |labels|)], prefix) {
      FindFromNearest(labels, start, prefix, k + 1);
    }
  }

  /** Every position is some number of places after the start. */
  lemma ReachedFrom(start: nat, i: nat, n: nat) returns (k: nat)
    requires i < n && start <= n
    ensures k < n && At(start, k, n) == i
  {
    k := if i >= start then i - start else i + n - start;
    Round(start + k, n);
  }

  /** The search finds a match if there is one, and it is the nearest going round from the start. */
  lemma FindIsNearest(labels: seq<string>, pos: int, prefix: string)
    requires -1 <= pos < |labels|
    ensures Find(labels, pos, prefix) == None <==> forall i :: 0 <= i < |labels| ==> !StartsWith(labels[i], prefix)
    ensures Find(labels, pos, prefix).Some? ==>
              exists d :: 0 <= d < |labels| && Find(labels, pos, prefix).value == At(StartOf(pos, prefix), d, |labels|)
                && StartsWith(labels[Find(labels, pos, prefix).value], prefix)
                && forall j :: 0 <= j < d ==> !StartsWith(labels[At(StartOf(pos, prefix), j, |labels|)], prefix)
  {
    var start := StartOf(pos, prefix);
    FindFromNearest(labels, start, prefix, 0);
    if Find(labels, pos, prefix) == None {
      forall i | 0 <= i < |labels| ensures !StartsWith(labels[i], prefix) {
        var k := ReachedFrom(start, i, |labels|);
        assert !StartsWith(labels[At(start, k, |labels|)], prefix);
      }
    }
  }

  /** With more than one letter typed, an item that still matches keeps the focus. */
  lemma MatchKeepsFocus(labels: seq<string>, pos: nat, prefix: string)
    requires pos < |labels| && |prefix| != 1 && StartsWith(labels[pos], prefix)
    ensures Find(labels, pos, prefix) == Some(pos)
  {
    Round(pos + 0, |labels|);
  }

  // ------------------------------------------------------------------- a letter repeated

  /** What was typed, when, and the focused position (-1 for none). */
  datatype Typing = Typing(text: string, at: int, pos: int)

  /** One letter: it extends what was typed within the time limit, and stands alone when nothing
      matches the whole. */
  function Press(labels: seq<string>, t: Typing, c: char, now: int): Typing
    requires t.pos >= -1
  {
    var text := if now - t.at > TYPEAHEAD_MS then [c] else t.text + [c];
    var hit := Find(labels, t.pos, text);
    var kept := if hit == None && |text| > 1 then [c] else text;
    var landed := if hit == None && |text| > 1 then Find(labels, t.pos, [c]) else hit;
    Typing(kept, now, if landed.Some? then landed.value else t.pos)
  }

  ghost predicate SomeLabel(labels: seq<string>, prefix: string) {
    exists i :: 0 <= i < |labels| && StartsWith(labels[i], prefix)
  }

  /** Where a letter lands: on a label starting with all that was typed in time, else on one starting
      with the letter alone, else nowhere new. */
  lemma PressLands(labels: seq<string>, t: Typing, c: char, now: int)
    requires -1 <= t.pos < |labels|
    ensures var whole := if now - t.at > TYPEAHEAD_MS then [c] else t.text + [c];
            var next := Press(labels, t, c, now);
            && next.at == now
            && if SomeLabel(labels, whole)
               then next.text == whole && 0 <= next.pos < |labels| && StartsWith(labels[next.pos], whole)
               else if SomeLabel(labels, [c])
               then next.text == [c] && 0 <= next.pos < |labels| && StartsWith(labels[next.pos], [c])
               else next.text == [c] && next.pos == t.pos
  {
    var whole := if now - t.at > TYPEAHEAD_MS then [c] else t.text + [c];
    FindIsNearest(labels, t.pos, whole);
    FindIsNearest(labels, t.pos, [c]);
    FindInRange(labels, t.pos, whole);
    FindInRange(labels, t.pos, [c]);
  }

  lemma {:induction false} FindFromInRange(labels: seq<string>, start: nat, prefix: string, k: nat)
    ensures FindFrom(labels, start, prefix, k).Some? ==> FindFrom(labels, start, prefix, k).value < |labels|
    decreases |labels| - k
  {
    if k < |labels| && !StartsWith(labels[At(start, k, |labels|)], prefix) {
      FindFromInRange(labels, start, prefix, k + 1);
    }
  }

  lemma FindInRange(labels: seq<string>, pos: int, prefix: string)
    requires pos >= -1
    ensures Find(labels, pos, prefix).Some? ==> Find(labels, pos, prefix).value < |labels|
  {
    FindFromInRange(labels, StartOf(pos, prefix), prefix, 0);
  }

  /** The menu's own state: what was typed, when, and the focused item's index. */
  datatype State = State(text: string, at: int, focus: int)

  function PressKey(items: seq<Item>, s: State, c: char, now: int): State {
    var idx := Focusable(items);
    if idx == [] then s
    else
      var next := Press(Labels(items), Typing(s.text, s.at, PosIn(idx, s.focus)), c, now);
      State(next.text, next.at, if 0 <= next.pos < |idx| then idx[next.pos] else s.focus)
  }

  ghost predicate SomeItem(items: seq<Item>, prefix: string) {
    exists i :: ItemStarts(items, i, prefix)
  }

  /** What one letter does: typed in time it joins the ones before, else it starts afresh, and the next is measured
      from it. The focus goes to an enabled item that starts with all that was typed, else with the letter alone,
      else it stays. */
  ghost predicate Lands(items: seq<Item>, s: State, c: char, now: int, next: State) {
    var whole := if now - s.at > TYPEAHEAD_MS then [c] else s.text + [c];
    && next.at == now
    && if SomeItem(items, whole) then next.text == whole && ItemStarts(items, next.focus, whole)
       else if SomeItem(items, [c]) then next.text == [c] && ItemStarts(items, next.focus, [c])
       else next.text == [c] && next.focus == s.focus
  }

  lemma KeyLands(items: seq<Item>, s: State, c: char, now: int)
    ensures if exists i :: Enabled(items, i) then Lands(items, s, c, now, PressKey(items, s, c, now))
            else PressKey(items, s, c, now) == s
  {
    var idx := Focusable(items);
    FocusableEnabled(items);
    hide Focusable, Press, PosIn, Labels, Enabled, Lands;
    if idx != [] {
      assert idx[0] in idx;
      KeyLandsAmong(items, s, c, now);
    }
  }

  lemma KeyLandsAmong(items: seq<Item>, s: State, c: char, now: int)
    requires Focusable(items) != []
    ensures Lands(items, s, c, now, PressKey(items, s, c, now))
  {
    var idx := Focusable(items);
    var whole := if now - s.at > TYPEAHEAD_MS then [c] else s.text + [c];
    var t := Typing(s.text, s.at, PosIn(idx, s.focus));
    if t.pos >= 0 { FocusedAt(idx, s.focus); }
    PressLands(Labels(items), t, c, now);
    SomeItemStarts(items, whole);
    SomeItemStarts(items, [c]);
    hide Focusable, Press, PosIn, Labels, ItemStarts, StartsWith, SomeItem, SomeLabel;
    var next := Press(Labels(items), t, c, now);
    if SomeItem(items, whole) {
      PositionStarts(items, next.pos, whole);
    } else if SomeItem(items, [c]) {
      PositionStarts(items, next.pos, [c]);
    }
  }

  lemma PositionStarts(items: seq<Item>, p: nat, prefix: string)
    requires p < |Labels(items)| && StartsWith(Labels(items)[p], prefix)
    ensures ItemStarts(items, Focusable(items)[p], prefix)
  {
    hide Focusable, Labels, ItemStarts, StartsWith;
    LabelsAreItems(items, prefix);
  }

  lemma SomeItemStarts(items: seq<Item>, prefix: string)
    ensures SomeItem(items, prefix) <==> SomeLabel(Labels(items), prefix)
  {
    var idx := Focusable(items);
    LabelsAreItems(items, prefix);
    hide Focusable, Labels, StartsWith;
    if i :| ItemStarts(items, i, prefix) {
      var p :| 0 <= p < |idx| && idx[p] == i;
      assert StartsWith(Labels(items)[p], prefix);
    }
    if p :| 0 <= p < |Labels(items)| && StartsWith(Labels(items)[p], prefix) {
      assert ItemStarts(items, idx[p], prefix);
    }
  }

  class Menu {
    const items: seq<Item>
    var text: string
    var at: int
    /** Index of the focused item, or -1. */
    var focus: int

    constructor (items: seq<Item>)
      ensures this.items == items && text == "" && at == 0 && focus == -1
    {
      this.items := items;
      text, at, focus := "", 0, -1;
    }

    method ArrowDown()
      modifies this`focus
      ensures focus == DownFrom(items, old(focus))
      ensures Enabled(items, old(focus)) ==> Follows(items, old(focus), focus)
      ensures !Enabled(items, old(focus)) ==>
                if Focusable(items) == [] then focus == old(focus) else IsFirst(items, focus)
    {
      var idx := Focusable(items);
      FocusableEnabled(items);
      if |idx| == 0 { return; }
      ArrowsGoRound(items, focus);
      var pos := PosIn(idx, focus);
      focus := idx[if pos < 0 then 0 else (pos + 1) % |idx|];
    }

    method ArrowUp()
      modifies this`focus
      ensures focus == UpFrom(items, old(focus))
      ensures Enabled(items, old(focus)) ==> Follows(items, focus, old(focus))
      ensures !Enabled(items, old(focus)) ==>
                if Focusable(items) == [] then focus == old(focus) else IsLast(items, focus)
    {
      var idx := Focusable(items);
      FocusableEnabled(items);
      if |idx| == 0 { return; }
      ArrowsGoRound(items, focus);
      var pos := PosIn(idx, focus);
      if pos >= 0 { Round(pos - 1 + |idx|, |idx|); }
      focus := idx[if pos < 0 then |idx| - 1 else (pos - 1 + |idx|) % |idx|];
    }

    method Home()
      modifies this`focus
      ensures if Focusable(items) == [] then focus == old(focus) else IsFirst(items, focus)
    {
      var idx := Focusable(items);
      if |idx| == 0 { return; }
      Neighbours(items, 0);
      focus := idx[0];
    }

    method End()
      modifies this`focus
      ensures if Focusable(items) == [] then focus == old(focus) else IsLast(items, focus)
    {
      var idx := Focusable(items);
      if |idx| == 0 { return; }
      Neighbours(items, |idx| - 1);
      focus := idx[|idx| - 1];
    }

    /** A printable key. */
    method Type(c: char, now: int)
      modifies this
      ensures State(text, at, focus) == PressKey(items, State(old(text), old(at), old(focus)), c, now)
      ensures var s := State(old(text), old(at), old(focus));
              if exists i :: Enabled(items, i) then Lands(items, s, c, now, State(text, at, focus))
              else State(text, at, focus) == s
    {
      KeyLands(items, State(text, at, focus), c, now);
      hide Lands;
      var idx := Focusable(items);
      if |idx| == 0 { return; }
      var labels := Labels(items);
      var pos := PosIn(idx, focus);
      text := if now - at > TYPEAHEAD_MS then [c] else text + [c];
      at := now;
      var hit := FindLoop(labels, pos, text);
      if hit == None && |text| > 1 {
        text := [c];
        hit := FindLoop(labels, pos, text);
      }
      if hit.Some? { focus := idx[hit.value]; } else if pos >= 0 { FocusedAt(idx, focus); }
    }
  }

  function Labels(items: seq<Item>): (r: seq<string>)
    ensures |r| == |Focusable(items)|
  {
    FocusableMeans(items, 0);
    var idx := Focusable(items);
    seq(|idx|, k requires 0 <= k < |idx| => LabelAt(items, idx[k]))
  }

  function LabelAt(items: seq<Item>, i: nat): string {
    if i < |items| && items[i].Action? then items[i].text else ""
  }

  /** The positions whose label starts with `c`, from `from` on. */
  function MatchesFrom(labels: seq<string>, c: char, from: nat): seq<nat>
    decreases |labels| - from
  {
    if from >= |labels| then []
    else (if StartsWith(labels[from], [c]) then [from] else []) + MatchesFrom(labels, c, from + 1)
  }

  ghost predicate AreMatches(labels: seq<string>, c: char, m: seq<nat>) {
    Ascending(m) && forall i :: i in m <==> 0 <= i < |labels| && StartsWith(labels[i], [c])
  }

  lemma {:induction false} MatchesAre(labels: seq<string>, c: char, from: nat)
    ensures Ascending(MatchesFrom(labels, c, from))
    ensures forall i :: i in MatchesFrom(labels, c, from) <==> from <= i < |labels| && StartsWith(labels[i], [c])
    decreases |labels| - from
  {
    if from < |labels| {
      MatchesAre(labels, c, from + 1);
      var rest := MatchesFrom(labels, c, from + 1);
      var all := (if StartsWith(labels[from], [c]) then [from] else []) + rest;
      forall i, j | 0 <= i < j < |all| ensures all[i] < all[j] {
        assert forall k :: 0 <= k < |rest| ==> rest[k] in rest;
      }
    }
  }

  lemma {:induction false} FindFromAt(labels: seq<string>, start: nat, prefix: string, k: nat, d: nat)
    requires k <= d < |labels| && StartsWith(labels[At(start, d, |labels|)], prefix)
    requires forall j :: k <= j < d ==> !StartsWith(labels[At(start, j, |labels|)], prefix)
    ensures FindFrom(labels, start, prefix, k) == Some(At(start, d, |labels|))
    decreases d - k
  {
    if k < d { FindFromAt(labels, start, prefix, k + 1, d); }
  }

  /** Exactly the first `a` matches are at or before `pos`. */
  ghost predicate Passed(m: seq<nat>, pos: int, a: nat) {
    a <= |m| && forall j :: 0 <= j < |m| ==> (j < a <==> m[j] <= pos)
  }

  /** The match after the ones passed, or the first one. */
  function NextMatch(m: seq<nat>, a: nat): nat
    requires m != []
  {
    if a < |m| then m[a] else m[0]
  }

  lemma FindNextMatch(labels: seq<string>, c: char, m: seq<nat>, pos: int, a: nat)
    requires AreMatches(labels, c, m) && m != [] && -1 <= pos < |labels| && Passed(m, pos, a)
    ensures Find(labels, pos, [c]) == Some(NextMatch(m, a))
  {
    var n, start := |labels|, StartOf(pos, [c]);
    var t := NextMatch(m, a);
    assert t in m;
    var d := if t >= start then t - start else t + n - start;
    Round(start + d, n);
    forall j | 0 <= j < d ensures !StartsWith(labels[At(start, j, n)], [c]) {
      Round(start + j, n);
      forall k | 0 <= k < |m| ensures m[k] != At(start, j, n) { NotBetween(m, pos, a, k); }
    }
    FindFromAt(labels, start, [c], 0, d);
  }

  /** No match lies strictly between the current position and the next match, going round. */
  lemma NotBetween(m: seq<nat>, pos: int, a: nat, k: nat)
    requires Ascending(m) && m != [] && Passed(m, pos, a) && k < |m|
    ensures a < |m| ==> m[k] <= pos || m[k] >= m[a]
    ensures a == |m| ==> m[0] <= m[k] <= pos
  {
    if a < k { assert m[a] < m[k]; }
    if 0 < k { assert m[0] < m[k]; }
  }

  /** The letter `c` is fresh, or already the only one typed. */
  ghost predicate Alone(t: Typing, c: char, now: int) {
    t.text == "" || t.text == [c] || now - t.at > TYPEAHEAD_MS
  }

  lemma PressMovesToNext(labels: seq<string>, c: char, m: seq<nat>, t: Typing, now: int, a: nat)
    requires AreMatches(labels, c, m) && m != [] && -1 <= t.pos < |labels| && Passed(m, t.pos, a) && Alone(t, c, now)
    requires forall i :: 0 <= i < |labels| ==> !StartsWith(labels[i], [c, c])
    ensures Press(labels, t, c, now) == Typing([c], now, NextMatch(m, a))
    ensures NextMatch(m, a) < |labels|
    ensures Passed(m, NextMatch(m, a), if a < |m| then a + 1 else 1)
  {
    FindNextMatch(labels, c, m, t.pos, a);
    assert [c] + [c] == [c, c] && "" + [c] == [c];
    FindIsNearest(labels, t.pos, [c, c]);
    assert NextMatch(m, a) in m;
    var b := if a < |m| then a else 0;
    forall j | 0 <= j < |m| ensures j < b + 1 <==> m[j] <= m[b] {
      if j < b { assert m[j] < m[b]; }
      if b < j { assert m[b] < m[j]; }
    }
  }

  /** The positions focused by pressing `c` at the given times. */
  function Visits(labels: seq<string>, t: Typing, c: char, times: seq<int>): seq<int>
    requires t.pos >= -1
    decreases |times|
  {
    if times == [] then []
    else
      var next := Press(labels, t, c, times[0]);
      [next.pos] + Visits(labels, next, c, times[1..])
  }

  lemma {:induction false} VisitsInTurn(labels: seq<string>, c: char, m: seq<nat>, t: Typing, times: seq<int>, a: nat)
    requires AreMatches(labels, c, m) && m != [] && -1 <= t.pos < |labels| && Passed(m, t.pos, a)
    requires times != [] ==> Alone(t, c, times[0])
    requires forall i :: 0 <= i < |labels| ==> !StartsWith(labels[i], [c, c])
    requires |times| <= |m|
    ensures var v := Visits(labels, t, c, times);
            var b := if a < |m| then a else 0;
            |v| == |times| && forall j :: 0 <= j < |v| ==> v[j] == m[if b + j < |m| then b + j else b + j - |m|]
    decreases |times|
  {
    if times != [] {
      hide Press, Passed, AreMatches, StartsWith;
      var next := Press(labels, t, c, times[0]);
      PressMovesToNext(labels, c, m, t, times[0], a);
      VisitsInTurn(labels, c, m, next, times[1..], if a < |m| then a + 1 else 1);
      assert Visits(labels, t, c, times) == [next.pos] + Visits(labels, next, c, times[1..]);
    }
  }

  lemma PositionsInTurn(labels: seq<string>, c: char, t: Typing, times: seq<int>)
    requires -1 <= t.pos < |labels|
    requires forall i :: 0 <= i < |labels| ==> !StartsWith(labels[i], [c, c])
    requires |times| == |MatchesFrom(labels, c, 0)|
    requires times != [] ==> Alone(t, c, times[0])
    ensures Distinct(Visits(labels, t, c, times))
    ensures forall i :: i in Visits(labels, t, c, times) <==> 0 <= i < |labels| && StartsWith(labels[i], [c])
  {
    var m := MatchesFrom(labels, c, 0);
    MatchesAre(labels, c, 0);
    if m != [] {
      hide Visits, MatchesFrom, Ascending, StartsWith;
      TurnsVisitAll(labels, c, m, t, times);
    }
  }

  lemma TurnsVisitAll(labels: seq<string>, c: char, m: seq<nat>, t: Typing, times: seq<int>)
    requires AreMatches(labels, c, m) && m != [] && -1 <= t.pos < |labels|
    requires forall i :: 0 <= i < |labels| ==> !StartsWith(labels[i], [c, c])
    requires |times| == |m| && Alone(t, c, times[0])
    ensures Distinct(Visits(labels, t, c, times))
    ensures forall i :: i in Visits(labels, t, c, times) <==> i >= 0 && i in m
  {
    hide Visits, Passed, Ascending, StartsWith, Alone, Distinct;
    var a := PassedCount(m, t.pos);
    VisitsInTurn(labels, c, m, t, times, a);
    Rotation(m, Visits(labels, t, c, times), if a < |m| then a else 0);
  }

  lemma {:induction false} PassedCount(m: seq<nat>, pos: int) returns (a: nat)
    requires Ascending(m)
    ensures Passed(m, pos, a)
  {
    if m == [] || m[0] > pos {
      a := 0;
      assert forall j :: 0 < j < |m| ==> m[0] < m[j];
    } else {
      var rest := m[1..];
      a := PassedCount(rest, pos);
      a := a + 1;
      assert forall j :: 1 <= j < |m| ==> m[j] == rest[j - 1];
    }
  }

  // ------------------------------------------------------- a letter repeated, in the menu

  /** The items focused by pressing `c` at the given times. */
  function KeyVisits(items: seq<Item>, s: State, c: char, times: seq<int>): seq<int>
    decreases |times|
  {
    if times == [] then []
    else
      var next := PressKey(items, s, c, times[0]);
      [next.focus] + KeyVisits(items, next, c, times[1..])
  }

  ghost predicate ItemStarts(items: seq<Item>, i: int, prefix: string) {
    Enabled(items, i) && StartsWith(items[i].text, prefix)
  }

  /** How many enabled items start with `c`. */
  function MatchCount(items: seq<Item>, c: char): nat {
    |MatchesFrom(Labels(items), c, 0)|
  }

  /** The letter `c` is fresh, or already the only one typed. */
  ghost predicate Fresh(s: State, c: char, now: int) {
    Alone(Typing(s.text, s.at, s.focus), c, now)
  }

  lemma LabelsAreItems(items: seq<Item>, prefix: string)
    ensures var idx := Focusable(items);
            forall p :: 0 <= p < |idx| ==> (ItemStarts(items, idx[p], prefix) <==> StartsWith(Labels(items)[p], prefix))
    ensures forall i :: ItemStarts(items, i, prefix) ==> i in Focusable(items)
  {
    FocusableMeans(items, 0);
    FocusableEnabled(items);
    var idx := Focusable(items);
    forall p | 0 <= p < |idx| ensures ItemStarts(items, idx[p], prefix) <==> StartsWith(Labels(items)[p], prefix) {
      assert idx[p] in idx && Enabled(items, idx[p]);
    }
  }

  /** As long as some item starts with the letter, the menu follows the positions. */
  lemma {:induction false} KeysFollowPositions(items: seq<Item>, s: State, c: char, times: seq<int>)
    requires MatchCount(items, c) > 0
    ensures var idx := Focusable(items);
            var v := Visits(Labels(items), Typing(s.text, s.at, PosIn(idx, s.focus)), c, times);
            && |v| == |KeyVisits(items, s, c, times)| == |times|
            && forall j :: 0 <= j < |v| ==> 0 <= v[j] < |idx| && KeyVisits(items, s, c, times)[j] == idx[v[j]]
    decreases |times|
  {
    if times != [] {
      hide Focusable, Labels, Press, PressKey, PosIn, MatchCount;
      var idx := Focusable(items);
      var t := Typing(s.text, s.at, PosIn(idx, s.focus));
      var next, pressed := Press(Labels(items), t, c, times[0]), PressKey(items, s, c, times[0]);
      KeyFollowsPosition(items, s, c, times[0]);
      KeysFollowPositions(items, pressed, c, times[1..]);
      assert Visits(Labels(items), t, c, times) == [next.pos] + Visits(Labels(items), next, c, times[1..]);
      assert KeyVisits(items, s, c, times) == [pressed.focus] + KeyVisits(items, pressed, c, times[1..]);
    }
  }

  lemma KeyFollowsPosition(items: seq<Item>, s: State, c: char, now: int)
    requires MatchCount(items, c) > 0
    ensures var idx := Focusable(items);
            var next := Press(Labels(items), Typing(s.text, s.at, PosIn(idx, s.focus)), c, now);
            var pressed := PressKey(items, s, c, now);
            && 0 <= next.pos < |idx| && pressed == State(next.text, next.at, idx[next.pos])
            && Typing(pressed.text, pressed.at, PosIn(idx, pressed.focus)) == next
  {
    var idx, labels := Focusable(items), Labels(items);
    var t := Typing(s.text, s.at, PosIn(idx, s.focus));
    FocusableMeans(items, 0);
    SomeMatch(items, c);
    PressLands(labels, t, c, now);
    hide Focusable, Labels, Press, StartsWith, MatchCount;
    PosInAt(idx, Press(labels, t, c, now).pos);
  }

  lemma SomeMatch(items: seq<Item>, c: char)
    requires MatchCount(items, c) > 0
    ensures exists p :: 0 <= p < |Labels(items)| && StartsWith(Labels(items)[p], [c])
  {
    MatchesAre(Labels(items), c, 0);
    assert MatchesFrom(Labels(items), c, 0)[0] in MatchesFrom(Labels(items), c, 0);
  }

  /** When no enabled item starts with the letter twice, pressing it as often as there are items
      starting with it, at any pace, focuses each of them exactly once. */
  lemma RepeatedLetterVisitsAll(items: seq<Item>, c: char, s: State, times: seq<int>)
    requires forall i :: !ItemStarts(items, i, [c, c])
    requires |times| == MatchCount(items, c)
    requires times != [] ==> Fresh(s, c, times[0])
    ensures Distinct(KeyVisits(items, s, c, times))
    ensures forall i :: i in KeyVisits(items, s, c, times) <==> ItemStarts(items, i, [c])
  {
    var idx, labels := Focusable(items), Labels(items);
    LabelsAreItems(items, [c]);
    LabelsAreItems(items, [c, c]);
    FocusableMeans(items, 0);
    var t := Typing(s.text, s.at, PosIn(idx, s.focus));
    PositionsInTurn(labels, c, t, times);
    var v := Visits(labels, t, c, times);
    if times == [] {
      MatchesAre(labels, c, 0);
    } else {
      KeysFollowPositions(items, s, c, times);
    }
    hide Focusable, Labels, Visits, KeyVisits, MatchCount, MatchesFrom;
    FocusedInTurn(items, c, v, KeyVisits(items, s, c, times));
  }

  lemma FocusedInTurn(items: seq<Item>, c: char, v: seq<int>, visits: seq<int>)
    requires Distinct(v) && |visits| == |v| && Ascending(Focusable(items))
    requires forall j :: 0 <= j < |v| ==> 0 <= v[j] < |Focusable(items)| && visits[j] == Focusable(items)[v[j]]
    requires forall p :: p in v <==> 0 <= p < |Labels(items)| && StartsWith(Labels(items)[p], [c])
    ensures Distinct(visits) && forall i :: i in visits <==> ItemStarts(items, i, [c])
  {
    var idx := Focusable(items);
    LabelsAreItems(items, [c]);
    forall i, j | 0 <= i < j < |visits| ensures visits[i] != visits[j] {
      assert if v[i] < v[j] then idx[v[i]] < idx[v[j]] else idx[v[j]] < idx[v[i]];
    }
    forall i | i in visits ensures ItemStarts(items, i, [c]) {
      var j :| 0 <= j < |visits| && visits[j] == i;
      assert v[j] in v;
    }
    forall i | ItemStarts(items, i, [c]) ensures i in visits {
      var p :| 0 <= p < |idx| && idx[p] == i;
      assert p in v;
      var j :| 0 <= j < |v| && v[j] == p;
      assert visits[j] == i;
    }
  }

  /** Wherever the focus starts and at whatever pace, as many presses as there are matches repeat no
      item. */
  ghost predicate NeverRepeats(items: seq<Item>, c: char) {
    forall s: State, times: seq<int> ::
      |times| == MatchCount(items, c) && (times != [] ==> Fresh(s, c, times[0])) ==>
        Distinct(KeyVisits(items, s, c, times))
  }

  /** That holds if and only if no enabled item starts with the letter twice, or at most one starts
      with it at all. */
  lemma RepeatedLetterExactly(items: seq<Item>, c: char)
    ensures NeverRepeats(items, c) <==> (forall i :: !ItemStarts(items, i, [c, c])) || MatchCount(items, c) <= 1
  {
    if MatchCount(items, c) <= 1 {
      forall s: State, times: seq<int> | |times| == MatchCount(items, c)
        ensures Distinct(KeyVisits(items, s, c, times))
      {
        if times != [] { KeysFollowPositions(items, s, c, times); }
      }
    } else if forall i :: !ItemStarts(items, i, [c, c]) {
      forall s: State, times: seq<int> | |times| == MatchCount(items, c) && (times != [] ==> Fresh(s, c, times[0]))
        ensures Distinct(KeyVisits(items, s, c, times))
      {
        RepeatedLetterVisitsAll(items, c, s, times);
      }
    } else {
      var i :| ItemStarts(items, i, [c, c]);
      var s, times := DoubleLetterSticks(items, c, i);
    }
  }

  /** From just before an item that starts with the letter twice, the second press stays on it. */
  lemma DoubleLetterSticks(items: seq<Item>, c: char, i: int) returns (s: State, times: seq<int>)
    requires ItemStarts(items, i, [c, c]) && MatchCount(items, c) > 1
    ensures |times| == MatchCount(items, c) && Fresh(s, c, times[0])
    ensures var v := KeyVisits(items, s, c, times);
            |v| > 1 && v[0] == v[1] == i && !Distinct(v)
  {
    hide Focusable, Labels, KeyVisits, Visits, MatchCount, StartsWith;
    var idx, labels := Focusable(items), Labels(items);
    LabelsAreItems(items, [c, c]);
    FocusableEnabled(items);
    var p :| 0 <= p < |idx| && idx[p] == i;
    s := State("", 0, if p == 0 then -1 else idx[p - 1]);
    times := seq(MatchCount(items, c), _ => 0);
    if p > 0 { PosInAt(idx, p - 1); }
    KeysFollowPositions(items, s, c, times);
    SecondPressStays(labels, c, p, times);
  }

  lemma SecondPressStays(labels: seq<string>, c: char, p: nat, times: seq<int>)
    requires p < |labels| && StartsWith(labels[p], [c, c]) && |times| > 1 && times[0] == times[1] == 0
    ensures var v := Visits(labels, Typing("", 0, p - 1), c, times);
            |v| > 1 && v[0] == v[1] == p
  {
    var t := Typing("", 0, p - 1);
    Round(p, |labels|);
    assert At(p, 0, |labels|) == p;
    assert labels[p][..1] == [c];
    assert "" + [c] == [c] && [c] + [c] == [c, c];
    var t1 := Press(labels, t, c, 0);
    assert t1 == Typing([c], 0, p);
    var t2 := Press(labels, t1, c, 0);
    assert t2 == Typing([c, c], 0, p);
    assert Visits(labels, t, c, times) == [p] + Visits(labels, t1, c, times[1..]);
    assert Visits(labels, t1, c, times[1..]) == [p] + Visits(labels, t2, c, times[2..]);
  }
}
