/** Typing a word in a dropdown menu: letter by letter, in time, it finds what a search for the whole word would. */
module MenuWords {
  import opened Lists
  import opened MenuFocus

  // ------------------------------------------------------------------ positions in a round

  /** `j` is passed on the way from just after `from` to `to`, going round. */
  predicate Between(from: int, j: int, to: int) {
    if from < to then from < j < to else from < j || j < to
  }

  /** `i` is the first position after `from`, going round, whose label starts with `w`; `from` itself comes last. */
  ghost predicate NearestLabel(labels: seq<string>, from: int, w: string, i: int) {
    && 0 <= i < |labels| && StartsWith(labels[i], w)
    && forall j :: 0 <= j < |labels| && StartsWith(labels[j], w) && j != i ==> !Between(from, j, i)
  }

  /** How far `i` is from `start`, going round. */
  function Distance(start: nat, i: nat, n: nat): int {
    if i >= start then i - start else i + n - start
  }

  /** The search finds the match the fewest places from where it starts. */
  lemma FindMeasured(labels: seq<string>, pos: int, prefix: string, j: nat)
    requires -1 <= pos < |labels| && j < |labels| && StartsWith(labels[j], prefix)
    ensures var hit, start := Find(labels, pos, prefix), StartOf(pos, prefix);
            && hit.Some? && hit.value < |labels| && StartsWith(labels[hit.value], prefix)
            && Distance(start, hit.value, |labels|) <= Distance(start, j, |labels|)
  {
    var n, start, hit := |labels|, StartOf(pos, prefix), Find(labels, pos, prefix);
    FindIsNearest(labels, pos, prefix);
    FindInRange(labels, pos, prefix);
    hide Find, StartsWith, At;
    var d :| 0 <= d < n && hit.value == At(start, d, n)
             && forall k :: 0 <= k < d ==> !StartsWith(labels[At(start, k, n)], prefix);
    AtDistance(start, d, n);
    PlaceOf(start, j, n);
    var k: nat := Distance(start, j, n);
    assert StartsWith(labels[At(start, k, n)], prefix);
  }

  lemma AtDistance(start: nat, d: nat, n: nat)
    requires start <= n && d < n
    ensures At(start, d, n) < n && Distance(start, At(start, d, n), n) == d
  {
    Round(start + d, n);
  }

  lemma PlaceOf(start: nat, j: nat, n: nat)
    requires start <= n && j < n
    ensures 0 <= Distance(start, j, n) < n && At(start, Distance(start, j, n), n) == j
  {
    Round(start + Distance(start, j, n), n);
  }

  lemma FirstLetterIsNearest(labels: seq<string>, pos: int, c: char)
    requires -1 <= pos < |labels| && SomeLabel(labels, [c])
    ensures Find(labels, pos, [c]).Some? && NearestLabel(labels, pos, [c], Find(labels, pos, [c]).value)
  {
    hide Find, StartsWith;
    var m :| 0 <= m < |labels| && StartsWith(labels[m], [c]);
    FindMeasured(labels, pos, [c], m);
    var i := Find(labels, pos, [c]).value;
    forall j | 0 <= j < |labels| && StartsWith(labels[j], [c]) && j != i ensures !Between(pos, j, i) {
      FindMeasured(labels, pos, [c], j);
    }
  }

  lemma ShorterMatches(text: string, w: string, c: char)
    requires StartsWith(text, w + [c])
    ensures StartsWith(text, w)
  {
    assert text[..|w|] == (w + [c])[..|w|] == w;
  }

  /** The nearest match for the longer word is the first one from the nearest match for the shorter. */
  lemma NextLetterIsNearest(labels: seq<string>, from: int, w: string, c: char, pos: nat)
    requires -1 <= from < |labels| && w != "" && NearestLabel(labels, from, w, pos) && SomeLabel(labels, w + [c])
    ensures var hit := Find(labels, pos, w + [c]);
            hit.Some? && NearestLabel(labels, from, w + [c], hit.value)
  {
    hide Find, StartsWith;
    var longer := w + [c];
    var m :| 0 <= m < |labels| && StartsWith(labels[m], longer);
    FindMeasured(labels, pos, longer, m);
    var i := Find(labels, pos, longer).value;
    ShorterMatches(labels[i], w, c);
    forall j | 0 <= j < |labels| && StartsWith(labels[j], longer) && j != i ensures !Between(from, j, i) {
      FindMeasured(labels, pos, longer, j);
      ShorterMatches(labels[j], w, c);
    }
  }

  // --------------------------------------------------------------------- words, by position

  /** Every letter after the first comes in time. */
  ghost predicate InTime(times: seq<int>) {
    forall k :: 0 < k < |times| ==> times[k] - times[k - 1] <= TYPEAHEAD_MS
  }

  function TypeLabels(labels: seq<string>, t: Typing, w: string, times: seq<int>): (r: Typing)
    requires t.pos >= -1 && |times| == |w|
    ensures r.pos >= -1
    decreases |w|
  {
    if w == "" then t
    else
      var n := |w| - 1;
      Press(labels, TypeLabels(labels, t, w[..n], times[..n]), w[n], times[n])
  }

  /** So far `w` has been typed, the last letter at `at`, and the focus is on the nearest match. */
  ghost predicate Found(labels: seq<string>, from: int, w: string, at: int, t: Typing) {
    t.text == w && t.at == at && NearestLabel(labels, from, w, t.pos)
  }

  lemma FirstFound(labels: seq<string>, t: Typing, c: char, now: int)
    requires -1 <= t.pos < |labels| && SomeLabel(labels, [c])
    requires t.text == "" || now - t.at > TYPEAHEAD_MS
    ensures Found(labels, t.pos, [c], now, Press(labels, t, c, now))
  {
    hide Find, NearestLabel, SomeLabel;
    FirstLetterIsNearest(labels, t.pos, c);
    assert "" + [c] == [c];
  }

  lemma NextFound(labels: seq<string>, from: int, w: string, at: int, t: Typing, c: char, now: int)
    requires -1 <= from < |labels| && w != "" && Found(labels, from, w, at, t)
    requires SomeLabel(labels, w + [c]) && now - at <= TYPEAHEAD_MS
    ensures Found(labels, from, w + [c], now, Press(labels, t, c, now))
  {
    hide NearestLabel, SomeLabel, Press;
    InScope(labels, from, w, t.pos);
    NextLetterIsNearest(labels, from, w, c, t.pos);
    LetterExtends(labels, t, w, c, now);
  }

  lemma {:induction false} LabelsFindWord(labels: seq<string>, t: Typing, w: string, times: seq<int>)
    requires -1 <= t.pos < |labels| && |times| == |w| > 0 && SomeLabel(labels, w)
    requires t.text == "" || times[0] - t.at > TYPEAHEAD_MS
    requires InTime(times)
    ensures Found(labels, t.pos, w, times[|w| - 1], TypeLabels(labels, t, w, times))
    decreases |w|
  {
    TypeLast(labels, t, w, times);
    hide TypeLabels, Found, Press, SomeLabel;
    var n := |w| - 1;
    var shorter, c := w[..n], w[n];
    assert w == shorter + [c];
    if n == 0 {
      assert w == [c];
      TypeNone(labels, t, shorter, times[..n]);
      FirstFound(labels, t, c, times[0]);
    } else {
      ShorterIsThere(labels, shorter, c);
      LabelsFindWord(labels, t, shorter, times[..n]);
      NextFound(labels, t.pos, shorter, times[n - 1], TypeLabels(labels, t, shorter, times[..n]), c, times[n]);
    }
  }

  lemma TypeNone(labels: seq<string>, t: Typing, w: string, times: seq<int>)
    requires t.pos >= -1 && |times| == |w| == 0
    ensures TypeLabels(labels, t, w, times) == t
  {
  }

  lemma TypeLast(labels: seq<string>, t: Typing, w: string, times: seq<int>)
    requires t.pos >= -1 && |times| == |w| > 0
    ensures var n := |w| - 1;
            TypeLabels(labels, t, w, times)
            == Press(labels, TypeLabels(labels, t, w[..n], times[..n]), w[n], times[n])
  {
    hide Press;
  }

  lemma InScope(labels: seq<string>, from: int, w: string, i: int)
    requires NearestLabel(labels, from, w, i)
    ensures 0 <= i < |labels|
  {
  }

  lemma ShorterIsThere(labels: seq<string>, w: string, c: char)
    requires SomeLabel(labels, w + [c])
    ensures SomeLabel(labels, w)
  {
    hide StartsWith;
    var i :| 0 <= i < |labels| && StartsWith(labels[i], w + [c]);
    ShorterMatches(labels[i], w, c);
  }

  /** A letter in time that still matches joins the word. */
  lemma LetterExtends(labels: seq<string>, t: Typing, w: string, c: char, now: int)
    requires t.pos >= 0 && t.text == w && now - t.at <= TYPEAHEAD_MS
    requires Find(labels, t.pos, w + [c]).Some?
    ensures Press(labels, t, c, now) == Typing(w + [c], now, Find(labels, t.pos, w + [c]).value)
  {
    hide Find;
  }

  // ------------------------------------------------------------------- words, in the menu

  function TypeKeys(items: seq<Item>, s: State, w: string, times: seq<int>): State
    requires |times| == |w|
    decreases |w|
  {
    if w == "" then s
    else
      var n := |w| - 1;
      PressKey(items, TypeKeys(items, s, w[..n], times[..n]), w[n], times[n])
  }

  /** `i` is the first enabled item after `from`, going round, that starts with `w`. */
  ghost predicate NearestItem(items: seq<Item>, from: int, w: string, i: int) {
    ItemStarts(items, i, w) && forall j :: ItemStarts(items, j, w) && j != i ==> !Between(from, j, i)
  }

  lemma {:induction false} KeysFollowLabels(items: seq<Item>, s: State, w: string, times: seq<int>)
    requires |times| == |w| && Focusable(items) != []
    ensures var idx := Focusable(items);
            var t := Typing(s.text, s.at, PosIn(idx, s.focus));
            var end, typed := TypeKeys(items, s, w, times), TypeLabels(Labels(items), t, w, times);
            && typed == Typing(end.text, end.at, PosIn(idx, end.focus))
    decreases |w|
  {
    hide Focusable, Labels, Press, PressKey, PosIn;
    if w != "" {
      var n := |w| - 1;
      KeysFollowLabels(items, s, w[..n], times[..n]);
      KeyFollowsLabel(items, TypeKeys(items, s, w[..n], times[..n]), w[n], times[n]);
    }
  }

  lemma KeyFollowsLabel(items: seq<Item>, s: State, c: char, now: int)
    requires Focusable(items) != []
    ensures var idx := Focusable(items);
            var next := PressKey(items, s, c, now);
            Press(Labels(items), Typing(s.text, s.at, PosIn(idx, s.focus)), c, now)
            == Typing(next.text, next.at, PosIn(idx, next.focus))
  {
    var idx, labels := Focusable(items), Labels(items);
    var t := Typing(s.text, s.at, PosIn(idx, s.focus));
    FocusableMeans(items, 0);
    PressLands(labels, t, c, now);
    hide Focusable, Labels, Press, StartsWith, PosIn, SomeLabel;
    var p := Press(labels, t, c, now).pos;
    if 0 <= p < |idx| { PosInAt(idx, p); }
  }

  /** A word typed from a fresh start, each letter in time, with some enabled item that starts with it: what was
      typed is the word, and the focus is on the first such item after the one it was on, going round. */
  lemma WordFindsNearest(items: seq<Item>, s: State, w: string, times: seq<int>)
    requires |times| == |w| > 0 && SomeItem(items, w)
    requires s.text == "" || times[0] - s.at > TYPEAHEAD_MS
    requires InTime(times)
    ensures var end := TypeKeys(items, s, w, times);
            && end.text == w && end.at == times[|w| - 1]
            && NearestItem(items, if Enabled(items, s.focus) then s.focus else -1, w, end.focus)
  {
    var idx, labels := Focusable(items), Labels(items);
    SomeItemStarts(items, w);
    FocusableEnabled(items);
    SomeIsFocusable(items, w);
    var t := Typing(s.text, s.at, PosIn(idx, s.focus));
    LabelsFindWord(labels, t, w, times);
    KeysFollowLabels(items, s, w, times);
    hide Focusable, Labels, TypeKeys, TypeLabels, PosIn, SomeItem, SomeLabel, InTime, NearestItem, NearestLabel;
    var end := TypeKeys(items, s, w, times);
    InScope(labels, t.pos, w, PosIn(idx, end.focus));
    NearestLifts(items, s.focus, w, end.focus);
  }

  lemma SomeIsFocusable(items: seq<Item>, w: string)
    requires SomeItem(items, w)
    ensures Focusable(items) != []
  {
    FocusableEnabled(items);
  }

  lemma NearestLifts(items: seq<Item>, from: int, w: string, i: int)
    requires NearestLabel(Labels(items), PosIn(Focusable(items), from), w, PosIn(Focusable(items), i))
    ensures NearestItem(items, if Enabled(items, from) then from else -1, w, i)
  {
    var idx := Focusable(items);
    FocusableEnabled(items);
    LabelsAreItems(items, w);
    var p, q := PosIn(idx, from), PosIn(idx, i);
    FocusedAt(idx, i);
    if p >= 0 { FocusedAt(idx, from); }
    hide Focusable, Labels, StartsWith, ItemStarts, PosIn, Enabled;
    forall j | ItemStarts(items, j, w) && j != i ensures !Between(if p >= 0 then from else -1, j, i) {
      var k :| 0 <= k < |idx| && idx[k] == j;
      assert StartsWith(Labels(items)[k], w);
      assert !Between(p, k, q);
      assert if k < q then idx[k] < idx[q] else idx[q] < idx[k];
      if p >= 0 && p != k { assert if p < k then idx[p] < idx[k] else idx[k] < idx[p]; }
      if p >= 0 && p != q { assert if p < q then idx[p] < idx[q] else idx[q] < idx[p]; }
    }
  }
}
