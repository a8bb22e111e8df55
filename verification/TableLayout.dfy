/** A register's column layout: the computation of the visible columns from a remembered layout,
    the column chooser's commits and drags, and saved views. */
module TableLayout {
  import opened Lists

  type Key = nat

  /** The key "actions". */
  const ACTIONS: Key := 0

  datatype Column = Column(key: Key, hidden: bool, locked: bool)

  type Catalogue = seq<Column>

  predicate IsLocked(c: Column) {
    c.locked || c.key == ACTIONS
  }

  function Keys(cols: seq<Column>): seq<Key> {
    seq(|cols|, i requires 0 <= i < |cols| => cols[i].key)
  }

  function LockedKeys(cat: Catalogue): seq<Key> {
    Keys(Filter(cat, IsLocked))
  }

  function DefaultKeys(cat: Catalogue): seq<Key> {
    Keys(Filter(cat, (c: Column) => !c.hidden || IsLocked(c)))
  }

  // ------------------------------------------------------------- visible columns

  function ActionsLast(keys: seq<Key>): seq<Key> {
    Without(keys, ACTIONS) + if ACTIONS in keys then [ACTIONS] else []
  }

  /** The layout shown for a remembered one. */
  function Layout(cat: Catalogue, chosen: seq<Key>): seq<Key> {
    ActionsLast(IncludeAll(Filter(chosen, k => k in Keys(cat)), LockedKeys(cat)))
  }

  /** The computation of `visible`; without a remembered layout the default columns are chosen. */
  method Visible(cat: Catalogue, remembered: Option<seq<Key>>) returns (ordered: seq<Key>)
    ensures ordered == Layout(cat, if remembered.Some? then remembered.value else DefaultKeys(cat))
  {
    var chosen := Filter(if remembered.Some? then remembered.value else DefaultKeys(cat), k => k in Keys(cat));
    var ensured := chosen;
    NoneLocked();
    for i := 0 to |cat|
      invariant ensured == IncludeAll(chosen, LockedKeys(cat[..i]))
    {
      EnsureNext(cat, i, chosen);
      if IsLocked(cat[i]) && cat[i].key !in ensured { ensured := ensured + [cat[i].key]; }
    }
    assert cat[..|cat|] == cat;
    ordered := Without(ensured, ACTIONS);
    if ACTIONS in ensured { ordered := ordered + [ACTIONS]; }
  }

  lemma NoneLocked()
    ensures LockedKeys([]) == []
  {
  }

  lemma EnsureNext(cat: Catalogue, i: nat, chosen: seq<Key>)
    requires i < |cat|
    ensures IncludeAll(chosen, LockedKeys(cat[..i + 1]))
            == if IsLocked(cat[i]) then Include(IncludeAll(chosen, LockedKeys(cat[..i])), cat[i].key)
               else IncludeAll(chosen, LockedKeys(cat[..i]))
  {
    hide LockedKeys;
    assert cat[..i + 1] == cat[..i] + [cat[i]];
    LockedKeysAppend(cat[..i], cat[i]);
    var before, more := LockedKeys(cat[..i]), if IsLocked(cat[i]) then [cat[i].key] else [];
    IncludeAllAppend(chosen, before, more);
    assert [cat[i].key][1..] == [];
  }

  lemma LockedKeysAppend(cat: Catalogue, c: Column)
    ensures LockedKeys(cat + [c]) == LockedKeys(cat) + if IsLocked(c) then [c.key] else []
  {
    FilterAppend(cat, [c], IsLocked);
    assert [c][1..] == [];
    var a, b := Filter(cat, IsLocked), Filter([c], IsLocked);
    assert Keys(a + b) == Keys(a) + Keys(b);
  }

  lemma KeyOfColumn(cols: seq<Column>, k: Key)
    ensures k in Keys(cols) <==> exists c :: c in cols && c.key == k
  {
    if k in Keys(cols) {
      var i :| 0 <= i < |cols| && Keys(cols)[i] == k;
      assert cols[i] in cols;
    }
    if c :| c in cols && c.key == k {
      var i :| 0 <= i < |cols| && cols[i] == c;
      assert Keys(cols)[i] == k;
    }
  }

  lemma LockedKeyMeans(cat: Catalogue, k: Key)
    ensures k in LockedKeys(cat) <==> exists c :: c in cat && IsLocked(c) && c.key == k
    ensures k in LockedKeys(cat) ==> k in Keys(cat)
  {
    hide Keys;
    KeyOfColumn(Filter(cat, IsLocked), k);
    KeyOfColumn(cat, k);
  }

  // ------------------------------------------------------------- the normal form

  /** A layout that needs no correction: only declared columns, every locked one, and "actions"
      once, at the end, if it is declared. */
  ghost predicate Normal(cat: Catalogue, keys: seq<Key>) {
    && (forall k :: k in keys ==> k in Keys(cat))
    && (forall k :: k in LockedKeys(cat) ==> k in keys)
    && forall i :: 0 <= i < |keys| - 1 ==> keys[i] != ACTIONS
  }

  lemma {:induction false} IncludeAllPresent(s: seq<Key>, more: seq<Key>)
    requires forall k :: k in more ==> k in s
    ensures IncludeAll(s, more) == s
    decreases |more|
  {
    if more != [] {
      assert more[0] in more;
      IncludeAllPresent(s, more[1..]);
    }
  }

  lemma ActionsLastMembers(keys: seq<Key>)
    ensures forall k :: k in ActionsLast(keys) <==> k in keys
    ensures forall i :: 0 <= i < |ActionsLast(keys)| - 1 ==> ActionsLast(keys)[i] != ACTIONS
  {
    var front := Without(keys, ACTIONS);
    forall i | 0 <= i < |front| ensures front[i] != ACTIONS { assert front[i] in front; }
  }

  lemma NormalIsFixed(cat: Catalogue, keys: seq<Key>)
    requires Normal(cat, keys)
    ensures Layout(cat, keys) == keys
  {
    FilterAll(keys, k => k in Keys(cat));
    IncludeAllPresent(keys, LockedKeys(cat));
    if ACTIONS in keys {
      var front, last := keys[..|keys| - 1], keys[|keys| - 1];
      assert forall i :: 0 <= i < |front| ==> front[i] == keys[i];
      assert keys == front + [last];
      assert keys == front + [ACTIONS] + [];
      WithoutMiddle(front, [], ACTIONS);
      assert front + [] == front;
    } else {
      WithoutAbsent(keys, ACTIONS);
      assert keys + [] == keys;
    }
  }

  /** What is shown: exactly the remembered columns that are declared, in their order, then the
      locked ones that were missing, with "actions" last. */
  lemma LayoutShows(cat: Catalogue, chosen: seq<Key>)
    ensures Normal(cat, Layout(cat, chosen))
    ensures forall k :: k in Layout(cat, chosen) <==> (k in chosen && k in Keys(cat)) || k in LockedKeys(cat)
    ensures forall c :: c in cat && (c.locked || c.key == ACTIONS) ==> c.key in Layout(cat, chosen)
    ensures forall k :: k in Layout(cat, chosen) ==>
              k in chosen || exists c :: c in cat && (c.locked || c.key == ACTIONS) && c.key == k
    ensures Without(Filter(chosen, k => k in Keys(cat)), ACTIONS) <= Layout(cat, chosen)
    ensures Distinct(chosen) ==> Distinct(Layout(cat, chosen))
  {
    var kept := Filter(chosen, k => k in Keys(cat));
    var ensured := IncludeAll(kept, LockedKeys(cat));
    ActionsLastMembers(ensured);
    IncludeAllMembers(kept, LockedKeys(cat));
    forall k | k in LockedKeys(cat) ensures k in Keys(cat) && exists c :: c in cat && IsLocked(c) && c.key == k {
      LockedKeyMeans(cat, k);
    }
    forall c | c in cat && IsLocked(c) ensures c.key in LockedKeys(cat) { LockedKeyMeans(cat, c.key); }
    ChosenFirst(kept, ensured);
    if Distinct(chosen) { FilterDistinct(chosen, k => k in Keys(cat)); }
    if Distinct(kept) { LayoutDistinct(kept, LockedKeys(cat)); }
  }

  lemma ChosenFirst(kept: seq<Key>, ensured: seq<Key>)
    requires kept <= ensured
    ensures Without(kept, ACTIONS) <= ActionsLast(ensured)
  {
    assert ensured == kept + ensured[|kept|..];
    WithoutAppend(kept, ensured[|kept|..], ACTIONS);
  }

  lemma LayoutDistinct(kept: seq<Key>, locked: seq<Key>)
    requires Distinct(kept)
    ensures Distinct(ActionsLast(IncludeAll(kept, locked)))
  {
    var ensured := IncludeAll(kept, locked);
    IncludeAllDistinct(kept, locked);
    WithoutDistinct(ensured, ACTIONS);
    DistinctAppend(Without(ensured, ACTIONS), if ACTIONS in ensured then [ACTIONS] else []);
  }

  /** Without a remembered layout, the columns not hidden and the locked ones are shown. */
  lemma DefaultLayoutShows(cat: Catalogue, k: Key)
    ensures k in Layout(cat, DefaultKeys(cat)) <==>
            exists c :: c in cat && c.key == k && (!c.hidden || c.locked || k == ACTIONS)
  {
    LayoutShows(cat, DefaultKeys(cat));
    hide Layout, Keys, Normal, Distinct, Without;
    KeyOfColumn(cat, k);
    KeyOfColumn(Filter(cat, IsLocked), k);
    KeyOfColumn(Filter(cat, (c: Column) => !c.hidden || IsLocked(c)), k);
  }

  /** A layout is left alone exactly when it is normal; what is shown always is. */
  lemma LayoutIsNormalForm(cat: Catalogue, chosen: seq<Key>)
    ensures Layout(cat, chosen) == chosen <==> Normal(cat, chosen)
    ensures Layout(cat, Layout(cat, chosen)) == Layout(cat, chosen)
  {
    LayoutShows(cat, chosen);
    NormalIsFixed(cat, Layout(cat, chosen));
    if Normal(cat, chosen) { NormalIsFixed(cat, chosen); }
  }

  // ------------------------------------------------------------ the column chooser

  function Shown(visible: seq<Key>): seq<Key> {
    Without(visible, ACTIONS)
  }

  function Commit(visible: seq<Key>, keys: seq<Key>): seq<Key> {
    if ACTIONS in visible then keys + [ACTIONS] else keys
  }

  function IndexOf(keys: seq<Key>, k: Key): nat
    requires k in keys
    ensures IndexOf(keys, k) < |keys| && keys[IndexOf(keys, k)] == k && k !in keys[..IndexOf(keys, k)]
  {
    if keys[0] == k then 0
    else
      assert keys == [keys[0]] + keys[1..];
      var i := IndexOf(keys[1..], k);
      assert keys[..i + 1] == [keys[0]] + keys[1..][..i];
      i + 1
  }

  /** Drop `from` on `to`. */
  function Move(keys: seq<Key>, from: Key, to: Key): seq<Key>
    requires to in keys
  {
    if from == to then keys
    else
      var next := Without(keys, from);
      var i := IndexOf(next, to);
      next[..i] + [from] + next[i..]
  }

  lemma TakeOut(keys: seq<Key>, k: Key) returns (a: seq<Key>, b: seq<Key>)
    requires Distinct(keys) && k in keys
    ensures keys == a + [k] + b && k !in a && k !in b && Without(keys, k) == a + b
    ensures Distinct(a + b)
  {
    var i := IndexOf(keys, k);
    a, b := keys[..i], keys[i + 1..];
    assert keys == a + [k] + b;
    DistinctParts(a + [k], b);
    assert k in a + [k];
    WithoutMiddle(a, b, k);
  }

  lemma PutBack(next: seq<Key>, i: nat, k: Key)
    requires Distinct(next) && i <= |next| && k !in next
    ensures Distinct(next[..i] + [k] + next[i..])
    ensures multiset(next[..i] + [k] + next[i..]) == multiset(next) + multiset{k}
    ensures Without(next[..i] + [k] + next[i..], k) == next
  {
    assert next == next[..i] + next[i..];
    WithoutMiddle(next[..i], next[i..], k);
    DistinctParts(next[..i], next[i..]);
    DistinctAppend(next[..i], [k]);
    DistinctAppend(next[..i] + [k], next[i..]);
  }

  /** A drag is a permutation that puts the moved column immediately before its target and leaves
      the others in their order. */
  lemma MovePlaces(keys: seq<Key>, from: Key, to: Key)
    requires Distinct(keys) && from in keys && to in keys && from != to
    ensures var r := Move(keys, from, to);
            && multiset(r) == multiset(keys) && Distinct(r)
            && Without(r, from) == Without(keys, from)
            && exists i :: 0 <= i < |r| - 1 && r[i] == from && r[i + 1] == to
  {
    hide Without, Distinct, IndexOf;
    var next := Without(keys, from);
    var i := IndexOf(next, to);
    TakeOutCounts(keys, from);
    PutBack(next, i, from);
    var r := Move(keys, from, to);
    assert r[i] == from && r[i + 1] == to;
  }

  lemma TakeOutCounts(keys: seq<Key>, k: Key)
    requires Distinct(keys) && k in keys
    ensures Distinct(Without(keys, k)) && k !in Without(keys, k)
    ensures multiset(keys) == multiset(Without(keys, k)) + multiset{k}
  {
    hide Without, Distinct;
    var a, b := TakeOut(keys, k);
    assert multiset(keys) == multiset(a) + multiset{k} + multiset(b);
    assert multiset(a + b) == multiset(a) + multiset(b);
  }

  /** Drops the chooser can perform, one after another. */
  function Moves(keys: seq<Key>, drops: seq<(Key, Key)>): seq<Key>
    decreases |drops|
  {
    if drops == [] || drops[0].1 !in keys then keys else Moves(Move(keys, drops[0].0, drops[0].1), drops[1..])
  }

  lemma {:induction false} MovesAppend(keys: seq<Key>, drops: seq<(Key, Key)>, last: (Key, Key))
    requires Distinct(keys)
    requires forall d :: d in drops ==> d.0 in keys && d.1 in keys
    requires last.0 in keys && last.1 in keys
    ensures multiset(Moves(keys, drops)) == multiset(keys) && Distinct(Moves(keys, drops))
    ensures last.1 in Moves(keys, drops)
    ensures Moves(keys, drops + [last]) == Move(Moves(keys, drops), last.0, last.1)
    decreases |drops|
  {
    hide Move, Distinct;
    if drops == [] {
      assert [last][1..] == [];
    } else {
      var d := drops[0];
      assert d in drops;
      assert (drops + [last])[1..] == drops[1..] + [last];
      OneMove(keys, d.0, d.1);
      MovesAppend(Move(keys, d.0, d.1), drops[1..], last);
    }
    SameElements(Moves(keys, drops), keys);
  }

  lemma OneMove(keys: seq<Key>, from: Key, to: Key)
    requires Distinct(keys) && from in keys && to in keys
    ensures multiset(Move(keys, from, to)) == multiset(keys) && Distinct(Move(keys, from, to))
    ensures forall k :: k in Move(keys, from, to) <==> k in keys
  {
    if from != to { MovePlaces(keys, from, to); }
    SameElements(Move(keys, from, to), keys);
  }

  /** Dropping a column on the first of a block puts it in front of the block. */
  lemma MoveBeforeBlock(keys: seq<Key>, a: seq<Key>, block: seq<Key>, b: seq<Key>, from: Key)
    returns (a': seq<Key>, b': seq<Key>)
    requires Distinct(keys) && keys == a + block + b && block != [] && from in keys && from !in block
    ensures Move(keys, from, block[0]) == a' + ([from] + block) + b'
  {
    hide Distinct, Without, IndexOf;
    a', b' := Without(a, from), Without(b, from);
    var next := a' + block + b';
    WithoutAppend(a + block, b, from);
    WithoutAppend(a, block, from);
    WithoutAbsent(block, from);
    WithoutDistinct(keys, from);
    assert Without(keys, from) == next;
    IndexOfStart(a', block, b');
    assert next[..|a'|] == a' && next[|a'|..] == block + b';
    assert Move(keys, from, block[0]) == a' + ([from] + block) + b';
  }

  lemma IndexOfStart(a: seq<Key>, block: seq<Key>, b: seq<Key>)
    requires Distinct(a + block + b) && block != []
    ensures IndexOf(a + block + b, block[0]) == |a|
  {
    assert (a + block + b)[|a|] == block[0];
  }

  lemma NoMoves(keys: seq<Key>)
    ensures Moves(keys, []) == keys
  {
  }

  ghost predicate HasBlock(keys: seq<Key>, block: seq<Key>) {
    exists a, b :: keys == a + block + b
  }

  lemma OneIsABlock(keys: seq<Key>, k: Key)
    requires Distinct(keys) && k in keys
    ensures HasBlock(keys, [k])
  {
    var a, b := TakeOut(keys, k);
  }

  /** Dropping the column before a block on the block's first makes the block longer. */
  lemma GrowBlock(now: seq<Key>, goal: seq<Key>, k: nat)
    requires Distinct(now) && Distinct(goal) && k < |goal| - 1 && goal[k] in now && goal[k + 1] in now
    requires HasBlock(now, goal[k + 1..])
    ensures HasBlock(Move(now, goal[k], goal[k + 1]), goal[k..])
  {
    var a, b :| now == a + goal[k + 1..] + b;
    assert goal[k] !in goal[k + 1..];
    hide Distinct, Move;
    var a', b' := MoveBeforeBlock(now, a, goal[k + 1..], b, goal[k]);
    assert [goal[k]] + goal[k + 1..] == goal[k..];
  }

  /** Although a drop can only place a column before another one, every arrangement can be reached
      by drops. */
  lemma {:induction false} ReachTail(keys: seq<Key>, goal: seq<Key>, k: nat) returns (drops: seq<(Key, Key)>)
    requires Distinct(keys) && Distinct(goal) && multiset(keys) == multiset(goal) && k < |goal|
    ensures forall d :: d in drops ==> d.0 in keys && d.1 in keys
    ensures multiset(Moves(keys, drops)) == multiset(keys) && Distinct(Moves(keys, drops))
    ensures HasBlock(Moves(keys, drops), goal[k..])
    decreases |goal| - k
  {
    hide Moves, Move, Without, Distinct, HasBlock;
    SameElements(keys, goal);
    assert goal[k] in goal;
    if k == |goal| - 1 {
      drops := [];
      NoMoves(keys);
      OneIsABlock(keys, goal[k]);
      assert goal[k..] == [goal[k]];
    } else {
      var before := ReachTail(keys, goal, k + 1);
      var now := Moves(keys, before);
      var last := (goal[k], goal[k + 1]);
      drops := before + [last];
      assert goal[k + 1] in goal;
      MovesAppend(keys, before, last);
      SameElements(now, keys);
      GrowBlock(now, goal, k);
      OneMove(now, last.0, last.1);
    }
  }

  lemma EveryOrderIsReachable(keys: seq<Key>, goal: seq<Key>) returns (drops: seq<(Key, Key)>)
    requires Distinct(keys) && Distinct(goal) && multiset(keys) == multiset(goal)
    ensures forall d :: d in drops ==> d.0 in keys && d.1 in keys
    ensures Moves(keys, drops) == goal
  {
    SameElements(keys, goal);
    if goal == [] {
      drops := [];
    } else {
      drops := ReachTail(keys, goal, 0);
      var end := Moves(keys, drops);
      assert HasBlock(end, goal[0..]);
      var a, b :| end == a + goal[0..] + b;
      SameElements(end, keys);
      assert |a| + |b| == 0;
      assert a == [] && b == [] && goal[0..] == goal;
    }
  }

  // ------------------------------------------------ what the chooser commits is shown

  datatype Choice = Hide(key: Key) | Add(key: Key) | Drop(from: Key, to: Key)

  /** What the chooser offers over the visible columns: hide an unlocked one, add a declared one
      that is not shown, drop one on another. */
  ghost predicate Offered(cat: Catalogue, visible: seq<Key>, c: Choice) {
    match c
    case Hide(k) => k in Shown(visible) && k !in LockedKeys(cat)
    case Add(k) => k in Keys(cat) && k !in visible && k != ACTIONS
    case Drop(from, to) => from in Shown(visible) && to in Shown(visible)
  }

  function Choose(visible: seq<Key>, c: Choice): seq<Key> {
    var shown := Shown(visible);
    match c
    case Hide(k) => Commit(visible, Without(shown, k))
    case Add(k) => Commit(visible, shown + [k])
    case Drop(from, to) => if to in shown then Commit(visible, Move(shown, from, to)) else visible
  }

  lemma CommitNormal(cat: Catalogue, visible: seq<Key>, keys: seq<Key>)
    requires Normal(cat, visible)
    requires forall k :: k in keys ==> k in Keys(cat) && k != ACTIONS
    requires forall k :: k in LockedKeys(cat) && k != ACTIONS ==> k in keys
    ensures Normal(cat, Commit(visible, keys))
  {
    forall i | 0 <= i < |keys| ensures keys[i] != ACTIONS { assert keys[i] in keys; }
  }

  /** The layout a choice commits is the layout shown, whatever was remembered before. */
  lemma ChosenIsShown(cat: Catalogue, remembered: seq<Key>, c: Choice)
    requires Distinct(remembered) && Offered(cat, Layout(cat, remembered), c)
    ensures var visible := Layout(cat, remembered);
            Layout(cat, Choose(visible, c)) == Choose(visible, c) && Distinct(Choose(visible, c))
  {
    var visible := Layout(cat, remembered);
    var shown := Shown(visible);
    LayoutShows(cat, remembered);
    WithoutDistinct(visible, ACTIONS);
    match c {
      case Hide(k) =>
        WithoutDistinct(shown, k);
        CommitFixed(cat, visible, Without(shown, k), k);
      case Add(k) =>
        DistinctAppend(shown, [k]);
        CommitFixed(cat, visible, shown + [k], k);
      case Drop(from, to) =>
        if from != to {
          MovePlaces(shown, from, to);
          SameElements(Move(shown, from, to), shown);
        }
        CommitFixed(cat, visible, Move(shown, from, to), from);
    }
  }

  lemma CommitFixed(cat: Catalogue, visible: seq<Key>, keys: seq<Key>, changed: Key)
    requires Normal(cat, visible) && changed != ACTIONS
    requires changed in Keys(cat) || changed in visible
    requires changed in LockedKeys(cat) ==> changed in keys
    requires forall k :: k != changed ==> (k in keys <==> k in Shown(visible))
    requires Distinct(keys)
    ensures Layout(cat, Commit(visible, keys)) == Commit(visible, keys) && Distinct(Commit(visible, keys))
  {
    CommitNormal(cat, visible, keys);
    NormalIsFixed(cat, Commit(visible, keys));
    DistinctAppend(keys, [ACTIONS]);
  }

  function ChooseAll(visible: seq<Key>, choices: seq<Choice>): seq<Key>
    decreases |choices|
  {
    if choices == [] then visible else ChooseAll(Choose(visible, choices[0]), choices[1..])
  }

  ghost predicate AllOffered(cat: Catalogue, visible: seq<Key>, choices: seq<Choice>)
    decreases |choices|
  {
    choices == [] || (Offered(cat, visible, choices[0]) && AllOffered(cat, Choose(visible, choices[0]), choices[1..]))
  }

  /** Over any run of choices the remembered layout is shown exactly as it was committed. */
  lemma {:induction false} EveryChoiceIsShown(cat: Catalogue, visible: seq<Key>, choices: seq<Choice>)
    requires Distinct(visible) && Layout(cat, visible) == visible && AllOffered(cat, visible, choices)
    ensures Layout(cat, ChooseAll(visible, choices)) == ChooseAll(visible, choices)
    ensures Distinct(ChooseAll(visible, choices))
    decreases |choices|
  {
    if choices != [] {
      ChosenIsShown(cat, visible, choices[0]);
      EveryChoiceIsShown(cat, Choose(visible, choices[0]), choices[1..]);
    }
  }

  // ----------------------------------------------------------------------- saved views

  datatype View = View(id: nat, columns: seq<Key>)

  /** What the table remembers of its layout. */
  datatype Prefs = Prefs(columns: Option<seq<Key>>, views: seq<View>, activeView: Option<nat>)

  function ShownBy(cat: Catalogue, p: Prefs): seq<Key> {
    Layout(cat, if p.columns.Some? then p.columns.value else DefaultKeys(cat))
  }

  /** `Reset` is the chooser's button and the "All items" tab. A new view's id is unused. */
  datatype Act = Chose(choice: Choice) | SaveView(id: nat) | ApplyView(id: nat) | DeleteView(id: nat) | Reset

  ghost predicate HasView(views: seq<View>, id: nat) {
    exists i :: 0 <= i < |views| && views[i].id == id
  }

  ghost predicate Allowed(cat: Catalogue, p: Prefs, a: Act) {
    match a
    case Chose(c) => Offered(cat, ShownBy(cat, p), c)
    case SaveView(id) => !HasView(p.views, id)
    case ApplyView(id) => HasView(p.views, id)
    case DeleteView(id) => HasView(p.views, id)
    case Reset => true
  }

  /** The columns of the view with this id. */
  function ColumnsOf(views: seq<View>, id: nat): seq<Key> {
    if views == [] then [] else if views[0].id == id then views[0].columns else ColumnsOf(views[1..], id)
  }

  function DropView(views: seq<View>, id: nat): seq<View> {
    if views == [] then [] else (if views[0].id == id then [] else [views[0]]) + DropView(views[1..], id)
  }

  function Do(cat: Catalogue, p: Prefs, a: Act): Prefs {
    match a
    case Chose(c) =>
      if c.Drop? && c.from == c.to then p
      else p.(columns := Some(Choose(ShownBy(cat, p), c)), activeView := None)
    case SaveView(id) => p.(views := p.views + [View(id, ShownBy(cat, p))], activeView := Some(id))
    case ApplyView(id) => p.(columns := Some(ColumnsOf(p.views, id)), activeView := Some(id))
    case DeleteView(id) =>
      p.(views := DropView(p.views, id), activeView := if p.activeView == Some(id) then None else p.activeView)
    case Reset => p.(columns := None, activeView := None)
  }

  /** `after` is `before` without its one `k`, everything else in its place and order. */
  ghost predicate Removed(before: seq<Key>, k: Key, after: seq<Key>) {
    k !in after && exists a, b :: before == a + [k] + b && after == a + b
  }

  /** Only "actions" stands after `k`. */
  ghost predicate LastData(keys: seq<Key>, k: Key) {
    exists i :: 0 <= i < |keys| && keys[i] == k && forall j :: i < j < |keys| ==> keys[j] == ACTIONS
  }

  ghost predicate StandsBefore(keys: seq<Key>, from: Key, to: Key) {
    exists i :: 0 <= i < |keys| - 1 && keys[i] == from && keys[i + 1] == to
  }

  /** What a choice does to the columns on screen: hiding takes out the one column, adding puts it after the other
      data columns, and a drop puts the column immediately before its target; the others stand as they did. */
  ghost predicate Effect(before: seq<Key>, c: Choice, after: seq<Key>) {
    match c
    case Hide(k) => Removed(before, k, after)
    case Add(k) => Removed(after, k, before) && LastData(after, k)
    case Drop(from, to) =>
      if from == to then after == before
      else StandsBefore(after, from, to) && exists rest :: Removed(before, from, rest) && Removed(after, from, rest)
  }

  function ActionsOf(visible: seq<Key>): seq<Key> {
    if ACTIONS in visible then [ACTIONS] else []
  }

  lemma NormalParts(cat: Catalogue, visible: seq<Key>)
    requires Normal(cat, visible) && Distinct(visible)
    ensures visible == Shown(visible) + ActionsOf(visible)
    ensures Distinct(Shown(visible)) && ACTIONS !in Shown(visible)
  {
    WithoutDistinct(visible, ACTIONS);
    if ACTIONS in visible {
      var front := visible[..|visible| - 1];
      assert forall i :: 0 <= i < |front| ==> front[i] == visible[i];
      assert visible == front + [ACTIONS] + [];
      WithoutMiddle(front, [], ACTIONS);
      assert front + [] == front;
    } else {
      WithoutAbsent(visible, ACTIONS);
      assert visible + [] == visible;
    }
  }

  lemma HideRemoves(visible: seq<Key>, k: Key)
    requires visible == Shown(visible) + ActionsOf(visible) && Distinct(Shown(visible))
    requires k in Shown(visible) && k != ACTIONS
    ensures Removed(visible, k, Commit(visible, Without(Shown(visible), k)))
  {
    hide Shown, Without, Distinct;
    var a, b := TakeOut(Shown(visible), k);
    assert Removed(Shown(visible), k, a + b);
    RemovedMore(Shown(visible), k, a + b, ActionsOf(visible));
  }

  lemma AddPutsLast(visible: seq<Key>, k: Key)
    requires visible == Shown(visible) + ActionsOf(visible)
    requires k !in visible && k != ACTIONS
    ensures Removed(Commit(visible, Shown(visible) + [k]), k, visible)
    ensures LastData(Commit(visible, Shown(visible) + [k]), k)
  {
    hide Shown;
    var after := Commit(visible, Shown(visible) + [k]);
    assert after == Shown(visible) + [k] + ActionsOf(visible);
    assert after[|Shown(visible)|] == k;
  }

  lemma RemovedMore(before: seq<Key>, k: Key, after: seq<Key>, tail: seq<Key>)
    requires Removed(before, k, after) && k !in tail
    ensures Removed(before + tail, k, after + tail)
  {
    var a, b :| before == a + [k] + b && after == a + b;
    assert before + tail == a + [k] + (b + tail) && after + tail == a + (b + tail);
  }

  lemma StandsBeforeMore(keys: seq<Key>, from: Key, to: Key, tail: seq<Key>)
    requires StandsBefore(keys, from, to)
    ensures StandsBefore(keys + tail, from, to)
  {
    var i :| 0 <= i < |keys| - 1 && keys[i] == from && keys[i + 1] == to;
    assert (keys + tail)[i] == from && (keys + tail)[i + 1] == to;
  }

  lemma MoveRemoves(keys: seq<Key>, from: Key, to: Key) returns (rest: seq<Key>)
    requires Distinct(keys) && from in keys && to in keys && from != to
    ensures var r := Move(keys, from, to);
            StandsBefore(r, from, to) && Removed(keys, from, rest) && Removed(r, from, rest)
  {
    MovePlaces(keys, from, to);
    var r := Move(keys, from, to);
    assert StandsBefore(r, from, to);
    hide Without, Distinct, Move, StandsBefore;
    SameElements(r, keys);
    var a, b := TakeOut(keys, from);
    var c, d := TakeOut(r, from);
    rest := Without(keys, from);
  }

  lemma DropPlaces(visible: seq<Key>, from: Key, to: Key)
    requires visible == Shown(visible) + ActionsOf(visible) && Distinct(Shown(visible))
    requires from in Shown(visible) && to in Shown(visible) && from != to && from != ACTIONS
    ensures var after := Commit(visible, Move(Shown(visible), from, to));
            StandsBefore(after, from, to) && exists rest :: Removed(visible, from, rest) && Removed(after, from, rest)
  {
    var shown, tail := Shown(visible), ActionsOf(visible);
    CommitTail(visible, Move(shown, from, to));
    hide Shown, Distinct, Move, Commit, Removed, StandsBefore;
    var rest := MoveRemoves(shown, from, to);
    var moved := Move(shown, from, to);
    StandsBeforeMore(moved, from, to, tail);
    RemovedMore(shown, from, rest, tail);
    RemovedMore(moved, from, rest, tail);
  }

  lemma CommitTail(visible: seq<Key>, keys: seq<Key>)
    ensures Commit(visible, keys) == keys + ActionsOf(visible)
  {
  }

  lemma ShownMember(visible: seq<Key>, k: Key)
    ensures k in Shown(visible) <==> k in visible && k != ACTIONS
  {
  }

  lemma ChoiceTakesEffect(cat: Catalogue, visible: seq<Key>, c: Choice)
    requires Normal(cat, visible) && Distinct(visible) && Offered(cat, visible, c)
    ensures Effect(visible, c, Choose(visible, c))
  {
    NormalParts(cat, visible);
    hide Normal, Distinct, Shown, Removed, LastData, StandsBefore, Commit, Move;
    match c
    case Hide(k) =>
      ShownMember(visible, k);
      HideRemoves(visible, k);
    case Add(k) => AddPutsLast(visible, k);
    case Drop(from, to) =>
      ShownMember(visible, from);
      if from == to { SameCommit(visible, from); } else { DropPlaces(visible, from, to); }
  }

  lemma SameCommit(visible: seq<Key>, k: Key)
    requires visible == Shown(visible) + ActionsOf(visible) && k in Shown(visible)
    ensures Commit(visible, Move(Shown(visible), k, k)) == visible
  {
    hide Shown;
  }

  /** What was remembered shows no column twice. */
  ghost predicate NoneTwice(cat: Catalogue, p: Prefs) {
    Distinct(if p.columns.Some? then p.columns.value else DefaultKeys(cat))
  }

  lemma ChoosingTakesEffect(cat: Catalogue, p: Prefs, c: Choice)
    requires NoneTwice(cat, p) && Allowed(cat, p, Chose(c))
    ensures Effect(ShownBy(cat, p), c, ShownBy(cat, Do(cat, p, Chose(c))))
    ensures NoneTwice(cat, Do(cat, p, Chose(c)))
  {
    hide Layout, Choose, Offered, Removed, LastData, StandsBefore, Normal;
    var remembered := if p.columns.Some? then p.columns.value else DefaultKeys(cat);
    if !c.Drop? || c.from != c.to {
      hide Effect, Distinct;
      LayoutShows(cat, remembered);
      ChoiceTakesEffect(cat, Layout(cat, remembered), c);
      ChosenIsShown(cat, remembered, c);
    }
  }

  class Preferences {
    const cat: Catalogue
    var columns: Option<seq<Key>>
    var views: seq<View>
    var activeView: Option<nat>

    constructor (cat: Catalogue)
      ensures this.cat == cat && Now() == Prefs(None, [], None)
    {
      this.cat := cat;
      columns, views, activeView := None, [], None;
    }

    ghost function Now(): Prefs
      reads this
    {
      Prefs(columns, views, activeView)
    }

    method Choosing(choice: Choice)
      modifies this
      ensures Now() == Do(cat, old(Now()), Chose(choice))
      ensures NoneTwice(cat, old(Now())) && Allowed(cat, old(Now()), Chose(choice)) ==>
                Effect(ShownBy(cat, old(Now())), choice, ShownBy(cat, Now())) && NoneTwice(cat, Now())
    {
      if NoneTwice(cat, Now()) && Allowed(cat, Now(), Chose(choice)) { ChoosingTakesEffect(cat, Now(), choice); }
      hide Effect, NoneTwice, Allowed;
      if choice.Drop? && choice.from == choice.to { return; }
      var visible := Visible(cat, columns);
      columns, activeView := Some(Choose(visible, choice)), None;
    }

    method Save(id: nat)
      modifies this
      ensures Now() == Do(cat, old(Now()), SaveView(id))
      ensures views == old(views) + [View(id, ShownBy(cat, old(Now())))] && activeView == Some(id)
      ensures ShownBy(cat, Now()) == ShownBy(cat, old(Now()))
    {
      var visible := Visible(cat, columns);
      views, activeView := views + [View(id, visible)], Some(id);
    }

    /** A view's columns come on screen as they were saved, and "All items" brings the defaults;
        the views stay as they are. */
    method Apply(id: Option<nat>)
      modifies this
      ensures Now() == Do(cat, old(Now()), if id.Some? then ApplyView(id.value) else Reset)
      ensures views == old(views) && activeView == id
      ensures id == None ==> ShownBy(cat, Now()) == Layout(cat, DefaultKeys(cat))
      ensures ViewsHold(cat, old(Now())) && id.Some? && HasView(views, id.value) ==>
                ViewsHold(cat, Now()) && ShownBy(cat, Now()) == ColumnsOf(views, id.value)
    {
      if id.Some? && ViewsHold(cat, Now()) && HasView(views, id.value) {
        ActKeepsViews(cat, Now(), ApplyView(id.value));
      }
      if id == None {
        columns, activeView := None, None;
      } else {
        columns, activeView := Some(ColumnsOf(views, id.value)), id;
      }
    }

    /** The view is gone and no longer active; the other views, their order and what is on screen are
        unchanged. */
    method Delete(id: nat)
      modifies this
      ensures Now() == Do(cat, old(Now()), DeleteView(id))
      ensures Deleted(old(views), views, id)
      ensures activeView == if old(activeView) == Some(id) then None else old(activeView)
      ensures ShownBy(cat, Now()) == ShownBy(cat, old(Now()))
    {
      hide Deleted, Layout, HasView;
      DropDeletes(views, id);
      views := DropView(views, id);
      if activeView == Some(id) { activeView := None; }
    }
  }

  /** No view has the id any more, and the others are as they were, in their order. */
  ghost predicate Deleted(before: seq<View>, after: seq<View>, id: nat) {
    && !HasView(after, id)
    && after == Filter(before, (v: View) => v.id != id)
    && forall other :: other != id ==>
         (HasView(after, other) <==> HasView(before, other)) && ColumnsOf(after, other) == ColumnsOf(before, other)
  }

  lemma {:induction false} DropIsFilter(views: seq<View>, id: nat)
    ensures DropView(views, id) == Filter(views, (v: View) => v.id != id)
  {
    if views != [] { DropIsFilter(views[1..], id); }
  }

  lemma DropDeletes(views: seq<View>, id: nat)
    ensures Deleted(views, DropView(views, id), id)
  {
    DropIsFilter(views, id);
    OtherViewDropped(views, id, id);
    hide HasView, Filter, DropView;
    forall other | other != id
      ensures HasView(DropView(views, id), other) <==> HasView(views, other)
      ensures ColumnsOf(DropView(views, id), other) == ColumnsOf(views, other)
    {
      OtherViewDropped(views, id, other);
    }
  }

  function DoAll(cat: Catalogue, p: Prefs, acts: seq<Act>): Prefs
    decreases |acts|
  {
    if acts == [] then p else DoAll(cat, Do(cat, p, acts[0]), acts[1..])
  }

  ghost predicate AllAllowed(cat: Catalogue, p: Prefs, acts: seq<Act>)
    decreases |acts|
  {
    acts == [] || (Allowed(cat, p, acts[0]) && AllAllowed(cat, Do(cat, p, acts[0]), acts[1..]))
  }

  /** Every view holds columns that are shown as they are, and the active view's are on screen. */
  ghost predicate ViewsHold(cat: Catalogue, p: Prefs) {
    && (forall v :: v in p.views ==> Layout(cat, v.columns) == v.columns)
    && (p.activeView.Some? ==>
          HasView(p.views, p.activeView.value) && ShownBy(cat, p) == ColumnsOf(p.views, p.activeView.value))
  }

  lemma {:induction false} ColumnsOfView(views: seq<View>, id: nat)
    requires HasView(views, id)
    ensures View(id, ColumnsOf(views, id)) in views
  {
    if views[0].id != id {
      var i :| 0 <= i < |views| && views[i].id == id;
      assert views[1..][i - 1].id == id;
      ColumnsOfView(views[1..], id);
    }
  }

  /** Adding a view under another id, or dropping one, leaves a view as it was. */
  lemma {:induction false} OtherViewAdded(views: seq<View>, v: View, id: nat)
    ensures v.id != id ==> ColumnsOf(views + [v], id) == ColumnsOf(views, id)
    ensures !HasView(views, v.id) ==> ColumnsOf(views + [v], v.id) == v.columns
    ensures HasView(views + [v], id) <==> HasView(views, id) || v.id == id
  {
    var more := views + [v];
    assert more[|views|] == v && forall i :: 0 <= i < |views| ==> more[i] == views[i];
    if views != [] {
      assert more[1..] == views[1..] + [v];
      assert HasView(views[1..], v.id) ==> HasView(views, v.id) by { HasViewTail(views, v.id); }
      OtherViewAdded(views[1..], v, id);
    }
  }

  lemma HasViewTail(views: seq<View>, id: nat)
    requires views != []
    ensures HasView(views, id) <==> views[0].id == id || HasView(views[1..], id)
  {
    if views[0].id != id && HasView(views, id) {
      var i :| 0 <= i < |views| && views[i].id == id;
      assert views[1..][i - 1].id == id;
    }
    if HasView(views[1..], id) {
      var i :| 0 <= i < |views[1..]| && views[1..][i].id == id;
      assert views[i + 1].id == id;
    }
  }

  lemma {:induction false} OtherViewDropped(views: seq<View>, gone: nat, id: nat)
    ensures forall v :: v in DropView(views, gone) ==> v in views
    ensures id != gone ==> ColumnsOf(DropView(views, gone), id) == ColumnsOf(views, id)
    ensures HasView(DropView(views, gone), id) <==> HasView(views, id) && id != gone
  {
    if views != [] {
      var rest := DropView(views[1..], gone);
      OtherViewDropped(views[1..], gone, id);
      HasViewTail(views, id);
      if views[0].id != gone {
        assert DropView(views, gone) == [views[0]] + rest && ([views[0]] + rest)[1..] == rest;
        HasViewTail([views[0]] + rest, id);
      } else {
        assert DropView(views, gone) == rest;
      }
    }
  }

  lemma ActKeepsViews(cat: Catalogue, p: Prefs, a: Act)
    requires ViewsHold(cat, p) && Allowed(cat, p, a)
    ensures ViewsHold(cat, Do(cat, p, a))
  {
    hide Layout, Choose, Offered, HasView;
    match a
    case SaveView(id) =>
      var v := View(id, ShownBy(cat, p));
      OtherViewAdded(p.views, v, id);
      ShownIsFixed(cat, p);
    case ApplyView(id) => ColumnsOfView(p.views, id);
    case DeleteView(id) =>
      OtherViewDropped(p.views, id, if p.activeView.Some? then p.activeView.value else id);
    case Chose(_) =>
    case Reset =>
  }

  lemma ShownIsFixed(cat: Catalogue, p: Prefs)
    ensures Layout(cat, ShownBy(cat, p)) == ShownBy(cat, p)
  {
    LayoutIsNormalForm(cat, if p.columns.Some? then p.columns.value else DefaultKeys(cat));
  }

  /** Over any run of choices, saves, applications, deletions and resets: whenever a view is marked
      active, the columns shown are exactly that view's. */
  lemma {:induction false} ActiveViewIsShown(cat: Catalogue, p: Prefs, acts: seq<Act>)
    requires ViewsHold(cat, p) && AllAllowed(cat, p, acts)
    ensures ViewsHold(cat, DoAll(cat, p, acts))
    decreases |acts|
  {
    if acts != [] {
      ActKeepsViews(cat, p, acts[0]);
      ActiveViewIsShown(cat, Do(cat, p, acts[0]), acts[1..]);
    }
  }

  /** Whatever happens to the layout and the other views in between, a view applied shows the columns
      that were on screen when it was saved. */
  lemma ViewRoundTrip(cat: Catalogue, p: Prefs, id: nat, acts: seq<Act>)
    requires ViewsHold(cat, p) && Allowed(cat, p, SaveView(id))
    requires AllAllowed(cat, Do(cat, p, SaveView(id)), acts) && DeleteView(id) !in acts
    ensures var later := DoAll(cat, Do(cat, p, SaveView(id)), acts);
            && Allowed(cat, later, ApplyView(id))
            && ShownBy(cat, Do(cat, later, ApplyView(id))) == ShownBy(cat, p)
  {
    var saved := Do(cat, p, SaveView(id));
    var later := DoAll(cat, saved, acts);
    hide Layout, Choose, Offered, HasView;
    OtherViewAdded(p.views, View(id, ShownBy(cat, p)), id);
    ActKeepsViews(cat, p, SaveView(id));
    ActiveViewIsShown(cat, saved, acts);
    ViewStays(cat, saved, id, acts);
    ActKeepsViews(cat, later, ApplyView(id));
  }

  lemma {:induction false} ViewStays(cat: Catalogue, p: Prefs, id: nat, acts: seq<Act>)
    requires HasView(p.views, id) && AllAllowed(cat, p, acts) && DeleteView(id) !in acts
    ensures var later := DoAll(cat, p, acts);
            HasView(later.views, id) && ColumnsOf(later.views, id) == ColumnsOf(p.views, id)
    decreases |acts|
  {
    if acts != [] {
      hide Layout, Choose, Offered, HasView;
      var a := acts[0];
      assert acts == [a] + acts[1..];
      match a {
        case SaveView(other) => OtherViewAdded(p.views, View(other, ShownBy(cat, p)), id);
        case DeleteView(other) => OtherViewDropped(p.views, other, id);
        case Chose(_) =>
        case ApplyView(_) =>
        case Reset =>
      }
      ViewStays(cat, Do(cat, p, a), id, acts[1..]);
    }
  }

  // ---------------------------------------------------------- choices in every run

  /** No list of columns that can come on screen holds a column twice. */
  ghost predicate Sound(cat: Catalogue, p: Prefs) {
    && Distinct(DefaultKeys(cat)) && NoneTwice(cat, p)
    && forall v :: v in p.views ==> Distinct(v.columns)
  }

  lemma ActKeepsSound(cat: Catalogue, p: Prefs, a: Act)
    requires Sound(cat, p) && Allowed(cat, p, a)
    ensures Sound(cat, Do(cat, p, a))
  {
    hide Layout, Choose, Offered, HasView, Distinct, Keys, DefaultKeys;
    match a
    case Chose(c) => ChoosingTakesEffect(cat, p, c);
    case SaveView(id) => LayoutShows(cat, if p.columns.Some? then p.columns.value else DefaultKeys(cat));
    case ApplyView(id) => ColumnsOfView(p.views, id);
    case DeleteView(id) => OtherViewDropped(p.views, id, id);
    case Reset =>
  }

  lemma {:induction false} RunKeepsSound(cat: Catalogue, p: Prefs, acts: seq<Act>)
    requires Sound(cat, p) && AllAllowed(cat, p, acts)
    ensures Sound(cat, DoAll(cat, p, acts))
    decreases |acts|
  {
    if acts != [] {
      ActKeepsSound(cat, p, acts[0]);
      RunKeepsSound(cat, Do(cat, p, acts[0]), acts[1..]);
    }
  }

  /** The table declares no column twice. */
  ghost predicate DeclaredOnce(cols: Catalogue) {
    forall i, j :: 0 <= i < j < |cols| ==> cols[i].key != cols[j].key
  }

  lemma KeysDistinct(cols: Catalogue)
    requires DeclaredOnce(cols)
    ensures Distinct(Keys(cols))
  {
  }

  lemma {:induction false} FilterDeclaredOnce(cols: Catalogue, keep: Column -> bool)
    requires DeclaredOnce(cols)
    ensures DeclaredOnce(Filter(cols, keep))
  {
    if cols != [] {
      var rest := Filter(cols[1..], keep);
      FilterDeclaredOnce(cols[1..], keep);
      forall j | 0 <= j < |rest| ensures rest[j].key != cols[0].key {
        assert rest[j] in rest && rest[j] in cols[1..];
      }
      var all := (if keep(cols[0]) then [cols[0]] else []) + rest;
      assert DeclaredOnce(all);
    }
  }

  lemma NewIsSound(cat: Catalogue)
    requires DeclaredOnce(cat)
    ensures Sound(cat, Prefs(None, [], None))
  {
    FilterDeclaredOnce(cat, (c: Column) => !c.hidden || IsLocked(c));
    hide DeclaredOnce, Keys, Filter, Distinct;
    KeysDistinct(Filter(cat, (c: Column) => !c.hidden || IsLocked(c)));
  }

  /** In a table that declares no column twice, after any run of choosing columns, saving, applying and deleting
      views and resetting: hiding takes exactly the one column off the screen, adding puts it last among the data
      columns, and a drop puts it immediately before its target. */
  lemma EveryChoiceTakesEffect(cat: Catalogue, acts: seq<Act>, c: Choice)
    requires DeclaredOnce(cat)
    requires AllAllowed(cat, Prefs(None, [], None), acts)
    requires Allowed(cat, DoAll(cat, Prefs(None, [], None), acts), Chose(c))
    ensures var later := DoAll(cat, Prefs(None, [], None), acts);
            Effect(ShownBy(cat, later), c, ShownBy(cat, Do(cat, later, Chose(c))))
  {
    hide DeclaredOnce, NoneTwice, Effect, Allowed, AllAllowed, Do, DoAll, ShownBy;
    NewIsSound(cat);
    RunKeepsSound(cat, Prefs(None, [], None), acts);
    ChoosingTakesEffect(cat, DoAll(cat, Prefs(None, [], None), acts), c);
  }
}
