/** The shared Escape stack: the module's own state with its insertion loop and listener, the
    React lifecycle that drives it (renders, discarded renders, commits, effects and cleanups in
    any order), and the Escape key. */
module EscapeLayer {
  import opened Lists

  /** A mounted use of the hook, and a handler it was rendered with. */
  type Owner = nat
  type Handler = nat

  /** `owner` stands for the closure that calls that hook's newest handler. */
  datatype Layer = Layer(order: nat, owner: Owner)

  /** The module's three variables. */
  datatype Stack = Stack(layers: seq<Layer>, counter: nat, listening: bool)

  ghost predicate Sorted(layers: seq<Layer>) {
    forall i, j :: 0 <= i < j < |layers| ==> layers[i].order < layers[j].order
  }

  /** `layers` with `l` below every layer numbered above it. */
  function Insert(layers: seq<Layer>, l: Layer): seq<Layer> {
    if layers != [] && layers[|layers| - 1].order > l.order
    then Insert(layers[..|layers| - 1], l) + [layers[|layers| - 1]]
    else layers + [l]
  }

  lemma InsertBelow(layers: seq<Layer>, l: Layer, i: nat)
    requires 0 < i <= |layers| && layers[i - 1].order > l.order
    ensures Insert(layers[..i], l) + layers[i..] == Insert(layers[..i - 1], l) + layers[i - 1..]
  {
    assert layers[..i][..i - 1] == layers[..i - 1];
    assert [layers[i - 1]] + layers[i..] == layers[i - 1..];
  }

  lemma InsertHere(layers: seq<Layer>, l: Layer)
    requires layers == [] || layers[|layers| - 1].order <= l.order
    ensures Insert(layers, l) == layers + [l]
  {
  }

  function Remove(layers: seq<Layer>, l: Layer): seq<Layer> {
    if layers == [] then []
    else if layers[0] == l then layers[1..]
    else [layers[0]] + Remove(layers[1..], l)
  }

  function Mount(s: Stack, l: Layer): Stack {
    s.(layers := Insert(s.layers, l), listening := true)
  }

  /** What a render leaves in a hook's ref. */
  function Stamp(s: Stack, active: bool, number: nat): (Stack, nat) {
    if !active then (s, 0)
    else if number == 0 then (s.(counter := s.counter + 1), s.counter + 1)
    else (s, number)
  }

  /** The layer an effect puts on the stack. */
  function MountFor(s: Stack, number: nat, owner: Owner): (Stack, Layer) {
    var (t, order) := Stamp(s, true, number);
    (Mount(t, Layer(order, owner)), Layer(order, owner))
  }

  function Unmount(s: Stack, l: Layer): Stack {
    var rest := Remove(s.layers, l);
    s.(layers := rest, listening := s.listening && rest != [])
  }

  lemma PushSorted(layers: seq<Layer>, top: Layer)
    requires Sorted(layers) && forall x :: x in layers ==> x.order < top.order
    ensures Sorted(layers + [top])
  {
    forall i, j | 0 <= i < j < |layers + [top]| ensures (layers + [top])[i].order < (layers + [top])[j].order {
      assert layers[i] in layers;
    }
  }

  lemma TopAbove(layers: seq<Layer>, top: Layer)
    requires Sorted(layers + [top])
    ensures Sorted(layers) && forall x :: x in layers ==> x.order < top.order
  {
    var all := layers + [top];
    forall i | 0 <= i < |layers| ensures layers[i].order < top.order {
      assert all[i] == layers[i] && all[|layers|] == top;
    }
    forall i, j | 0 <= i < j < |layers| ensures layers[i].order < layers[j].order {
      assert all[i] == layers[i] && all[j] == layers[j];
    }
  }

  lemma {:induction false} InsertSorted(layers: seq<Layer>, l: Layer)
    requires Sorted(layers) && forall x :: x in layers ==> x.order != l.order
    ensures Sorted(Insert(layers, l))
    ensures forall x :: x in Insert(layers, l) <==> x in layers || x == l
  {
    if layers == [] {
    } else {
      var front, top := layers[..|layers| - 1], layers[|layers| - 1];
      assert layers == front + [top];
      TopAbove(front, top);
      if top.order > l.order {
        InsertSorted(front, l);
        PushSorted(Insert(front, l), top);
      } else {
        assert top in layers;
        PushSorted(layers, l);
      }
    }
  }

  lemma {:induction false} RemoveSorted(layers: seq<Layer>, l: Layer)
    requires Sorted(layers)
    ensures Sorted(Remove(layers, l))
    ensures forall x :: x in Remove(layers, l) <==> x in layers && x != l
  {
    if layers != [] {
      assert layers == [layers[0]] + layers[1..];
      RemoveSorted(layers[1..], l);
      var r := Remove(layers[1..], l);
      forall i | 0 <= i < |r| ensures layers[0].order < r[i].order {
        assert r[i] in r;
        var k :| 0 <= k < |layers[1..]| && layers[1..][k] == r[i];
      }
    }
  }

  lemma SameTop(p: seq<Layer>, x: Layer, q: seq<Layer>, y: Layer)
    requires Sorted(p + [x]) && Sorted(q + [y]) && forall z :: z in p + [x] <==> z in q + [y]
    ensures x == y && forall z :: z in p <==> z in q
  {
    TopAbove(p, x);
    TopAbove(q, y);
    assert x in p + [x] && y in q + [y];
    assert x in q + [y] && y in p + [x];
    forall z ensures z in p <==> z in q {
      assert z in p + [x] <==> z in p || z == x;
      assert z in q + [y] <==> z in q || z == y;
    }
  }

  lemma BothEmpty(a: seq<Layer>, b: seq<Layer>)
    requires forall x :: x in a <==> x in b
    ensures a == [] <==> b == []
  {
    assert a != [] ==> a[0] in b;
    assert b != [] ==> b[0] in a;
  }

  /** A strictly sorted stack is determined by the layers it holds. */
  lemma {:induction false} SortedUnique(a: seq<Layer>, b: seq<Layer>)
    requires Sorted(a) && Sorted(b) && forall x :: x in a <==> x in b
    ensures a == b
  {
    BothEmpty(a, b);
    if a != [] {
      hide Sorted;
      var p, x := a[..|a| - 1], a[|a| - 1];
      var q, y := b[..|b| - 1], b[|b| - 1];
      assert a == p + [x] && b == q + [y];
      SameTop(p, x, q, y);
      TopAbove(p, x);
      TopAbove(q, y);
      SortedUnique(p, q);
    }
  }

  // ------------------------------------------------------------ the module itself

  datatype KeyEvent = KeyEvent(key: string, defaultPrevented: bool, isComposing: bool, targetGone: bool)

  /** The layer an event reaches: none when it is not Escape, was consumed, belongs to an IME
      composition, or its target was removed by an earlier handler. */
  function Receiver(s: Stack, e: KeyEvent): Option<Layer> {
    if e.key !in {"Escape", "Esc"} || e.defaultPrevented || e.isComposing || e.targetGone || s.layers == [] then None
    else Some(s.layers[|s.layers| - 1])
  }

  class EscapeStack {
    var stack: seq<Layer>
    var seqCounter: nat
    var listening: bool

    constructor ()
      ensures Now() == Stack([], 0, false)
    {
      stack, seqCounter, listening := [], 0, false;
    }

    ghost function Now(): Stack
      reads this
    {
      Stack(stack, seqCounter, listening)
    }

    method InsertLayer(layer: Layer)
      modifies this`stack
      ensures stack == Insert(old(stack), layer)
    {
      var i := |stack|;
      assert stack[..i] == stack && Insert(stack, layer) + [] == Insert(stack, layer);
      while i > 0 && stack[i - 1].order > layer.order
        invariant 0 <= i <= |stack| && stack == old(stack)
        invariant Insert(stack, layer) == Insert(stack[..i], layer) + stack[i..]
      {
        InsertBelow(stack, layer, i);
        i := i - 1;
      }
      InsertHere(stack[..i], layer);
      assert Insert(stack, layer) == stack[..i] + [layer] + stack[i..];
      stack := stack[..i] + [layer] + stack[i..];
    }

    method EnsureListener()
      modifies this`listening
      ensures listening
    {
      if listening { return; }
      listening := true;
    }

    method DropListenerIfIdle()
      modifies this`listening
      ensures listening == (old(listening) && stack != [])
    {
      if !listening || |stack| > 0 { return; }
      listening := false;
    }

    method NextSeq() returns (order: nat)
      modifies this`seqCounter
      ensures order == seqCounter == old(seqCounter) + 1
    {
      seqCounter := seqCounter + 1;
      order := seqCounter;
    }

    /** A render of a hook whose ref holds `number`. */
    method Render(active: bool, number: nat) returns (next: nat)
      modifies this`seqCounter
      ensures (Now(), next) == Stamp(old(Now()), active, number)
    {
      next := number;
      if !active { next := 0; } else if number == 0 { next := NextSeq(); }
    }

    /** The effect of a hook that is active. */
    method Register(number: nat, owner: Owner) returns (layer: Layer)
      modifies this`stack, this`listening, this`seqCounter
      ensures (Now(), layer) == MountFor(old(Now()), number, owner)
    {
      var order := number;
      if order == 0 { order := NextSeq(); }
      layer := Layer(order, owner);
      InsertLayer(layer);
      EnsureListener();
    }

    method Unregister(layer: Layer)
      modifies this`stack, this`listening
      ensures Now() == Unmount(old(Now()), layer)
    {
      var i := 0;
      while i < |stack| && stack[i] != layer
        invariant 0 <= i <= |stack|
        invariant Remove(stack, layer) == stack[..i] + Remove(stack[i..], layer)
      {
        assert stack[i..][1..] == stack[i + 1..];
        assert stack[..i + 1] == stack[..i] + [stack[i]];
        i := i + 1;
      }
      if i < |stack| { stack := stack[..i] + stack[i + 1..]; }
      DropListenerIfIdle();
    }

    /** Which layer's handler runs, and whether the event is prevented from here on. */
    method OnKeyDown(e: KeyEvent) returns (run: Option<Layer>, prevented: bool)
      ensures run == Receiver(Now(), e)
      ensures prevented == (e.defaultPrevented || run.Some?)
    {
      if e.key != "Escape" && e.key != "Esc" { return None, e.defaultPrevented; }
      if e.defaultPrevented || e.isComposing { return None, e.defaultPrevented; }
      if e.targetGone { return None, e.defaultPrevented; }
      if |stack| == 0 { return None, e.defaultPrevented; }
      return Some(stack[|stack| - 1]), true;
    }
  }

  // ---------------------------------------------------------- the React lifecycle

  /** One mounted hook: its two refs, whether the committed render was active, and the layer its
      effect put on the stack. */
  datatype Hook = Hook(stamp: nat, handler: Handler, want: bool, layer: Option<Layer>)

  datatype World = World(stack: Stack, hooks: map<Owner, Hook>)

  /** A render may be thrown away: nothing ties a `Render` to a later `Commit`. Cleanups and
      effects run in any order after a commit, and a strict-mode remount is a `Cleanup` followed
      by an `Effect` of a layer that stays active. `Forget` drops a hook's refs: after an unmount, or
      when its first render is thrown away. */
  datatype Step =
    | Render(id: Owner, active: bool, handler: Handler)
    | Commit(id: Owner, active: bool)
    | Cleanup(id: Owner)
    | Effect(id: Owner)
    | Forget(id: Owner)

  function HookOf(w: World, id: Owner): Hook {
    if id in w.hooks then w.hooks[id] else Hook(0, 0, false, None)
  }

  ghost predicate Enabled(w: World, s: Step) {
    match s
    case Render(_, _, _) => true
    case Commit(id, _) => id in w.hooks
    case Cleanup(id) => HookOf(w, id).layer.Some?
    case Effect(id) => HookOf(w, id).want && HookOf(w, id).layer == None
    case Forget(id) => id in w.hooks && !w.hooks[id].want && w.hooks[id].layer == None
  }

  function Do(w: World, s: Step): World {
    match s
    case Render(id, active, handler) =>
      var (s, number) := Stamp(w.stack, active, HookOf(w, id).stamp);
      World(s, w.hooks[id := HookOf(w, id).(handler := handler, stamp := number)])
    case Commit(id, active) => w.(hooks := w.hooks[id := HookOf(w, id).(want := active)])
    case Cleanup(id) =>
      var h := HookOf(w, id);
      if h.layer == None then w
      else World(Unmount(w.stack, h.layer.value), w.hooks[id := h.(layer := None)])
    case Effect(id) =>
      var (s, l) := MountFor(w.stack, HookOf(w, id).stamp, id);
      World(s, w.hooks[id := HookOf(w, id).(layer := Some(l))])
    case Forget(id) => w.(hooks := w.hooks - {id})
  }

  function Run(w: World, steps: seq<Step>): World
    decreases |steps|
  {
    if steps == [] then w else Run(Do(w, steps[0]), steps[1..])
  }

  ghost predicate Possible(w: World, steps: seq<Step>)
    decreases |steps|
  {
    steps == [] || (Enabled(w, steps[0]) && Possible(Do(w, steps[0]), steps[1..]))
  }

  const START := World(Stack([], 0, false), map[])

  /** A hook's layer is its own, on the stack, and numbered by the counter. */
  ghost predicate Sane(w: World, id: Owner) {
    var h := HookOf(w, id);
    && h.stamp <= w.stack.counter
    && (h.layer.Some? ==>
          h.layer.value.owner == id && 0 < h.layer.value.order <= w.stack.counter && h.layer.value in w.stack.layers)
  }

  /** No number is held by two hooks, in a ref or in a layer. */
  ghost predicate Apart(w: World, a: Owner, b: Owner) {
    var h, g := HookOf(w, a), HookOf(w, b);
    a != b ==>
      && (h.stamp > 0 ==> h.stamp != g.stamp && (g.layer.Some? ==> h.stamp != g.layer.value.order))
      && (h.layer.Some? && g.layer.Some? ==> h.layer.value.order != g.layer.value.order)
  }

  ghost predicate Inv(w: World) {
    && Sorted(w.stack.layers)
    && (w.stack.listening <==> w.stack.layers != [])
    && (forall l :: l in w.stack.layers ==> HookOf(w, l.owner).layer == Some(l))
    && (forall id: Owner :: Sane(w, id))
    && (forall a: Owner, b: Owner :: Apart(w, a, b))
  }

  /** The layers after a step are those before it, and its hook's. */
  ghost predicate LayersFollow(w: World, s: Step) {
    s.Effect? || s.Cleanup? ==>
      forall l :: l in Do(w, s).stack.layers <==>
        ((l in w.stack.layers || HookOf(Do(w, s), s.id).layer == Some(l))
         && (s.Cleanup? ==> HookOf(w, s.id).layer != Some(l)))
  }

  lemma StaysSane(w: World, s: Step, a: Owner)
    requires Enabled(w, s) && LayersFollow(w, s) && Sane(w, a) && Sane(w, s.id) && Apart(w, a, s.id)
    ensures Sane(Do(w, s), a)
  {
  }

  lemma StaysApart(w: World, s: Step, a: Owner, b: Owner)
    requires Enabled(w, s) && Sane(w, a) && Sane(w, b) && Apart(w, a, b) && Apart(w, b, a)
    ensures Apart(Do(w, s), a, b)
  {
  }

  lemma StepKeepsStack(w: World, s: Step)
    requires Inv(w) && Enabled(w, s)
    ensures Sorted(Do(w, s).stack.layers) && LayersFollow(w, s)
    ensures Do(w, s).stack.listening <==> Do(w, s).stack.layers != []
  {
    assert Sane(w, s.id);
    if s.Effect? {
      var l := HookOf(Do(w, s), s.id).layer.value;
      forall o | o in w.stack.layers ensures o.order != l.order {
        assert Sane(w, o.owner) && Apart(w, s.id, o.owner);
      }
      InsertSorted(w.stack.layers, l);
    } else if s.Cleanup? {
      RemoveSorted(w.stack.layers, HookOf(w, s.id).layer.value);
    }
  }

  lemma StepKeepsInv(w: World, s: Step)
    requires Inv(w) && Enabled(w, s)
    ensures Inv(Do(w, s))
  {
    var w' := Do(w, s);
    StepKeepsStack(w, s);
    forall l | l in w'.stack.layers ensures HookOf(w', l.owner).layer == Some(l) {
      assert Sane(w, s.id);
      if l in w.stack.layers { assert HookOf(w, l.owner).layer == Some(l); }
    }
    hide Do, Enabled, Sorted, LayersFollow;
    forall a: Owner ensures Sane(w', a) {
      assert Sane(w, a) && Sane(w, s.id) && Apart(w, a, s.id);
      StaysSane(w, s, a);
    }
    forall a: Owner, b: Owner ensures Apart(w', a, b) {
      assert Sane(w, a) && Sane(w, b) && Apart(w, a, b) && Apart(w, b, a);
      StaysApart(w, s, a, b);
    }
  }

  /** Every reachable state, whatever was rendered, discarded, committed, and in whatever order
      effects ran. */
  lemma {:induction false} RunKeepsInv(w: World, steps: seq<Step>)
    requires Inv(w) && Possible(w, steps)
    ensures Inv(Run(w, steps))
    decreases |steps|
  {
    if steps != [] {
      StepKeepsInv(w, steps[0]);
      RunKeepsInv(Do(w, steps[0]), steps[1..]);
    }
  }

  // ------------------------------------------------ the stack is the opening order

  /** No effect or cleanup is outstanding. */
  ghost predicate Settled(w: World) {
    forall id: Owner :: HookOf(w, id).want <==> HookOf(w, id).layer.Some?
  }

  function Owners(layers: seq<Layer>): seq<Owner> {
    seq(|layers|, i requires 0 <= i < |layers| => layers[i].owner)
  }

  /** When nothing is outstanding the stack holds one layer for each active hook and nothing
      else, and the listener is installed exactly when there is one. */
  lemma SettledStackIsActiveHooks(steps: seq<Step>)
    requires Possible(START, steps) && Settled(Run(START, steps))
    ensures var w := Run(START, steps);
            && Sorted(w.stack.layers)
            && (forall id: Owner :: id in Owners(w.stack.layers) <==> HookOf(w, id).want)
            && Distinct(Owners(w.stack.layers))
            && (w.stack.listening <==> exists id: Owner :: HookOf(w, id).want)
  {
    RunKeepsInv(START, steps);
    SettledOwners(Run(START, steps));
  }

  lemma SettledOwners(w: World)
    requires Inv(w) && Settled(w)
    ensures forall id: Owner :: id in Owners(w.stack.layers) <==> HookOf(w, id).want
    ensures Distinct(Owners(w.stack.layers))
    ensures w.stack.listening <==> exists id: Owner :: HookOf(w, id).want
  {
    var layers := w.stack.layers;
    forall id: Owner ensures id in Owners(layers) <==> HookOf(w, id).want {
      assert Sane(w, id);
      if id in Owners(layers) {
        var i :| 0 <= i < |layers| && layers[i].owner == id;
        assert layers[i] in layers;
      }
      if HookOf(w, id).want {
        var i :| 0 <= i < |layers| && layers[i] == HookOf(w, id).layer.value;
        assert Owners(layers)[i] == id;
      }
    }
    forall i, j | 0 <= i < j < |layers| ensures Owners(layers)[i] != Owners(layers)[j] {
      assert layers[i] in layers && layers[j] in layers;
    }
    if layers != [] { assert Owners(layers)[0] in Owners(layers); }
  }

  /** One component's part in a render pass. */
  datatype Change = Change(id: Owner, active: bool, handler: Handler)

  ghost predicate DistinctIds(pass: seq<Change>) {
    forall i, j :: 0 <= i < j < |pass| ==> pass[i].id != pass[j].id
  }

  /** A pass in render order, parents before children, and its commit. */
  function RenderAll(w: World, pass: seq<Change>): World {
    if pass == [] then w
    else
      var c := pass[|pass| - 1];
      Do(RenderAll(w, pass[..|pass| - 1]), Render(c.id, c.active, c.handler))
  }

  function CommitAll(w: World, pass: seq<Change>): World {
    if pass == [] then w
    else
      var c := pass[|pass| - 1];
      Do(CommitAll(w, pass[..|pass| - 1]), Commit(c.id, c.active))
  }

  /** The rule the layers promise: those that close leave, those that open go on top in render
      order, the others keep their places. */
  function Opened(open: seq<Owner>, pass: seq<Change>): seq<Owner> {
    if pass == [] then open
    else OpenOne(Opened(open, pass[..|pass| - 1]), pass[|pass| - 1])
  }

  function OpenOne(open: seq<Owner>, c: Change): seq<Owner> {
    if !c.active then Without(open, c.id) else Include(open, c.id)
  }

  /** What rendering a pass leaves alone. */
  lemma {:induction false} PassKeeps(w: World, pass: seq<Change>, id: Owner)
    ensures RenderAll(w, pass).stack.layers == w.stack.layers && RenderAll(w, pass).stack.listening == w.stack.listening
    ensures HookOf(RenderAll(w, pass), id).want == HookOf(w, id).want
    ensures HookOf(RenderAll(w, pass), id).layer == HookOf(w, id).layer
  {
    if pass != [] { PassKeeps(w, pass[..|pass| - 1], id); }
  }

  /** A hook the pass never closes keeps its number. */
  lemma {:induction false} StampKept(w: World, pass: seq<Change>, id: Owner)
    requires HookOf(w, id).stamp > 0
    requires forall k :: 0 <= k < |pass| && pass[k].id == id ==> pass[k].active
    ensures HookOf(RenderAll(w, pass), id).stamp == HookOf(w, id).stamp
  {
    if pass != [] {
      StampKept(w, pass[..|pass| - 1], id);
    }
  }

  /** After the commit the active hooks are the open ones; the refs and the stack are as rendered. */
  lemma {:induction false} CommitWants(w: World, start: World, open: seq<Owner>, pass: seq<Change>)
    requires forall id: Owner :: HookOf(start, id).want <==> id in open
    requires forall id: Owner :: HookOf(w, id).want == HookOf(start, id).want
    ensures forall id: Owner :: HookOf(CommitAll(w, pass), id).want <==> id in Opened(open, pass)
    ensures forall id: Owner :: HookOf(CommitAll(w, pass), id).stamp == HookOf(w, id).stamp
    ensures forall id: Owner :: HookOf(CommitAll(w, pass), id).layer == HookOf(w, id).layer
    ensures CommitAll(w, pass).stack == w.stack
  {
    if pass != [] {
      CommitWants(w, start, open, pass[..|pass| - 1]);
    }
  }

  lemma PassInv(w: World, pass: seq<Change>)
    requires Inv(w)
    ensures Inv(RenderAll(w, pass)) && Inv(CommitAll(w, pass))
  {
    if pass != [] {
      var c := pass[|pass| - 1];
      PassInv(w, pass[..|pass| - 1]);
      StepKeepsInv(RenderAll(w, pass[..|pass| - 1]), Render(c.id, c.active, c.handler));
      CommitInv(CommitAll(w, pass[..|pass| - 1]), c);
    }
  }

  lemma CommitInv(w: World, c: Change)
    requires Inv(w)
    ensures Inv(Do(w, Commit(c.id, c.active)))
  {
    var w' := Do(w, Commit(c.id, c.active));
    forall a: Owner ensures Sane(w', a) { assert Sane(w, a); }
    forall a: Owner, b: Owner ensures Apart(w', a, b) { assert Apart(w, a, b); }
  }

  /** A committed pass with the order its cleanups and effects happened to run in. */
  datatype Pass = Pass(changes: seq<Change>, effects: seq<Step>)

  function After(w: World, p: Pass): World {
    Run(CommitAll(RenderAll(w, p.changes), p.changes), p.effects)
  }

  ghost predicate Flushed(w: World, p: Pass) {
    && DistinctIds(p.changes)
    && Possible(CommitAll(RenderAll(w, p.changes), p.changes), p.effects)
    && (forall s :: s in p.effects ==> s.Effect? || s.Cleanup?)
    && Settled(After(w, p))
  }

  /** A state between passes, with whatever discarded renders have left in the refs. */
  ghost predicate Between(w: World) {
    Inv(w) && Settled(w)
  }

  ghost predicate Stays(w: World, pass: seq<Change>, id: Owner) {
    HookOf(w, id).want && forall k :: 0 <= k < |pass| && pass[k].id == id ==> pass[k].active
  }

  ghost predicate Opens(w: World, pass: seq<Change>, k: nat) {
    k < |pass| && pass[k].active && !HookOf(w, pass[k].id).want
  }

  /** A hook that opens with a number left by a discarded render: every layer that stays open has a
      smaller one, and so has every hook that opens before it in the pass. */
  ghost predicate Above(w: World, pass: seq<Change>, k: nat)
    requires k < |pass|
  {
    var n := HookOf(w, pass[k].id).stamp;
    && (forall l :: l in w.stack.layers && Stays(w, pass, l.owner) ==> l.order < n)
    && (forall j: nat :: j < k && Opens(w, pass, j) ==> 0 < HookOf(w, pass[j].id).stamp < n)
  }

  ghost predicate InOrder(w: World, pass: seq<Change>) {
    forall k: nat :: Opens(w, pass, k) && HookOf(w, pass[k].id).stamp > 0 ==> Above(w, pass, k)
  }

  /** A layer that stays open is remounted only while its hook's ref still holds its number. */
  ghost predicate Undisturbed(w: World, p: Pass) {
    forall id: Owner :: Cleanup(id) in p.effects && Stays(w, p.changes, id) && HookOf(w, id).layer.Some? ==>
      HookOf(w, id).stamp == HookOf(w, id).layer.value.order
  }

  // ------------------------------------------------ the numbers a pass gives

  lemma {:induction false} OthersNotRendered(w: World, pass: seq<Change>, id: Owner)
    requires forall k :: 0 <= k < |pass| ==> pass[k].id != id
    ensures HookOf(RenderAll(w, pass), id) == HookOf(w, id)
  {
    if pass != [] { OthersNotRendered(w, pass[..|pass| - 1], id); }
  }

  lemma {:induction false} CounterGrows(w: World, pass: seq<Change>, j: nat, k: nat)
    requires j <= k <= |pass|
    ensures RenderAll(w, pass[..j]).stack.counter <= RenderAll(w, pass[..k]).stack.counter
    decreases k - j
  {
    if j < k {
      CounterGrows(w, pass, j, k - 1);
      assert pass[..k][..k - 1] == pass[..k - 1];
    }
  }

  /** A hook rendered active keeps its number, or takes the next one. */
  lemma {:induction false} RenderedNumber(w: World, pass: seq<Change>, k: nat)
    requires DistinctIds(pass) && k < |pass| && pass[k].active
    ensures var id := pass[k].id;
            && HookOf(RenderAll(w, pass), id).stamp
               == (if HookOf(w, id).stamp > 0 then HookOf(w, id).stamp else RenderAll(w, pass[..k]).stack.counter + 1)
            && (HookOf(w, id).stamp == 0 ==>
                  RenderAll(w, pass[..k + 1]).stack.counter == RenderAll(w, pass[..k]).stack.counter + 1)
    decreases |pass|
  {
    var n := |pass| - 1;
    if k == n {
      OthersNotRendered(w, pass[..k], pass[k].id);
      assert pass[..k + 1] == pass;
    } else {
      RenderedNumber(w, pass[..n], k);
      assert pass[..n][..k] == pass[..k] && pass[..n][..k + 1] == pass[..k + 1];
    }
  }

  /** The number a layer has once the pass is flushed: it keeps its own, or takes its hook's. */
  ghost function Number(w: World, rendered: World, id: Owner): nat {
    var h := HookOf(w, id);
    if h.layer.Some? then h.layer.value.order else HookOf(rendered, id).stamp
  }

  lemma NewOverOld(w: World, pass: seq<Change>, k: nat, id: Owner)
    requires Between(w) && DistinctIds(pass) && Opens(w, pass, k) && HookOf(w, id).layer.Some?
    ensures var rendered, stamp := RenderAll(w, pass), HookOf(w, pass[k].id).stamp;
            && Number(w, rendered, pass[k].id) > 0
            && (Number(w, rendered, id) < Number(w, rendered, pass[k].id) <==>
                stamp == 0 || HookOf(w, id).layer.value.order < stamp)
  {
    RenderedNumber(w, pass, k);
    CounterGrows(w, pass, 0, k);
    assert pass[..0] == [] && Sane(w, id);
  }

  /** The number of a hook that opens: its stale one, or one above all there were. */
  lemma NewNumber(w: World, pass: seq<Change>, k: nat)
    requires Between(w) && DistinctIds(pass) && Opens(w, pass, k)
    ensures var stamp, n := HookOf(w, pass[k].id).stamp, Number(w, RenderAll(w, pass), pass[k].id);
            && stamp <= w.stack.counter <= RenderAll(w, pass[..k]).stack.counter
            && n == (if stamp > 0 then stamp else RenderAll(w, pass[..k]).stack.counter + 1)
            && (stamp == 0 ==> n == RenderAll(w, pass[..k + 1]).stack.counter)
  {
    RenderedNumber(w, pass, k);
    CounterGrows(w, pass, 0, k);
    assert pass[..0] == [] && Sane(w, pass[k].id);
  }

  lemma NewOverNew(w: World, pass: seq<Change>, j: nat, k: nat)
    requires Between(w) && DistinctIds(pass) && Opens(w, pass, j) && Opens(w, pass, k) && j < k
    ensures var rendered, stamp := RenderAll(w, pass), HookOf(w, pass[k].id).stamp;
            Number(w, rendered, pass[j].id) < Number(w, rendered, pass[k].id) <==>
            stamp == 0 || 0 < HookOf(w, pass[j].id).stamp < stamp
  {
    hide RenderAll, Number, Between, HookOf, DistinctIds;
    NewNumber(w, pass, j);
    NewNumber(w, pass, k);
    CounterGrows(w, pass, j + 1, k);
  }

  // ------------------------------------------------ the opening order as a relation

  ghost predicate Precedes(open: seq<Owner>, a: Owner, b: Owner) {
    exists p, q :: 0 <= p < q < |open| && open[p] == a && open[q] == b
  }

  lemma {:induction false} FilterPrecedes(open: seq<Owner>, gone: Owner, a: Owner, b: Owner)
    requires Precedes(open, a, b) && a != gone && b != gone
    ensures Precedes(Without(open, gone), a, b)
  {
    var p, q :| 0 <= p < q < |open| && open[p] == a && open[q] == b;
    var kept, all := Without(open[1..], gone), Without(open, gone);
    if p == 0 {
      assert open[1..][q - 1] == b && b in kept;
      var k :| 0 <= k < |kept| && kept[k] == b;
      assert all[0] == a && all[k + 1] == b;
    } else {
      assert open[1..][p - 1] == a && open[1..][q - 1] == b;
      FilterPrecedes(open[1..], gone, a, b);
      var i, j :| 0 <= i < j < |kept| && kept[i] == a && kept[j] == b;
      var shift := |all| - |kept|;
      assert all[i + shift] == a && all[j + shift] == b;
    }
  }

  lemma {:induction false} OpenedMembers(open: seq<Owner>, pass: seq<Change>, id: Owner)
    requires DistinctIds(pass)
    ensures forall k :: 0 <= k < |pass| && pass[k].id == id ==> (id in Opened(open, pass) <==> pass[k].active)
    ensures (forall k :: 0 <= k < |pass| ==> pass[k].id != id) ==> (id in Opened(open, pass) <==> id in open)
  {
    if pass != [] {
      OpenedMembers(open, pass[..|pass| - 1], id);
    }
  }

  /** In one pass, a layer that newly opens sits above every layer rendered active before it, so
      a child is above its parent; and it sits above every layer that was already open. */
  lemma {:induction false} NewLayerIsAbove(open: seq<Owner>, pass: seq<Change>, child: nat, other: Owner)
    requires DistinctIds(pass) && child < |pass| && pass[child].active && pass[child].id !in open
    requires other != pass[child].id && other in Opened(open, pass)
    requires other in open || exists k :: 0 <= k < child && pass[k].id == other
    ensures Precedes(Opened(open, pass), other, pass[child].id)
  {
    var n := |pass| - 1;
    var before, c := Opened(open, pass[..n]), pass[n];
    OpenedMembers(open, pass[..n], c.id);
    if child == n {
      assert other in before && c.id !in before;
      NewOnTop(before, c, other);
    } else {
      assert other == c.id ==> other in open && other in before;
      NewLayerIsAbove(open, pass[..n], child, other);
      StepPrecedes(before, c, other, pass[child].id);
    }
  }

  lemma NewOnTop(open: seq<Owner>, c: Change, other: Owner)
    requires c.active && c.id !in open && other in open
    ensures Precedes(OpenOne(open, c), other, c.id)
  {
    var p :| 0 <= p < |open| && open[p] == other;
    assert OpenOne(open, c)[p] == other && OpenOne(open, c)[|open|] == c.id;
  }

  lemma StepPrecedes(open: seq<Owner>, c: Change, a: Owner, b: Owner)
    requires Precedes(open, a, b) && (c.active || (c.id != a && c.id != b))
    ensures Precedes(OpenOne(open, c), a, b)
  {
    if !c.active {
      FilterPrecedes(open, c.id, a, b);
    } else {
      var p, q :| 0 <= p < q < |open| && open[p] == a && open[q] == b;
      assert OpenOne(open, c)[p] == a && OpenOne(open, c)[q] == b;
    }
  }

  lemma {:induction false} OldKeepOrder(open: seq<Owner>, pass: seq<Change>, a: Owner, b: Owner)
    requires Precedes(open, a, b)
    requires forall k :: 0 <= k < |pass| && pass[k].id in {a, b} ==> pass[k].active
    ensures Precedes(Opened(open, pass), a, b)
  {
    if pass != [] {
      OldKeepOrder(open, pass[..|pass| - 1], a, b);
      StepPrecedes(Opened(open, pass[..|pass| - 1]), pass[|pass| - 1], a, b);
    }
  }

  lemma {:induction false} OpenedDistinct(open: seq<Owner>, pass: seq<Change>)
    requires Distinct(open)
    ensures Distinct(Opened(open, pass))
  {
    if pass != [] {
      OpenedDistinct(open, pass[..|pass| - 1]);
      WithoutDistinct(Opened(open, pass[..|pass| - 1]), pass[|pass| - 1].id);
    }
  }

  lemma NotBoth(s: seq<Owner>, a: Owner, b: Owner)
    requires Distinct(s)
    ensures !(Precedes(s, a, b) && Precedes(s, b, a))
  {
  }

  /** Who is open after a pass: the hooks that stay and the hooks that open. */
  lemma OpenAfter(w: World, pass: seq<Change>, id: Owner)
    requires Between(w) && DistinctIds(pass)
    ensures var open := Owners(w.stack.layers);
            && Distinct(open) && (id in open <==> HookOf(w, id).want)
            && (id in Opened(open, pass) <==>
                Stays(w, pass, id) || exists k: nat :: Opens(w, pass, k) && pass[k].id == id)
  {
    var open := Owners(w.stack.layers);
    SettledOwners(w);
    OpenedMembers(open, pass, id);
    if k :| 0 <= k < |pass| && pass[k].id == id {
      assert Opens(w, pass, k) <==> pass[k].active && !HookOf(w, id).want;
    }
  }

  ghost predicate Rising(w: World, rendered: World, now: seq<Owner>) {
    forall i, j :: 0 <= i < j < |now| ==> Number(w, rendered, now[i]) < Number(w, rendered, now[j])
  }

  /** The hook that opens the layer `id`. */
  lemma Opener(w: World, pass: seq<Change>, id: Owner) returns (k: nat)
    requires Between(w) && DistinctIds(pass)
    requires id in Opened(Owners(w.stack.layers), pass) && !HookOf(w, id).want
    ensures Opens(w, pass, k) && pass[k].id == id
  {
    OpenAfter(w, pass, id);
    k :| Opens(w, pass, k) && pass[k].id == id;
  }

  /** A layer that opens comes after whatever stays, and after what opened before it. */
  lemma NewComesAfter(w: World, pass: seq<Change>, k: nat, id: Owner)
    requires Between(w) && DistinctIds(pass) && Opens(w, pass, k)
    requires Stays(w, pass, id) || exists j: nat :: j < k && Opens(w, pass, j) && pass[j].id == id
    ensures Precedes(Opened(Owners(w.stack.layers), pass), id, pass[k].id)
  {
    OpenAfter(w, pass, id);
    OpenAfter(w, pass, pass[k].id);
    NewLayerIsAbove(Owners(w.stack.layers), pass, k, id);
  }

  lemma RisingPair(w: World, rendered: World, now: seq<Owner>, a: Owner, b: Owner)
    requires Rising(w, rendered, now) && Precedes(now, a, b)
    ensures Number(w, rendered, a) < Number(w, rendered, b)
  {
  }

  lemma RisingIsInOrder(w: World, pass: seq<Change>)
    requires Between(w) && DistinctIds(pass)
    requires Rising(w, RenderAll(w, pass), Opened(Owners(w.stack.layers), pass))
    ensures InOrder(w, pass)
  {
    var rendered, now := RenderAll(w, pass), Opened(Owners(w.stack.layers), pass);
    hide Opened, Rising, Precedes, RenderAll, Number;
    forall k: nat | Opens(w, pass, k) && HookOf(w, pass[k].id).stamp > 0 ensures Above(w, pass, k) {
      forall l | l in w.stack.layers && Stays(w, pass, l.owner) ensures l.order < HookOf(w, pass[k].id).stamp {
        NewComesAfter(w, pass, k, l.owner);
        RisingPair(w, rendered, now, l.owner, pass[k].id);
        NewOverOld(w, pass, k, l.owner);
      }
      forall j: nat | j < k && Opens(w, pass, j)
        ensures 0 < HookOf(w, pass[j].id).stamp < HookOf(w, pass[k].id).stamp
      {
        NewComesAfter(w, pass, k, pass[j].id);
        RisingPair(w, rendered, now, pass[j].id, pass[k].id);
        NewOverNew(w, pass, j, k);
      }
    }
  }

  /** Two layers open after the pass, one above the other: both stayed and keep their order, or the
      upper one opened and the lower one stayed or opened before it. */
  lemma OrderedPair(w: World, pass: seq<Change>, a: Owner, b: Owner)
    requires Between(w) && DistinctIds(pass) && InOrder(w, pass)
    requires Precedes(Opened(Owners(w.stack.layers), pass), a, b)
    ensures Number(w, RenderAll(w, pass), a) < Number(w, RenderAll(w, pass), b)
  {
    var open := Owners(w.stack.layers);
    var now := Opened(open, pass);
    OpenAfter(w, pass, a);
    OpenAfter(w, pass, b);
    OpenedDistinct(open, pass);
    NotBoth(now, a, b);
    PrecedesMembers(now, a, b);
    hide Opened, RenderAll, Distinct, Precedes;
    if HookOf(w, b).want {
      if HookOf(w, a).want {
        OldOverOld(w, pass, a, b);
      } else {
        var k := Opener(w, pass, a);
        NewComesAfter(w, pass, k, b);
      }
    } else {
      var k := Opener(w, pass, b);
      if HookOf(w, a).want {
        LayerOfOpen(w, a);
        NewOverOld(w, pass, k, a);
      } else {
        var j := Opener(w, pass, a);
        if k < j { NewComesAfter(w, pass, j, b); }
        NewOverNew(w, pass, j, k);
      }
    }
  }

  lemma PrecedesMembers(s: seq<Owner>, a: Owner, b: Owner)
    requires Precedes(s, a, b) && Distinct(s)
    ensures a in s && b in s && a != b
  {
  }

  lemma LayerOfOpen(w: World, id: Owner)
    requires Between(w) && HookOf(w, id).want
    ensures HookOf(w, id).layer.Some? && HookOf(w, id).layer.value in w.stack.layers
    ensures HookOf(w, id).layer.value.owner == id && HookOf(w, id).layer.value.order > 0
  {
    assert Sane(w, id);
  }

  lemma OldPair(w: World, a: Owner, b: Owner)
    requires Between(w) && HookOf(w, a).want && HookOf(w, b).want && a != b
    ensures HookOf(w, a).layer.Some? && HookOf(w, b).layer.Some?
    ensures HookOf(w, a).layer.value.order < HookOf(w, b).layer.value.order || Precedes(Owners(w.stack.layers), b, a)
  {
    var layers := w.stack.layers;
    LayerOfOpen(w, a);
    LayerOfOpen(w, b);
    var i :| 0 <= i < |layers| && layers[i] == HookOf(w, a).layer.value;
    var j :| 0 <= j < |layers| && layers[j] == HookOf(w, b).layer.value;
    if j < i { assert Owners(layers)[j] == b && Owners(layers)[i] == a; }
  }

  lemma OldOverOld(w: World, pass: seq<Change>, a: Owner, b: Owner)
    requires Between(w) && DistinctIds(pass) && Stays(w, pass, a) && Stays(w, pass, b)
    requires Precedes(Opened(Owners(w.stack.layers), pass), a, b)
    ensures Number(w, RenderAll(w, pass), a) < Number(w, RenderAll(w, pass), b)
  {
    var open := Owners(w.stack.layers);
    SettledOwners(w);
    OpenedDistinct(open, pass);
    hide Opened, Owners, Precedes, Between, Distinct, RenderAll;
    NotBoth(Opened(open, pass), a, b);
    PrecedesMembers(Opened(open, pass), a, b);
    OldPair(w, a, b);
    if Precedes(open, b, a) { OldKeepOrder(open, pass, b, a); }
  }

  /** The numbers rise along the opening order if and only if the pass is in order. */
  lemma RisingExactly(w: World, pass: seq<Change>)
    requires Between(w) && DistinctIds(pass)
    ensures Rising(w, RenderAll(w, pass), Opened(Owners(w.stack.layers), pass)) <==> InOrder(w, pass)
  {
    var rendered, now := RenderAll(w, pass), Opened(Owners(w.stack.layers), pass);
    if InOrder(w, pass) {
      forall i, j | 0 <= i < j < |now| ensures Number(w, rendered, now[i]) < Number(w, rendered, now[j]) {
        assert Precedes(now, now[i], now[j]);
        OrderedPair(w, pass, now[i], now[j]);
      }
    }
    if Rising(w, rendered, now) { RisingIsInOrder(w, pass); }
  }

  // ------------------------------------------------ cleanups and effects

  /** While the effects of a pass run: each active hook's layer has its number, or its ref does. */
  ghost predicate Ready(x: World, w: World, rendered: World, now: seq<Owner>) {
    && Inv(x)
    && (forall id: Owner :: HookOf(x, id).want <==> id in now)
    && (forall id: Owner :: HookOf(x, id).stamp == HookOf(rendered, id).stamp)
    && (forall id: Owner :: id in now ==> Placed(HookOf(x, id), Number(w, rendered, id)))
  }

  ghost predicate Placed(h: Hook, n: nat) {
    n > 0 && if h.layer.Some? then h.layer.value.order == n else h.stamp == n
  }

  ghost predicate Remountable(w: World, rendered: World, now: seq<Owner>, effects: seq<Step>) {
    forall s :: s in effects && s.Cleanup? && s.id in now ==> HookOf(rendered, s.id).stamp == Number(w, rendered, s.id)
  }

  lemma EffectKeepsReady(x: World, w: World, rendered: World, now: seq<Owner>, s: Step)
    requires Ready(x, w, rendered, now) && Enabled(x, s) && (s.Effect? || s.Cleanup?)
    requires s.Cleanup? && s.id in now ==> HookOf(rendered, s.id).stamp == Number(w, rendered, s.id)
    ensures Ready(Do(x, s), w, rendered, now)
  {
    hide Inv, Number;
    StepKeepsInv(x, s);
    var x' := Do(x, s);
    assert s.id in now ==> Placed(HookOf(x, s.id), Number(w, rendered, s.id));
    forall id: Owner ensures HookOf(x', id).want == HookOf(x, id).want && HookOf(x', id).stamp == HookOf(x, id).stamp {}
    forall id: Owner | id in now ensures Placed(HookOf(x', id), Number(w, rendered, id)) {
      assert Placed(HookOf(x, id), Number(w, rendered, id));
    }
  }

  lemma {:induction false} EffectsKeepReady(x: World, w: World, rendered: World, now: seq<Owner>, effects: seq<Step>)
    requires Ready(x, w, rendered, now) && Possible(x, effects)
    requires forall s :: s in effects ==> s.Effect? || s.Cleanup?
    requires Remountable(w, rendered, now, effects)
    ensures Ready(Run(x, effects), w, rendered, now)
    decreases |effects|
  {
    if effects != [] {
      hide Ready, Number;
      var s := effects[0];
      assert s in effects;
      EffectKeepsReady(x, w, rendered, now, s);
      EffectsKeepReady(Do(x, s), w, rendered, now, effects[1..]);
    }
  }

  /** Once settled the stack is the opening order, if and only if the numbers rise along it. */
  lemma ReadySettled(x: World, w: World, rendered: World, now: seq<Owner>)
    requires Ready(x, w, rendered, now) && Settled(x) && Distinct(now)
    ensures Owners(x.stack.layers) == now <==> Rising(w, rendered, now)
    ensures forall id: Owner :: id in now ==> HookOf(x, id).layer == Some(Layer(Number(w, rendered, id), id))
  {
    forall id: Owner | id in now ensures HookOf(x, id).layer == Some(Layer(Number(w, rendered, id), id)) {
      assert Sane(x, id) && Placed(HookOf(x, id), Number(w, rendered, id));
    }
    hide Number;
    if Rising(w, rendered, now) { RisingFills(x, w, rendered, now); }
    if Owners(x.stack.layers) == now {
      var layers := x.stack.layers;
      forall i | 0 <= i < |now| ensures layers[i].order == Number(w, rendered, now[i]) {
        assert layers[i] in layers && Owners(layers)[i] == now[i] && now[i] in now;
      }
    }
  }

  lemma RisingFills(x: World, w: World, rendered: World, now: seq<Owner>)
    requires Inv(x) && Settled(x) && Rising(w, rendered, now)
    requires forall id: Owner :: HookOf(x, id).want <==> id in now
    requires forall id: Owner :: id in now ==> HookOf(x, id).layer == Some(Layer(Number(w, rendered, id), id))
    ensures Owners(x.stack.layers) == now
  {
    hide Number;
    var byNumber := seq(|now|, i requires 0 <= i < |now| => Layer(Number(w, rendered, now[i]), now[i]));
    forall l ensures l in byNumber <==> l in x.stack.layers {
      if l in byNumber {
        var i :| 0 <= i < |now| && byNumber[i] == l;
        assert now[i] in now && Sane(x, now[i]);
      }
      if l in x.stack.layers {
        assert HookOf(x, l.owner).layer == Some(l);
        var i :| 0 <= i < |now| && now[i] == l.owner;
        assert byNumber[i] == l;
      }
    }
    SortedUnique(byNumber, x.stack.layers);
  }

  lemma CommittedIsReady(w: World, pass: seq<Change>)
    requires Between(w) && DistinctIds(pass)
    ensures var rendered := RenderAll(w, pass);
            Ready(CommitAll(rendered, pass), w, rendered, Opened(Owners(w.stack.layers), pass))
  {
    var open, rendered := Owners(w.stack.layers), RenderAll(w, pass);
    var now, committed := Opened(open, pass), CommitAll(rendered, pass);
    SettledOwners(w);
    forall id: Owner
      ensures HookOf(rendered, id).want == HookOf(w, id).want && HookOf(rendered, id).layer == HookOf(w, id).layer
    {
      PassKeeps(w, pass, id);
    }
    CommitWants(rendered, w, open, pass);
    PassInv(w, pass);
    PassInv(rendered, pass);
    hide Opened, RenderAll, CommitAll;
    forall id: Owner | id in now ensures Placed(HookOf(committed, id), Number(w, rendered, id)) {
      OpenedIsPlaced(w, pass, id);
    }
  }

  lemma OpenedIsPlaced(w: World, pass: seq<Change>, id: Owner)
    requires Between(w) && DistinctIds(pass) && id in Opened(Owners(w.stack.layers), pass)
    ensures Number(w, RenderAll(w, pass), id) > 0
    ensures HookOf(w, id).layer == None ==> Number(w, RenderAll(w, pass), id) == HookOf(RenderAll(w, pass), id).stamp
  {
    if HookOf(w, id).want {
      LayerOfOpen(w, id);
    } else {
      var k := Opener(w, pass, id);
      RenderedNumber(w, pass, k);
    }
  }

  lemma PassIsRemountable(w: World, p: Pass)
    requires Between(w) && Flushed(w, p) && Undisturbed(w, p)
    ensures Remountable(w, RenderAll(w, p.changes), Opened(Owners(w.stack.layers), p.changes), p.effects)
  {
    var rendered, now := RenderAll(w, p.changes), Opened(Owners(w.stack.layers), p.changes);
    forall s | s in p.effects && s.Cleanup? && s.id in now
      ensures HookOf(rendered, s.id).stamp == Number(w, rendered, s.id)
    {
      OpenAfter(w, p.changes, s.id);
      assert s == Cleanup(s.id);
      if HookOf(w, s.id).want {
        LayerOfOpen(w, s.id);
        StampKept(w, p.changes, s.id);
      }
    }
  }

  lemma AfterIsReady(w: World, p: Pass)
    requires Between(w) && Flushed(w, p) && Undisturbed(w, p)
    ensures var now := Opened(Owners(w.stack.layers), p.changes);
            Ready(After(w, p), w, RenderAll(w, p.changes), now) && Distinct(now)
  {
    var rendered := RenderAll(w, p.changes);
    var committed, now := CommitAll(rendered, p.changes), Opened(Owners(w.stack.layers), p.changes);
    SettledOwners(w);
    OpenedDistinct(Owners(w.stack.layers), p.changes);
    CommittedIsReady(w, p.changes);
    PassIsRemountable(w, p);
    hide Ready, Opened, Between, RenderAll, CommitAll, Undisturbed;
    EffectsKeepReady(committed, w, rendered, now, p.effects);
  }

  /** What one committed pass does to the stack, with its cleanups and effects in any order and
      whatever numbers discarded renders left behind: it is the opening order if and only if every
      hook that opens with such a number has it above all that stay open and all that open before it. */
  lemma PassFollowsOrder(w: World, p: Pass)
    requires Between(w) && Flushed(w, p) && Undisturbed(w, p)
    ensures Between(After(w, p))
    ensures Owners(After(w, p).stack.layers) == Opened(Owners(w.stack.layers), p.changes) <==> InOrder(w, p.changes)
  {
    AfterIsReady(w, p);
    ReadySettled(After(w, p), w, RenderAll(w, p.changes), Opened(Owners(w.stack.layers), p.changes));
    RisingExactly(w, p.changes);
  }

  // ------------------------------------------------ whole runs

  /** A render pass is thrown away, or it commits. */
  datatype Work = Thrown(changes: seq<Change>) | Committed(pass: Pass)

  function Next(w: World, work: Work): World {
    match work
    case Thrown(changes) => RenderAll(w, changes)
    case Committed(p) => After(w, p)
  }

  /** What is thrown away are renders of mounted hooks: a first render that never commits leaves
      no refs. */
  ghost predicate Allowed(w: World, work: Work) {
    match work
    case Thrown(changes) => forall c :: c in changes ==> c.id in w.hooks
    case Committed(p) => Flushed(w, p) && Undisturbed(w, p)
  }

  ghost predicate AllAllowed(w: World, run: seq<Work>)
    decreases |run|
  {
    run == [] || (Allowed(w, run[0]) && AllAllowed(Next(w, run[0]), run[1..]))
  }

  /** Every pass that commits is in order when it does. */
  ghost predicate AllInOrder(w: World, run: seq<Work>)
    decreases |run|
  {
    run == [] || ((run[0].Committed? ==> InOrder(w, run[0].pass.changes)) && AllInOrder(Next(w, run[0]), run[1..]))
  }

  function OpenedBy(open: seq<Owner>, work: Work): seq<Owner> {
    match work
    case Thrown(_) => open
    case Committed(p) => Opened(open, p.changes)
  }

  /** At every moment between passes the stack is the opening order. */
  ghost predicate AlwaysOpeningOrder(w: World, open: seq<Owner>, run: seq<Work>)
    decreases |run|
  {
    && Owners(w.stack.layers) == open
    && (run == [] || AlwaysOpeningOrder(Next(w, run[0]), OpenedBy(open, run[0]), run[1..]))
  }

  lemma ThrownKeeps(w: World, changes: seq<Change>)
    requires Between(w)
    ensures Between(RenderAll(w, changes)) && RenderAll(w, changes).stack.layers == w.stack.layers
  {
    PassInv(w, changes);
    PassKeeps(w, changes, 0);
    forall id: Owner ensures HookOf(RenderAll(w, changes), id).want <==> HookOf(RenderAll(w, changes), id).layer.Some? {
      PassKeeps(w, changes, id);
      assert HookOf(w, id).want <==> HookOf(w, id).layer.Some?;
    }
  }

  /** Over any run of discarded and committed renders the stack is always the opening order, if and
      only if every pass that commits is in order. */
  lemma {:induction false} OrderExactly(w: World, run: seq<Work>)
    requires Between(w) && AllAllowed(w, run)
    ensures AlwaysOpeningOrder(w, Owners(w.stack.layers), run) <==> AllInOrder(w, run)
    decreases |run|
  {
    if run != [] {
      hide Between, Allowed, Next, Opened, InOrder, Owners;
      WorkFollowsOrder(w, run[0]);
      OrderExactly(Next(w, run[0]), run[1..]);
    }
  }

  lemma WorkFollowsOrder(w: World, work: Work)
    requires Between(w) && Allowed(w, work)
    ensures Between(Next(w, work))
    ensures Owners(Next(w, work).stack.layers) == OpenedBy(Owners(w.stack.layers), work)
            <==> (work.Committed? ==> InOrder(w, work.pass.changes))
  {
    match work
    case Thrown(changes) => ThrownKeeps(w, changes);
    case Committed(p) => PassFollowsOrder(w, p);
  }

  // ------------------------------------------------ nothing discarded

  /** Between passes, with nothing discarded: a closed hook's ref is clear, and an open one's
      number is its layer's. */
  ghost predicate Tidy(w: World) {
    Between(w) && forall id: Owner :: TidyHook(HookOf(w, id), id)
  }

  ghost predicate TidyHook(h: Hook, id: Owner) {
    if h.want then h.stamp > 0 && h.layer == Some(Layer(h.stamp, id)) else h.stamp == 0
  }

  lemma TidyIsInOrder(w: World, p: Pass)
    requires Tidy(w)
    ensures InOrder(w, p.changes) && Undisturbed(w, p)
  {
    forall id: Owner ensures HookOf(w, id).want || HookOf(w, id).stamp == 0 { assert TidyHook(HookOf(w, id), id); }
    forall id: Owner | HookOf(w, id).layer.Some? ensures HookOf(w, id).stamp == HookOf(w, id).layer.value.order {
      assert TidyHook(HookOf(w, id), id);
    }
  }

  lemma {:induction false} EffectsKeepRefs(w: World, effects: seq<Step>, id: Owner)
    requires forall s :: s in effects ==> s.Effect? || s.Cleanup?
    ensures HookOf(Run(w, effects), id).stamp == HookOf(w, id).stamp
    ensures HookOf(Run(w, effects), id).handler == HookOf(w, id).handler
    decreases |effects|
  {
    if effects != [] {
      assert effects[0] in effects;
      EffectsKeepRefs(Do(w, effects[0]), effects[1..], id);
    }
  }

  lemma {:induction false} ClosedIsClear(w: World, pass: seq<Change>, k: nat)
    requires DistinctIds(pass) && k < |pass| && !pass[k].active
    ensures HookOf(RenderAll(w, pass), pass[k].id).stamp == 0
  {
    if k < |pass| - 1 { ClosedIsClear(w, pass[..|pass| - 1], k); }
  }

  /** What rendering leaves in the ref of a hook: its layer's number if it is open afterwards, else
      nothing. */
  lemma RenderedRef(w: World, p: Pass, id: Owner)
    requires Tidy(w) && DistinctIds(p.changes)
    ensures var rendered := RenderAll(w, p.changes);
            HookOf(rendered, id).stamp
            == if id in Opened(Owners(w.stack.layers), p.changes) then Number(w, rendered, id) else 0
  {
    OpenAfter(w, p.changes, id);
    assert TidyHook(HookOf(w, id), id);
    hide Opened, RenderAll;
    if id in Opened(Owners(w.stack.layers), p.changes) {
      OpenedIsPlaced(w, p.changes, id);
      if HookOf(w, id).want { StampKept(w, p.changes, id); }
    } else if k :| 0 <= k < |p.changes| && p.changes[k].id == id {
      assert !Opens(w, p.changes, k);
      ClosedIsClear(w, p.changes, k);
    } else {
      OthersNotRendered(w, p.changes, id);
    }
  }

  lemma RefAfter(w: World, p: Pass, id: Owner)
    requires Tidy(w) && Flushed(w, p)
    ensures TidyHook(HookOf(After(w, p), id), id)
  {
    var rendered, now := RenderAll(w, p.changes), Opened(Owners(w.stack.layers), p.changes);
    TidyIsInOrder(w, p);
    AfterIsReady(w, p);
    ReadySettled(After(w, p), w, rendered, now);
    RenderedRef(w, p, id);
    hide Opened, RenderAll, After, Number;
    assert id in now ==> Placed(HookOf(After(w, p), id), Number(w, rendered, id));
  }

  ghost predicate Passes(w: World, passes: seq<Pass>)
    decreases |passes|
  {
    passes == [] || (Flushed(w, passes[0]) && Passes(After(w, passes[0]), passes[1..]))
  }

  function AfterAll(w: World, passes: seq<Pass>): World
    decreases |passes|
  {
    if passes == [] then w else AfterAll(After(w, passes[0]), passes[1..])
  }

  function OpenedAll(open: seq<Owner>, passes: seq<Pass>): seq<Owner>
    decreases |passes|
  {
    if passes == [] then open else OpenedAll(Opened(open, passes[0].changes), passes[1..])
  }

  lemma TidyPass(w: World, p: Pass)
    requires Tidy(w) && Flushed(w, p)
    ensures Tidy(After(w, p)) && Owners(After(w, p).stack.layers) == Opened(Owners(w.stack.layers), p.changes)
  {
    TidyIsInOrder(w, p);
    PassFollowsOrder(w, p);
    forall id: Owner ensures TidyHook(HookOf(After(w, p), id), id) { RefAfter(w, p, id); }
  }

  /** Over any run of committed passes with nothing discarded the stack is the opening order, whatever
      order the effects of each pass ran in. */
  lemma {:induction false} StackIsOpeningOrder(w: World, passes: seq<Pass>)
    requires Tidy(w) && Passes(w, passes)
    ensures Tidy(AfterAll(w, passes))
    ensures Owners(AfterAll(w, passes).stack.layers) == OpenedAll(Owners(w.stack.layers), passes)
    decreases |passes|
  {
    if passes != [] {
      hide Tidy, Flushed, After, Opened;
      TidyPass(w, passes[0]);
      StackIsOpeningOrder(After(w, passes[0]), passes[1..]);
    }
  }

  lemma OrderFromStart(passes: seq<Pass>)
    requires Passes(START, passes)
    ensures Owners(AfterAll(START, passes).stack.layers) == OpenedAll([], passes)
  {
    assert Owners(START.stack.layers) == [];
    StackIsOpeningOrder(START, passes);
  }

  // -------------------------------------------------------------------- the key

  /** The handler a key event runs, if any. */
  function Press(w: World, e: KeyEvent): Option<Handler> {
    match Receiver(w.stack, e)
    case None => None
    case Some(l) => Some(HookOf(w, l.owner).handler)
  }

  ghost predicate Unconsumed(e: KeyEvent) {
    e.key in {"Escape", "Esc"} && !e.defaultPrevented && !e.isComposing && !e.targetGone
  }

  lemma {:induction false} RenderedHandler(w: World, pass: seq<Change>, k: nat)
    requires DistinctIds(pass) && k < |pass|
    ensures HookOf(RenderAll(w, pass), pass[k].id).handler == pass[k].handler
  {
    if k < |pass| - 1 {
      RenderedHandler(w, pass[..|pass| - 1], k);
    }
  }

  lemma {:induction false} CommitKeepsHandlers(w: World, pass: seq<Change>, id: Owner)
    ensures HookOf(CommitAll(w, pass), id).handler == HookOf(w, id).handler
  {
    if pass != [] {
      CommitKeepsHandlers(w, pass[..|pass| - 1], id);
    }
  }

  /** An unconsumed Escape runs one handler, and any other event none: after a pass in order it is that
      of the most recently opened layer, as last rendered. */
  lemma EscapeRunsNewestHandlerOfTop(w: World, p: Pass, e: KeyEvent)
    requires Between(w) && Flushed(w, p) && Undisturbed(w, p) && InOrder(w, p.changes)
    ensures var open := Opened(Owners(w.stack.layers), p.changes);
            var top := After(w, p);
            && (Press(top, e).Some? <==> Unconsumed(e) && open != [])
            && (Press(top, e).Some? ==> Press(top, e) == Some(HookOf(top, open[|open| - 1]).handler))
            && forall k :: 0 <= k < |p.changes| && Press(top, e).Some? && p.changes[k].id == open[|open| - 1] ==>
                 Press(top, e) == Some(p.changes[k].handler)
  {
    PassFollowsOrder(w, p);
    hide RenderAll, CommitAll, Run, Between, Flushed, Opened, DistinctIds, InOrder, Undisturbed;
    PressReachesTop(After(w, p), e);
    forall k | 0 <= k < |p.changes|
      ensures HookOf(After(w, p), p.changes[k].id).handler == p.changes[k].handler
    {
      NewestHandler(w, p, k);
    }
  }

  lemma PressReachesTop(w: World, e: KeyEvent)
    ensures var open := Owners(w.stack.layers);
            && (Press(w, e).Some? <==> Unconsumed(e) && open != [])
            && (Press(w, e).Some? ==> Press(w, e) == Some(HookOf(w, open[|open| - 1]).handler))
  {
  }

  lemma NewestHandler(w: World, p: Pass, k: nat)
    requires Flushed(w, p) && k < |p.changes|
    ensures HookOf(After(w, p), p.changes[k].id).handler == p.changes[k].handler
  {
    var rendered, id := RenderAll(w, p.changes), p.changes[k].id;
    RenderedHandler(w, p.changes, k);
    CommitKeepsHandlers(rendered, p.changes, id);
    EffectsKeepRefs(CommitAll(rendered, p.changes), p.effects, id);
  }

  /** A handler that closes its own layer: the pass that follows the key press. */
  function Closing(id: Owner, h: Handler): Pass {
    Pass([Change(id, false, h)], [Cleanup(id)])
  }

  /** The state after it. */
  function Closed(w: World, id: Owner, h: Handler): World {
    Do(Do(Do(w, Render(id, false, h)), Commit(id, false)), Cleanup(id))
  }

  lemma ClosingRuns(w: World, id: Owner, h: Handler)
    requires HookOf(w, id).layer.Some?
    ensures After(w, Closing(id, h)) == Closed(w, id, h)
    ensures Possible(CommitAll(RenderAll(w, Closing(id, h).changes), Closing(id, h).changes), [Cleanup(id)])
  {
    var c := Change(id, false, h);
    assert [c][..0] == [] && [Cleanup(id)][1..] == [];
    var rendered := Do(w, Render(id, false, h));
    assert RenderAll(w, [c]) == Do(RenderAll(w, []), Render(id, false, h)) == rendered;
    var committed := Do(rendered, Commit(id, false));
    assert CommitAll(rendered, [c]) == Do(CommitAll(rendered, []), Commit(id, false)) == committed;
    var done := Do(committed, Cleanup(id));
    assert Possible(done, []) && Run(done, []) == done;
  }

  lemma ClosedSettles(w: World, id: Owner, h: Handler)
    requires Settled(w) && HookOf(w, id).layer.Some?
    ensures Settled(Closed(w, id, h))
  {
    var done := Closed(w, id, h);
    forall o: Owner ensures HookOf(done, o).want <==> HookOf(done, o).layer.Some? {
      assert HookOf(w, o).want <==> HookOf(w, o).layer.Some?;
    }
  }

  /** A pass that opens nothing is in order. */
  lemma ClosingIsInOrder(w: World, id: Owner, h: Handler)
    ensures InOrder(w, Closing(id, h).changes) && Undisturbed(w, Closing(id, h))
    ensures DistinctIds(Closing(id, h).changes)
    ensures Opened(Owners(w.stack.layers), Closing(id, h).changes) == Without(Owners(w.stack.layers), id)
  {
    var c := Change(id, false, h);
    assert [c][..0] == [] && [c][0].id == id;
    assert Opened(Owners(w.stack.layers), []) == Owners(w.stack.layers);
  }

  lemma ClosingFlushes(w: World, id: Owner, h: Handler)
    requires Between(w) && id in Owners(w.stack.layers)
    ensures Flushed(w, Closing(id, h)) && Undisturbed(w, Closing(id, h)) && InOrder(w, Closing(id, h).changes)
    ensures Opened(Owners(w.stack.layers), Closing(id, h).changes) == Without(Owners(w.stack.layers), id)
  {
    SettledOwners(w);
    hide Inv, After, Closed, RenderAll, CommitAll, Possible, InOrder, Undisturbed, Opened, Without;
    assert HookOf(w, id).layer.Some?;
    ClosingRuns(w, id, h);
    ClosedSettles(w, id, h);
    ClosingIsInOrder(w, id, h);
  }

  /** The owners whose handlers run over `n` key presses, each handler closing its own layer. */
  function Presses(w: World, e: KeyEvent, n: nat): (seq<Owner>, World)
    decreases n
  {
    if n == 0 || Receiver(w.stack, e) == None then ([], w)
    else
      var id := Receiver(w.stack, e).value.owner;
      var (rest, end) := Presses(After(w, Closing(id, HookOf(w, id).handler)), e, n - 1);
      ([id] + rest, end)
  }

  function Reverse<T>(s: seq<T>): seq<T> {
    if s == [] then [] else [s[|s| - 1]] + Reverse(s[..|s| - 1])
  }

  /** The top layer's handler closes it: the others stay as they were. */
  lemma CloseTop(w: World)
    requires Between(w) && w.stack.layers != []
    ensures var open := Owners(w.stack.layers);
            var id := open[|open| - 1];
            var next := After(w, Closing(id, HookOf(w, id).handler));
            Between(next) && Owners(next.stack.layers) == open[..|open| - 1]
  {
    var open := Owners(w.stack.layers);
    var id := open[|open| - 1];
    var p := Closing(id, HookOf(w, id).handler);
    SettledOwners(w);
    ClosingFlushes(w, id, HookOf(w, id).handler);
    PassFollowsOrder(w, p);
    WithoutLast(open);
  }

  lemma WithoutLast(open: seq<Owner>)
    requires open != [] && Distinct(open)
    ensures Without(open, open[|open| - 1]) == open[..|open| - 1]
  {
    var front, id := open[..|open| - 1], open[|open| - 1];
    assert open == front + [id] + [];
    DistinctParts(front, [id]);
    assert id in [id];
    WithoutMiddle(front, [], id);
  }

  /** Escape pressed as often as there are layers closes each once, last opened first, and leaves
      no listener behind. */
  lemma {:induction false} EscapeClosesInReverse(w: World, e: KeyEvent)
    requires Between(w) && Unconsumed(e)
    ensures var (run, end) := Presses(w, e, |w.stack.layers|);
            && run == Reverse(Owners(w.stack.layers))
            && end.stack.layers == [] && !end.stack.listening && Between(end)
    decreases |w.stack.layers|
  {
    if w.stack.layers == [] {
      ClosedListener(w);
    } else {
      hide Between, After, Closing, Receiver;
      TopReceives(w, e);
      CloseTop(w);
      var open := Owners(w.stack.layers);
      var id := open[|open| - 1];
      var next := After(w, Closing(id, HookOf(w, id).handler));
      assert |next.stack.layers| == |Owners(next.stack.layers)| == |open| - 1;
      EscapeClosesInReverse(next, e);
    }
  }

  lemma ClosedListener(w: World)
    requires Between(w) && w.stack.layers == []
    ensures !w.stack.listening
  {
  }

  lemma TopReceives(w: World, e: KeyEvent)
    requires Unconsumed(e) && w.stack.layers != []
    ensures Receiver(w.stack, e).Some?
    ensures Receiver(w.stack, e).value.owner == Owners(w.stack.layers)[|w.stack.layers| - 1]
  {
  }

  // -------------------------------------------------------------- discarded renders

  lemma {:induction false} InsertedOnTop(layers: seq<Layer>, l: Layer)
    requires Sorted(layers) && forall x :: x in layers ==> x.order != l.order
    ensures |Insert(layers, l)| == |layers| + 1
    ensures Insert(layers, l)[|layers|] == l <==> forall x :: x in layers ==> x.order < l.order
  {
    if layers != [] {
      var front, top := layers[..|layers| - 1], layers[|layers| - 1];
      assert layers == front + [top] && top in layers;
      TopAbove(front, top);
      if top.order > l.order {
        TopAbove(front, top);
        InsertedOnTop(front, l);
      }
    }
  }

  /** A layer that opens alone lands on top exactly when its ref was clear, or still carries a number
      above every open layer's: a number left by a discarded render keeps its old place. */
  lemma OpensOnTop(w: World, id: Owner, h: Handler)
    requires Inv(w) && Settled(w) && !HookOf(w, id).want
    ensures var layers := After(w, Pass([Change(id, true, h)], [Effect(id)])).stack.layers;
            && |layers| == |w.stack.layers| + 1
            && (layers[|layers| - 1].owner == id <==>
                HookOf(w, id).stamp == 0 || forall l :: l in w.stack.layers ==> l.order < HookOf(w, id).stamp)
  {
    var c := Change(id, true, h);
    assert [c][..0] == [] && [Effect(id)][1..] == [];
    var rendered := Do(w, Render(id, true, h));
    assert RenderAll(w, [c]) == Do(RenderAll(w, []), Render(id, true, h)) == rendered;
    var committed := Do(rendered, Commit(id, true));
    assert CommitAll(rendered, [c]) == Do(CommitAll(rendered, []), Commit(id, true)) == committed;
    var done := Do(committed, Effect(id));
    assert Run(done, []) == done && Run(committed, [Effect(id)]) == done;
    var l := Layer(HookOf(committed, id).stamp, id);
    assert done.stack.layers == Insert(w.stack.layers, l);
    forall x | x in w.stack.layers ensures x.order != l.order && x.order <= w.stack.counter && x.owner != id {
      assert Sane(w, x.owner) && Apart(w, id, x.owner) && Sane(w, id);
    }
    InsertSorted(w.stack.layers, l);
    InsertedOnTop(w.stack.layers, l);
    assert done.stack.layers[|w.stack.layers|] in done.stack.layers;
  }

  /** A hook that is unmounted and mounted again has forgotten any number it held, and opens on top. */
  lemma RemountedOpensOnTop(w: World, id: Owner, h: Handler)
    requires Inv(w) && Settled(w) && Enabled(w, Forget(id))
    ensures var layers := After(Do(w, Forget(id)), Pass([Change(id, true, h)], [Effect(id)])).stack.layers;
            |layers| == |w.stack.layers| + 1 && layers[|layers| - 1].owner == id
  {
    StepKeepsInv(w, Forget(id));
    var w' := Do(w, Forget(id));
    assert w'.stack == w.stack && HookOf(w', id) == Hook(0, 0, false, None);
    assert forall x: Owner :: x != id ==> HookOf(w', x) == HookOf(w, x);
    hide Inv, After, Enabled, HookOf, Do;
    OpensOnTop(w', id, h);
  }

  ghost predicate Takes(w: World, s: Step, next: World) {
    Enabled(w, s) && next == Do(w, s)
  }

  /** A run, followed through its states. */
  lemma {:induction false} Follow(states: seq<World>, steps: seq<Step>)
    requires |states| == |steps| + 1
    requires forall i :: 0 <= i < |steps| ==> Takes(states[i], steps[i], states[i + 1])
    ensures Possible(states[0], steps) && Run(states[0], steps) == states[|steps|]
  {
    if steps != [] {
      assert Takes(states[0], steps[0], states[1]);
      Follow(states[1..], steps[1..]);
    }
  }

  /** Hook 1, mounted but inactive, is rendered active in a render that is thrown away. */
  function Discarded(): seq<World> {
    var off, one := Hook(0, 0, false, None), Hook(1, 0, false, None);
    [START,
     World(Stack([], 0, false), map[1 := off]),
     World(Stack([], 0, false), map[1 := off]),
     World(Stack([], 1, false), map[1 := one])]
  }

  /** Then hook 2 opens. */
  function SecondOpens(): seq<World> {
    var one, two := Hook(1, 0, false, None), Hook(2, 0, true, None);
    [World(Stack([], 2, false), map[1 := one, 2 := two.(want := false)]),
     World(Stack([], 2, false), map[1 := one, 2 := two]),
     World(Stack([Layer(2, 2)], 2, true), map[1 := one, 2 := two.(layer := Some(Layer(2, 2)))])]
  }

  /** Then hook 1 opens. */
  function FirstOpens(): seq<World> {
    var one, two := Hook(1, 0, true, None), Hook(2, 0, true, Some(Layer(2, 2)));
    [World(Stack([Layer(2, 2)], 2, true), map[1 := one.(want := false), 2 := two]),
     World(Stack([Layer(2, 2)], 2, true), map[1 := one, 2 := two]),
     World(Stack([Layer(1, 1), Layer(2, 2)], 2, true), map[1 := one.(layer := Some(Layer(1, 1))), 2 := two])]
  }

  lemma DiscardedSteps()
    ensures var s := Discarded();
            && Takes(s[0], Render(1, false, 0), s[1])
            && Takes(s[1], Commit(1, false), s[2]) && Takes(s[2], Render(1, true, 0), s[3])
  {
  }

  lemma SecondOpensSteps()
    ensures var s := SecondOpens();
            && Takes(Discarded()[3], Render(2, true, 0), s[0])
            && Takes(s[0], Commit(2, true), s[1]) && Takes(s[1], Effect(2), s[2])
  {
    assert [Layer(2, 2)] == Insert([], Layer(2, 2));
  }

  lemma FirstOpensSteps()
    ensures var s := FirstOpens();
            && Takes(SecondOpens()[2], Render(1, true, 0), s[0])
            && Takes(s[0], Commit(1, true), s[1]) && Takes(s[1], Effect(1), s[2])
  {
    assert [Layer(2, 2)][..0] == [];
    assert Insert([Layer(2, 2)], Layer(1, 1)) == [Layer(1, 1), Layer(2, 2)];
  }

  /** Escape then reaches hook 2, although hook 1 opened last. */
  lemma DiscardedRenderBreaksOrder()
    ensures var steps := [Render(1, false, 0), Commit(1, false), Render(1, true, 0),
                          Render(2, true, 0), Commit(2, true), Effect(2),
                          Render(1, true, 0), Commit(1, true), Effect(1)];
            Possible(START, steps) && Owners(Run(START, steps).stack.layers) == [1, 2]
  {
    DiscardedSteps();
    SecondOpensSteps();
    FirstOpensSteps();
    hide Takes, Run, Possible;
    var a, b, c := Discarded(), SecondOpens(), FirstOpens();
    Follow([a[0], a[1], a[2], a[3], b[0], b[1], b[2], c[0], c[1], c[2]],
           [Render(1, false, 0), Commit(1, false), Render(1, true, 0), Render(2, true, 0), Commit(2, true), Effect(2),
            Render(1, true, 0), Commit(1, true), Effect(1)]);
  }

  /** Hook 7, mounted but inactive, was rendered active in a render that was thrown away; nothing is
      open, so it would open on top alone. */
  const STALE := World(Stack([], 1, false), map[7 := Hook(1, 0, false, None)])

  /** Now it opens in one pass with hook 3, its parent, which is rendered first. */
  const TOGETHER := Pass([Change(3, true, 0), Change(7, true, 0)], [Effect(7), Effect(3)])

  lemma StaleIsReached()
    ensures var steps := [Render(7, false, 0), Commit(7, false), Render(7, true, 0)];
            Possible(START, steps) && Run(START, steps) == STALE
  {
    var w := World(Stack([], 0, false), map[7 := Hook(0, 0, false, None)]);
    assert Takes(START, Render(7, false, 0), w) && Takes(w, Commit(7, false), w) && Takes(w, Render(7, true, 0), STALE);
    hide Takes;
    Follow([START, w, w, STALE], [Render(7, false, 0), Commit(7, false), Render(7, true, 0)]);
  }

  lemma StaleIsBetween()
    ensures Between(STALE)
  {
    StaleIsReached();
    hide Run, Possible;
    RunKeepsInv(START, [Render(7, false, 0), Commit(7, false), Render(7, true, 0)]);
  }

  /** The refs after the pass has committed: the child's number is the older one. */
  function TogetherCommitted(): World {
    World(Stack([], 2, false), map[3 := Hook(2, 0, true, None), 7 := Hook(1, 0, true, None)])
  }

  lemma TogetherCommits()
    ensures CommitAll(RenderAll(STALE, TOGETHER.changes), TOGETHER.changes) == TogetherCommitted()
  {
    var c, d := Change(3, true, 0), Change(7, true, 0);
    var r := Do(STALE, Render(3, true, 0));
    assert [c, d][..1] == [c] && [c][..0] == [];
    assert RenderAll(STALE, [c]) == Do(RenderAll(STALE, []), Render(3, true, 0)) == r;
    var rendered := Do(r, Render(7, true, 0));
    assert RenderAll(STALE, [c, d]) == rendered;
    assert CommitAll(rendered, [c]) == Do(CommitAll(rendered, []), Commit(3, true));
    assert CommitAll(rendered, [c, d]) == Do(Do(rendered, Commit(3, true)), Commit(7, true));
  }

  function TogetherDone(): seq<World> {
    var three, seven := Hook(2, 0, true, None), Hook(1, 0, true, Some(Layer(1, 7)));
    [TogetherCommitted(),
     World(Stack([Layer(1, 7)], 2, true), map[3 := three, 7 := seven]),
     World(Stack([Layer(1, 7), Layer(2, 3)], 2, true), map[3 := three.(layer := Some(Layer(2, 3))), 7 := seven])]
  }

  lemma TogetherFlushes()
    ensures var s := TogetherDone(); Takes(s[0], Effect(7), s[1]) && Takes(s[1], Effect(3), s[2])
    ensures Settled(TogetherDone()[2])
  {
    assert [Layer(1, 7)] == Insert([], Layer(1, 7));
    assert [Layer(1, 7)][..1] == [Layer(1, 7)];
  }

  lemma TogetherRuns()
    ensures var s := TogetherDone(); Possible(s[0], TOGETHER.effects) && Run(s[0], TOGETHER.effects) == s[2]
    ensures Flushed(STALE, TOGETHER) && After(STALE, TOGETHER) == TogetherDone()[2]
  {
    TogetherCommits();
    TogetherFlushes();
    hide Takes, RenderAll, CommitAll, Settled;
    Follow(TogetherDone(), TOGETHER.effects);
  }

  lemma TogetherOutOfOrder()
    ensures Undisturbed(STALE, TOGETHER) && !InOrder(STALE, TOGETHER.changes)
  {
    assert Opens(STALE, TOGETHER.changes, 0) && Opens(STALE, TOGETHER.changes, 1);
    assert !Above(STALE, TOGETHER.changes, 1);
  }

  lemma TogetherOpened()
    ensures Opened([], TOGETHER.changes) == [3, 7]
  {
    var c, d := Change(3, true, 0), Change(7, true, 0);
    assert [c, d][..1] == [c] && [c][..0] == [];
    assert Opened([], [c]) == OpenOne(Opened([], []), c) == [3];
  }

  /** The parent then lies above its child, although the child should be above. */
  lemma StaleChildOpensBelow()
    ensures Between(STALE) && Flushed(STALE, TOGETHER) && Undisturbed(STALE, TOGETHER)
    ensures !InOrder(STALE, TOGETHER.changes)
    ensures Owners(After(STALE, TOGETHER).stack.layers) == [7, 3]
    ensures Opened(Owners(STALE.stack.layers), TOGETHER.changes) == [3, 7]
  {
    hide Between, InOrder, Undisturbed, Flushed, After, Opened;
    StaleIsBetween();
    TogetherOutOfOrder();
    TogetherOpened();
    TogetherRuns();
    assert Owners(STALE.stack.layers) == [];
  }
}
