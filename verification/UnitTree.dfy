/** The business-unit tree: the server's depth-first list, the picker that hides a unit's
    descendants, the server's own cycle guard, and what the two guards do for the tree.

    A table holds the parent link of every unit ever created; `rows` are the units that are
    not archived, in the order the query returned them. */
module UnitTree {
  import opened Lists

  /** A UUID, only ever compared for equality. */
  type Id = nat

  /** Unit to parent. A unit with no entry has no parent. */
  type Parents = map<Id, Option<Id>>

  function ParentOf(par: Parents, x: Id): Option<Id> {
    if x in par then par[x] else None
  }

  /** The unit `steps` parent links above `x`. */
  function Up(par: Parents, x: Id, steps: nat): Option<Id>
    decreases steps
  {
    if steps == 0 then Some(x)
    else
      match ParentOf(par, x)
      case None => None
      case Some(p) => Up(par, p, steps - 1)
  }

  ghost predicate Reaches(par: Parents, x: Id, y: Id) {
    exists n: nat :: Up(par, x, n) == Some(y)
  }

  ghost predicate Acyclic(par: Parents) {
    forall x: Id, n: nat :: n > 0 ==> Up(par, x, n) != Some(x)
  }

  // ------------------------------------------------------------- parent chains

  lemma {:induction false} UpAdd(par: Parents, x: Id, m: nat, n: nat)
    ensures Up(par, x, m + n) == match Up(par, x, m) case None => None case Some(y) => Up(par, y, n)
    decreases m
  {
    if m > 0 {
      match ParentOf(par, x)
      case None =>
      case Some(p) => UpAdd(par, p, m - 1, n);
    }
  }

  lemma UpNext(par: Parents, x: Id, n: nat)
    ensures Up(par, x, n + 1) == match Up(par, x, n) case None => None case Some(y) => ParentOf(par, y)
  {
    UpAdd(par, x, n, 1);
    if Up(par, x, n).Some? {
      var y := Up(par, x, n).value;
      assert Up(par, y, 1) == match ParentOf(par, y) case None => None case Some(p) => Up(par, p, 0);
    }
  }

  /** One more link: `x` reaches `y` exactly when it is `y` or its parent reaches `y`. */
  lemma ReachesStep(par: Parents, x: Id, y: Id)
    ensures Reaches(par, x, y) <==>
            x == y || (ParentOf(par, x).Some? && Reaches(par, ParentOf(par, x).value, y))
  {
    assert Up(par, x, 0) == Some(x);
    if Reaches(par, x, y) && x != y {
      var n: nat :| Up(par, x, n) == Some(y);
      assert Up(par, ParentOf(par, x).value, n - 1) == Some(y);
    }
    if ParentOf(par, x).Some? && Reaches(par, ParentOf(par, x).value, y) {
      var n: nat :| Up(par, ParentOf(par, x).value, n) == Some(y);
      assert Up(par, x, n + 1) == Some(y);
    }
  }

  /** A chain that repeats never shows anything it did not show before repeating. */
  lemma {:induction false} Periodic(par: Parents, x: Id, k: nat, n: nat, m: nat)
    requires k < n
    requires Up(par, x, k) == Up(par, x, n)
    ensures exists i: nat :: i < n && Up(par, x, i) == Up(par, x, m)
    decreases m
  {
    if m >= n {
      UpAdd(par, x, n, m - n);
      UpAdd(par, x, k, m - n);
      Periodic(par, x, k, n, k + (m - n));
    }
  }

  ghost predicate Visited(par: Parents, x: Id, n: nat, y: Id) {
    exists k: nat :: k < n && Up(par, x, k) == Some(y)
  }

  lemma RepeatIsCyclic(par: Parents, x: Id, n: nat, y: Id)
    requires Up(par, x, n) == Some(y) && Visited(par, x, n, y)
    ensures !Acyclic(par)
  {
    var k: nat :| k < n && Up(par, x, k) == Some(y);
    UpAdd(par, x, k, n - k);
    assert Up(par, y, n - k) == Some(y);
  }

  lemma VisitedNext(par: Parents, x: Id, n: nat, y: Id)
    requires Visited(par, x, n, y) || Up(par, x, n) == Some(y)
    ensures Visited(par, x, n + 1, y)
  {
  }

  /** An unbounded chain inside a finite set of units closes on itself. */
  lemma {:induction false} TrappedChainIsCyclic(par: Parents, inside: set<Id>, x: Id, n: nat, visited: set<Id>)
    requires forall y :: y in inside ==> ParentOf(par, y).Some? && ParentOf(par, y).value in inside
    requires visited <= inside && |visited| == n
    requires forall y :: y in visited ==> Visited(par, x, n, y)
    requires Up(par, x, n).Some? && Up(par, x, n).value in inside
    ensures !Acyclic(par)
    decreases |inside| - n
  {
    var c := Up(par, x, n).value;
    if c in visited {
      RepeatIsCyclic(par, x, n, c);
    } else {
      var more := visited + {c};
      Subset(more, inside);
      UpNext(par, x, n);
      forall y | y in more ensures Visited(par, x, n + 1, y) {
        VisitedNext(par, x, n, y);
      }
      TrappedChainIsCyclic(par, inside, x, n + 1, more);
    }
  }

  lemma {:induction false} Subset(a: set<Id>, b: set<Id>)
    requires a <= b
    ensures |a| <= |b|
  {
    if a != {} {
      var x :| x in a;
      Subset(a - {x}, b - {x});
    }
  }

  // ------------------------------------------------------------------ the table

  datatype Table = Table(parent: Parents, rows: seq<Id>) {
    ghost predicate Valid() {
      && Distinct(rows) && (forall id :: id in rows ==> id in parent)
      && forall id :: id in parent && parent[id].Some? ==> parent[id].value in parent
    }

    /** The parent the flattened list shows: a unit whose parent is missing, archived or
        itself is shown as a root. */
    function ShownParent(id: Id): Option<Id> {
      var p := ParentOf(parent, id);
      if p.Some? && p.value in rows && p.value != id then p else None
    }

    function ShownLinks(): Parents {
      map id | id in rows :: ShownParent(id)
    }

    function Roots(): seq<Id> {
      Filter(rows, id => ShownParent(id) == None)
    }

    function Children(id: Id): seq<Id> {
      Filter(rows, c => ShownParent(c) == Some(id))
    }
  }

  /** One line of the list the picker receives. */
  datatype Pick = Pick(id: Id, parent: Option<Id>, depth: nat)

  function Ids(list: seq<Pick>): set<Id> {
    set i | 0 <= i < |list| :: list[i].id
  }

  ghost predicate DistinctIds(list: seq<Pick>) {
    forall i, j :: 0 <= i < j < |list| ==> list[i].id != list[j].id
  }

  ghost function LinksOf(list: seq<Pick>): Parents
    requires DistinctIds(list)
  {
    map i | 0 <= i < |list| :: list[i].id := list[i].parent
  }

  /** Line `i` is `p`, one level above `depth`, and nothing after it climbs back above `depth`:
      a line added at `depth` now reads as a child of `p`. */
  ghost predicate Opens(list: seq<Pick>, i: int, p: Id, depth: nat) {
    0 <= i < |list| && list[i].id == p && list[i].depth + 1 == depth
    && forall k :: i < k < |list| ==> list[k].depth >= depth
  }

  /** The indentation tells the truth: every line's parent is the nearest line above it with
      one level less, and a line without a parent is not indented. */
  ghost predicate Outline(list: seq<Pick>) {
    forall j :: 0 <= j < |list| ==>
      if list[j].parent == None then list[j].depth == 0
      else exists i :: Opens(list[..j], i, list[j].parent.value, list[j].depth)
  }

  /** What a list produced from `t` satisfies, whatever the data. */
  ghost predicate Flattens(t: Table, list: seq<Pick>) {
    && DistinctIds(list) && Outline(list)
    && Ids(list) <= ToSet(t.rows)
    && forall i :: 0 <= i < |list| ==> list[i].parent == None || list[i].parent == t.ShownParent(list[i].id)
  }

  /** In an outline a parent stands above its children. */
  lemma ParentAbove(list: seq<Pick>, j: nat)
    requires Outline(list) && j < |list| && list[j].parent.Some?
    ensures exists i :: 0 <= i < j && list[i].id == list[j].parent.value && list[i].depth < list[j].depth
  {
    var i :| Opens(list[..j], i, list[j].parent.value, list[j].depth);
    assert list[..j][i] == list[i];
  }

  /** Lines of `list` from `start` on show their real parent. */
  ghost predicate Exact(t: Table, list: seq<Pick>, start: nat) {
    forall k :: start <= k < |list| ==> list[k].parent == t.ShownParent(list[k].id)
  }

  ghost predicate Deep(list: seq<Pick>, start: nat, depth: nat) {
    forall k :: start <= k < |list| ==> list[k].depth >= depth
  }

  /** Every child of a unit in `part` is in `seen`. */
  ghost predicate Closed(t: Table, part: set<Id>, seen: set<Id>) {
    forall c :: c in t.rows && t.ShownParent(c).Some? && t.ShownParent(c).value in part ==> c in seen
  }

  /** How far the walk has come: the lines written and the units they list. */
  datatype Progress = Progress(out: seq<Pick>, seen: set<Id>) {
    ghost predicate Valid(t: Table) {
      Flattens(t, out) && seen == Ids(out)
    }
  }

  /** From `a` to `b` the walk only added whole subtrees at `depth` or deeper, and with their
      real parents when `exact`. */
  ghost predicate Grown(t: Table, a: Progress, b: Progress, depth: nat, exact: bool) {
    && a.out <= b.out && a.seen <= b.seen
    && Deep(b.out, |a.out|, depth)
    && Closed(t, b.seen - a.seen, b.seen)
    && (exact ==> Exact(t, b.out, |a.out|))
  }

  lemma GrownNot(t: Table, a: Progress, depth: nat, exact: bool)
    ensures Grown(t, a, a, depth, exact)
  {
  }

  lemma GrownJoin(t: Table, a: Progress, b: Progress, c: Progress, depth: nat, exact: bool)
    requires Grown(t, a, b, depth, exact) && Grown(t, b, c, depth, exact)
    ensures Grown(t, a, c, depth, exact)
  {
    assert c.seen - a.seen <= (c.seen - b.seen) + (b.seen - a.seen);
  }

  /** A new line, then all its children one level deeper, is a whole subtree. */
  lemma GrownSubtree(t: Table, a: Progress, line: Pick, c: Progress)
    requires Grown(t, Progress(a.out + [line], a.seen + {line.id}), c, line.depth + 1, true)
    requires forall x :: x in t.Children(line.id) ==> x in c.seen
    ensures line.id in c.seen
    ensures Grown(t, a, c, line.depth, line.parent == t.ShownParent(line.id))
  {
    var b := Progress(a.out + [line], a.seen + {line.id});
    forall x | x in t.rows && t.ShownParent(x).Some? && t.ShownParent(x).value in c.seen - a.seen
      ensures x in c.seen
    {
      if t.ShownParent(x).value == line.id { assert x in t.Children(line.id); }
      else { assert t.ShownParent(x).value in c.seen - b.seen; }
    }
    assert b.out[|a.out|] == line;
  }

  lemma GrownChildren(t: Table, a: Progress, line: Pick, b: Progress, c: Progress, rank: Id -> int)
    requires b == Progress(a.out + [line], a.seen + {line.id})
    requires var children := SortBy(t.Children(line.id), rank);
             Grown(t, b, c, line.depth + 1, Siblings(t, children, Some(line.id))) && AllIn(children, c.seen)
    ensures line.id in c.seen
    ensures Grown(t, a, c, line.depth, line.parent == t.ShownParent(line.id))
  {
    var children := SortBy(t.Children(line.id), rank);
    assert Siblings(t, children, Some(line.id));
    assert Grown(t, b, c, line.depth + 1, true);
    hide Grown;
    GrownSubtree(t, a, line, c);
  }

  /** Lines under the same parent stand in the order of `rank`; lines without a parent only
      when `roots`. */
  ghost predicate ByName(list: seq<Pick>, rank: Id -> int, roots: bool) {
    forall i, j :: 0 <= i < j < |list| && list[i].parent == list[j].parent && (list[i].parent.Some? || roots) ==>
      rank(list[i].id) <= rank(list[j].id)
  }

  /** A line for `id` under `parent` may be added at the end of `list`. */
  ghost predicate ComesNext(list: seq<Pick>, rank: Id -> int, roots: bool, parent: Option<Id>, id: Id) {
    parent.Some? || roots ==> forall k :: 0 <= k < |list| && list[k].parent == parent ==> rank(list[k].id) <= rank(id)
  }

  /** The lines added from `a` to `b` are for `ids` under `parent`, or stand under one another. */
  ghost predicate Added(a: Progress, b: Progress, parent: Option<Id>, ids: seq<Id>) {
    && a.out <= b.out && a.seen <= b.seen
    && forall k :: |a.out| <= k < |b.out| ==>
         if b.out[k].parent == parent then b.out[k].id in ids
         else b.out[k].parent.Some? && b.out[k].parent.value !in a.seen
  }

  ghost predicate AllComeNext(list: seq<Pick>, rank: Id -> int, roots: bool, parent: Option<Id>, ids: seq<Id>) {
    forall id :: id in ids ==> ComesNext(list, rank, roots, parent, id)
  }

  ghost predicate AllIn(ids: seq<Id>, units: set<Id>) {
    forall id :: id in ids ==> id in units
  }

  lemma PushByName(list: seq<Pick>, rank: Id -> int, roots: bool, line: Pick)
    requires ByName(list, rank, roots) && ComesNext(list, rank, roots, line.parent, line.id)
    ensures ByName(list + [line], rank, roots)
  {
  }

  /** A unit just listed has no lines under it yet. */
  lemma NoChildYet(t: Table, a: Progress, rank: Id -> int, roots: bool, line: Pick, children: seq<Id>)
    requires a.Valid(t) && line.id !in a.seen && (line.parent.Some? ==> line.parent.value in a.seen)
    ensures AllComeNext(a.out + [line], rank, roots, Some(line.id), children)
  {
    forall k | 0 <= k < |a.out| ensures a.out[k].parent != Some(line.id) {
      if a.out[k].parent.Some? {
        ParentAbove(a.out, k);
        var i :| 0 <= i < k && a.out[i].id == a.out[k].parent.value;
        assert a.out[i].id in Ids(a.out);
      }
    }
  }

  lemma OpensSeen(t: Table, a: Progress, spot: int, parent: Id, depth: nat)
    requires a.Valid(t) && Opens(a.out, spot, parent, depth)
    ensures parent in a.seen
  {
  }

  /** A line and all that was added under it. */
  lemma AddedSubtree(a: Progress, line: Pick, b: Progress, c: Progress, children: seq<Id>)
    requires b == Progress(a.out + [line], a.seen + {line.id})
    requires line.id !in a.seen && (line.parent.Some? ==> line.parent.value in a.seen)
    requires Added(b, c, Some(line.id), children)
    ensures Added(a, c, line.parent, [line.id])
  {
    assert c.out[|a.out|] == b.out[|a.out|];
  }

  /** After the lines for some siblings, the next one may be added. */
  lemma NextSibling(a: Progress, b: Progress, rank: Id -> int, roots: bool, parent: Option<Id>, ids: seq<Id>, i: nat)
    requires i < |ids| && SortedBy(ids, rank) && Added(a, b, parent, ids[..i])
    requires ComesNext(a.out, rank, roots, parent, ids[i])
    ensures ComesNext(b.out, rank, roots, parent, ids[i])
  {
    forall k | 0 <= k < |b.out| && b.out[k].parent == parent && (parent.Some? || roots)
      ensures rank(b.out[k].id) <= rank(ids[i])
    {
      if k < |a.out| {
        assert b.out[k] == a.out[k];
      } else {
        var j :| 0 <= j < i && ids[..i][j] == b.out[k].id;
        assert ids[j] == b.out[k].id;
      }
    }
  }

  lemma AddedNot(a: Progress, parent: Option<Id>, ids: seq<Id>)
    ensures Added(a, a, parent, ids)
  {
  }

  lemma AddedJoin(a: Progress, b: Progress, c: Progress, parent: Option<Id>, ids: seq<Id>, id: Id)
    requires Added(a, b, parent, ids) && Added(b, c, parent, [id])
    ensures Added(a, c, parent, ids + [id])
  {
    forall k | |a.out| <= k < |c.out|
      ensures if c.out[k].parent == parent then c.out[k].id in ids + [id]
              else c.out[k].parent.Some? && c.out[k].parent.value !in a.seen
    {
      if k < |b.out| { assert c.out[k] == b.out[k]; }
    }
  }

  ghost predicate Siblings(t: Table, ids: seq<Id>, parent: Option<Id>) {
    forall id :: id in ids ==> t.ShownParent(id) == parent
  }

  lemma ChildrenAreSiblings(t: Table, id: Id, children: seq<Id>)
    requires forall x :: x in children <==> x in t.Children(id)
    ensures Siblings(t, children, Some(id))
    ensures forall x :: x in children ==> x in t.rows
    ensures forall x :: x in t.Children(id) ==> x in children
  {
  }

  lemma IdsAppend(list: seq<Pick>, line: Pick)
    ensures Ids(list + [line]) == Ids(list) + {line.id}
  {
    var more := list + [line];
    forall x | x in Ids(list) + {line.id} ensures x in Ids(more) {
      if x == line.id {
        assert more[|list|].id == x;
      } else {
        var i :| 0 <= i < |list| && list[i].id == x;
        assert more[i].id == x;
      }
    }
  }

  lemma Push(t: Table, a: Progress, line: Pick, spot: int)
    requires a.Valid(t) && line.id in t.rows && line.id !in a.seen
    requires if line.parent == None then line.depth == 0
             else line.parent == t.ShownParent(line.id) && Opens(a.out, spot, line.parent.value, line.depth)
    ensures Progress(a.out + [line], a.seen + {line.id}).Valid(t)
    ensures Opens(a.out + [line], |a.out|, line.id, line.depth + 1)
  {
    var list, more := a.out, a.out + [line];
    forall j | 0 <= j < |more|
      ensures if more[j].parent == None then more[j].depth == 0
              else exists i :: Opens(more[..j], i, more[j].parent.value, more[j].depth)
    {
      if j < |list| { assert more[..j] == list[..j]; } else { assert more[..j] == list; }
    }
    IdsAppend(list, line);
  }

  lemma StillOpens(list: seq<Pick>, more: seq<Pick>, i: int, p: Id, depth: nat)
    requires Opens(list, i, p, depth) && list <= more && Deep(more, |list|, depth)
    ensures Opens(more, i, p, depth)
  {
  }

  lemma {:induction false} Smaller(a: set<Id>, b: set<Id>)
    requires a < b
    ensures |a| < |b|
  {
    var x :| x in b && x !in a;
    Subset(a, b - {x});
  }

  /** All that a unit's line needs, and all that its children need once it is written. */
  lemma Enter(t: Table, a: Progress, line: Pick, spot: int, rank: Id -> int, roots: bool, children: seq<Id>)
    requires a.Valid(t) && line.id in t.rows && line.id !in a.seen
    requires if line.parent == None then line.depth == 0
             else line.parent == t.ShownParent(line.id) && Opens(a.out, spot, line.parent.value, line.depth)
    requires ByName(a.out, rank, roots) && ComesNext(a.out, rank, roots, line.parent, line.id)
    requires children == SortBy(t.Children(line.id), rank)
    ensures var out, seen := a.out + [line], a.seen + {line.id};
            && Progress(out, seen).Valid(t) && Opens(out, |a.out|, line.id, line.depth + 1)
            && ByName(out, rank, roots) && AllComeNext(out, rank, roots, Some(line.id), children)
            && |ToSet(t.rows) - seen| < |ToSet(t.rows) - a.seen|
    ensures Siblings(t, children, Some(line.id)) && SortedBy(children, rank)
    ensures AllIn(children, ToSet(t.rows))
    ensures line.parent.Some? ==> line.parent.value in a.seen
  {
    hide Progress.Valid, Opens, Table.ShownParent, SortBy, ByName, ComesNext, AllComeNext, SortedBy, Siblings;
    Push(t, a, line, spot);
    if line.parent.Some? { OpensSeen(t, a, spot, line.parent.value, line.depth); }
    PushByName(a.out, rank, roots, line);
    Smaller(ToSet(t.rows) - (a.seen + {line.id}), ToSet(t.rows) - a.seen);
    SortBySorts(t.Children(line.id), rank);
    ChildrenAreSiblings(t, line.id, children);
    NoChildYet(t, a, rank, roots, line, children);
  }

  /** What the walk of a unit has added once its children have been walked. */
  lemma Leave(t: Table, a: Progress, line: Pick, b: Progress, c: Progress, rank: Id -> int)
    requires b == Progress(a.out + [line], a.seen + {line.id})
    requires line.id !in a.seen && (line.parent.Some? ==> line.parent.value in a.seen)
    requires var children := SortBy(t.Children(line.id), rank);
             && Grown(t, b, c, line.depth + 1, Siblings(t, children, Some(line.id))) && AllIn(children, c.seen)
             && Added(b, c, Some(line.id), children)
    ensures line.id in c.seen && Grown(t, a, c, line.depth, line.parent == t.ShownParent(line.id))
    ensures Added(a, c, line.parent, [line.id])
  {
    GrownChildren(t, a, line, b, c, rank);
    AddedSubtree(a, line, b, c, SortBy(t.Children(line.id), rank));
  }

  // ------------------------------------------------------------ server: flatten

  /** The depth-first walk of `flatten_tree`, which fills `out` and `seen` as it goes. `rank`
      is the case-insensitive order of the units' names. */
  class Flattener {
    const table: Table
    const rank: Id -> int
    var out: seq<Pick>
    var seen: set<Id>

    constructor (table: Table, rank: Id -> int)
      requires table.Valid()
      ensures this.table == table && this.rank == rank
      ensures out == [] && seen == {}
    {
      this.table := table;
      this.rank := rank;
      out, seen := [], {};
    }

    ghost function Now(): Progress
      reads this
    {
      Progress(out, seen)
    }

    ghost function Unseen(): nat
      reads this
    {
      |ToSet(table.rows) - seen|
    }

    /** List `id` and everything under it; `spot` is the line of its parent. */
    method Walk(id: Id, depth: nat, parent: Option<Id>, ghost spot: int, ghost roots: bool)
      requires Now().Valid(table) && id in table.rows
      requires if parent == None then depth == 0
               else parent == table.ShownParent(id) && Opens(out, spot, parent.value, depth)
      requires ByName(out, rank, roots) && ComesNext(out, rank, roots, parent, id)
      modifies this`out, this`seen
      ensures Now().Valid(table)
      ensures id in seen && Grown(table, old(Now()), Now(), depth, parent == table.ShownParent(id))
      ensures ByName(out, rank, roots) && Added(old(Now()), Now(), parent, [id])
      decreases Unseen(), 0
    {
      hide Progress.Valid, Opens, Table.ShownParent, Grown, Siblings, SortBy, Filter;
      hide ByName, ComesNext, AllComeNext, AllIn, Added, SortedBy, Table.Children, ToSet;
      if id in seen {
        GrownNot(table, Now(), depth, parent == table.ShownParent(id));
        AddedNot(Now(), parent, [id]);
        return;
      }
      ghost var was := Now();
      var line := Pick(id, parent, depth);
      var children := SortBy(table.Children(id), rank);
      Enter(table, was, line, spot, rank, roots, children);
      out, seen := out + [line], seen + {id};
      ghost var mid := Now();
      assert mid == Progress(was.out + [line], was.seen + {line.id});
      WalkAll(children, depth + 1, Some(id), |was.out|, roots);
      Leave(table, was, line, mid, Now(), rank);
    }

    /** The walk over sorted siblings, which is also the walk over the roots and over what no
        root reached. */
    method WalkAll(ids: seq<Id>, depth: nat, parent: Option<Id>, ghost spot: int, ghost roots: bool)
      requires Now().Valid(table) && AllIn(ids, ToSet(table.rows))
      requires if parent == None then depth == 0
               else Opens(out, spot, parent.value, depth) && Siblings(table, ids, parent)
      requires ByName(out, rank, roots) && SortedBy(ids, rank)
      requires AllComeNext(out, rank, roots, parent, ids)
      modifies this`out, this`seen
      ensures Now().Valid(table) && AllIn(ids, seen)
      ensures Grown(table, old(Now()), Now(), depth, Siblings(table, ids, parent))
      ensures ByName(out, rank, roots) && Added(old(Now()), Now(), parent, ids)
      decreases Unseen(), 1
    {
      hide Progress.Valid, Opens, Table.ShownParent;
      hide ByName, ComesNext, Added, SortedBy;
      ghost var was := Now();
      ghost var exact := Siblings(table, ids, parent);
      GrownNot(table, was, depth, exact);
      AddedNot(was, parent, []);
      assert ids[..0] == [];
      for i := 0 to |ids|
        invariant Now().Valid(table)
        invariant parent != None ==> Opens(out, spot, parent.value, depth)
        invariant forall j :: 0 <= j < i ==> ids[j] in seen
        invariant Grown(table, was, Now(), depth, exact)
        invariant ByName(out, rank, roots) && Added(was, Now(), parent, ids[..i])
      {
        ghost var before := Now();
        assert ids[i] in ids;
        Subset(ToSet(table.rows) - seen, ToSet(table.rows) - was.seen);
        NextSibling(was, before, rank, roots, parent, ids, i);
        Walk(ids[i], depth, parent, spot, roots);
        GrownJoin(table, was, before, Now(), depth, exact);
        AddedJoin(was, before, Now(), parent, ids[..i], ids[i]);
        assert ids[..i] + [ids[i]] == ids[..i + 1];
        if parent != None { StillOpens(before.out, out, spot, parent.value, depth); }
      }
      assert ids[..|ids|] == ids;
    }
  }

  /** What the picker's list satisfies: every unit once, the indentation true, and every real
      parent link shown whenever the links have no cycle. */
  ghost predicate Listing(t: Table, list: seq<Pick>) {
    && Flattens(t, list) && Ids(list) == ToSet(t.rows)
    && (Acyclic(t.ShownLinks()) ==> LinksOf(list) == t.ShownLinks())
  }

  /** Siblings stand in the order of `rank`: children of a common parent always, and roots whenever
      the links have no cycle. */
  method Flatten(t: Table, rank: Id -> int) returns (list: seq<Pick>)
    requires t.Valid()
    ensures Listing(t, list)
    ensures ByName(list, rank, Acyclic(t.ShownLinks()))
  {
    hide Flattens, Grown, Table.ShownParent, Table.ShownLinks, Acyclic, SortedBy, Added, SortBy, Filter, Progress.Valid;
    var walk := new Flattener(t, rank);
    ghost var start := walk.Now();
    var roots := SortBy(t.Roots(), rank);
    SortBySorts(t.Roots(), rank);
    Empty(t);
    walk.WalkAll(roots, 0, None, 0, true);
    ghost var first := walk.Now();
    var reached := walk.seen;
    var unreached := Filter(t.rows, id => id !in reached);
    var left := SortBy(unreached, rank);
    SortBySorts(unreached, rank);
    walk.WalkAll(left, 0, None, 0, false);
    list := walk.out;
    TwoPasses(t, roots, left, start, first, walk.Now());
  }

  lemma Empty(t: Table)
    ensures Progress([], {}).Valid(t)
  {
  }

  /** The pass over the roots, then the pass over what it left. */
  lemma TwoPasses(t: Table, roots: seq<Id>, left: seq<Id>, start: Progress, first: Progress, last: Progress)
    requires t.Valid() && start == Progress([], {}) && first.Valid(t) && last.Valid(t)
    requires forall id :: id in roots <==> id in t.Roots()
    requires Grown(t, start, first, 0, Siblings(t, roots, None))
    requires Grown(t, first, last, 0, Siblings(t, left, None))
    requires forall id :: id in roots ==> id in first.seen
    requires forall id :: id in t.rows && id !in first.seen ==> id in last.seen
    ensures Listing(t, last.out) && (Acyclic(t.ShownLinks()) ==> last.out == first.out)
  {
    assert Ids(last.out) == ToSet(t.rows);
    if Acyclic(t.ShownLinks()) {
      assert first.seen - start.seen == first.seen;
      AllReached(t, first.seen);
      Complete(t, first, last);
      assert Exact(t, first.out, 0);
      ExactLinks(t, last.out);
    }
  }

  /** Once every unit is listed no line can be added. */
  lemma Complete(t: Table, a: Progress, b: Progress)
    requires a.Valid(t) && b.Valid(t) && a.out <= b.out && ToSet(t.rows) <= a.seen
    ensures a.out == b.out
  {
    if |a.out| < |b.out| { Listed(t, a, b, |a.out|); }
  }

  lemma Listed(t: Table, a: Progress, b: Progress, k: nat)
    requires a.Valid(t) && b.Valid(t) && a.out <= b.out && ToSet(t.rows) <= a.seen && k < |b.out|
    ensures k < |a.out|
  {
    assert b.out[k].id in Ids(b.out);
    var i :| 0 <= i < |a.out| && a.out[i].id == b.out[k].id;
    assert b.out[i] == a.out[i];
  }

  lemma ExactLinks(t: Table, list: seq<Pick>)
    requires DistinctIds(list) && Ids(list) == ToSet(t.rows) && Exact(t, list, 0)
    ensures LinksOf(list) == t.ShownLinks()
  {
    var links := LinksOf(list);
    assert links.Keys == Ids(list);
    forall id | id in t.rows ensures id in links && links[id] == t.ShownParent(id) {
      assert id in Ids(list);
      var i :| 0 <= i < |list| && list[i].id == id;
    }
  }

  /** Without a cycle, a set of units that holds every root and is closed under children holds
      every unit. */
  lemma AllReached(t: Table, seen: set<Id>)
    requires Acyclic(t.ShownLinks()) && Closed(t, seen, seen)
    requires forall id :: id in t.Roots() ==> id in seen
    ensures forall id :: id in t.rows ==> id in seen
  {
    var inside := ToSet(t.rows) - seen;
    forall id | id in inside
      ensures ParentOf(t.ShownLinks(), id).Some? && ParentOf(t.ShownLinks(), id).value in inside
    {
      assert id in t.rows;
      assert t.ShownParent(id) == None ==> id in t.Roots();
    }
    forall id | id in t.rows ensures id in seen {
      if id !in seen { TrappedChainIsCyclic(t.ShownLinks(), inside, id, 0, {}); }
    }
  }

  // -------------------------------------------------- picker: descendants of a unit

  /** In an outline, the links above a line lead only to lines above it. */
  lemma {:induction false} LinksLeadUp(list: seq<Pick>, j: nat, n: nat) returns (i: nat)
    requires DistinctIds(list) && Outline(list) && j < |list| && n > 0
    requires Up(LinksOf(list), list[j].id, n).Some?
    ensures i < j && Up(LinksOf(list), list[j].id, n) == Some(list[i].id)
    decreases n
  {
    ParentAbove(list, j);
    i :| 0 <= i < j && list[i].id == list[j].parent.value;
    if n > 1 {
      i := LinksLeadUp(list, i, n - 1);
    } else {
      assert Up(LinksOf(list), list[i].id, 0) == Some(list[i].id);
    }
  }

  /** The links an outline shows never form a cycle, so a list is complete only for data
      without one. */
  lemma OutlineIsAcyclic(list: seq<Pick>)
    requires DistinctIds(list) && Outline(list)
    ensures Acyclic(LinksOf(list))
  {
    var links := LinksOf(list);
    forall x: Id, n: nat | n > 0 ensures Up(links, x, n) != Some(x) {
      if Up(links, x, n) == Some(x) {
        assert x in links;
        var j :| 0 <= j < |list| && list[j].id == x;
        var i := LinksLeadUp(list, j, n);
      }
    }
  }

  /** The list shows every parent link exactly when the links have no cycle. */
  lemma ListingIsExact(t: Table, list: seq<Pick>)
    requires Listing(t, list)
    ensures LinksOf(list) == t.ShownLinks() <==> Acyclic(t.ShownLinks())
  {
    OutlineIsAcyclic(list);
  }

  /** `root` and the listed units whose parent links lead to it. */
  ghost function Under(list: seq<Pick>, root: Id): set<Id>
    requires DistinctIds(list)
  {
    {root} + set x | x in Ids(list) && Reaches(LinksOf(list), x, root)
  }

  /** One line of the pass: a unit is under `root` if its parent is, and in an outline only if
      it is `root` or its parent stands above it and is. */
  lemma UnderStep(list: seq<Pick>, i: nat, root: Id)
    requires DistinctIds(list) && i < |list|
    ensures list[i].parent.Some? && list[i].parent.value in Under(list, root) ==> list[i].id in Under(list, root)
    ensures Outline(list) && list[i].id in Under(list, root) && list[i].id != root ==>
              list[i].parent.Some? && list[i].parent.value in Under(list, root)
              && exists j :: 0 <= j < i && list[j].id == list[i].parent.value
  {
    var links := LinksOf(list);
    ReachesStep(links, list[i].id, root);
    assert Up(links, root, 0) == Some(root);
    assert ParentOf(links, list[i].id) == list[i].parent;
    assert list[i].id in Ids(list);
    if Outline(list) && list[i].parent.Some? {
      ParentAbove(list, i);
      assert list[i].parent.value in Ids(list);
    }
  }

  /** The pass has stayed inside the subtree, and in an outline has found all of it so far. */
  ghost predicate Found(units: seq<Pick>, root: Id, i: nat, out: set<Id>)
    requires DistinctIds(units) && i <= |units|
  {
    && root in out && out <= Under(units, root)
    && (Outline(units) ==> forall j :: 0 <= j < i && units[j].id in Under(units, root) ==> units[j].id in out)
  }

  /** In an outline the parent of a unit under `root` stands above it and is under `root`. */
  lemma ParentFound(units: seq<Pick>, root: Id, i: nat) returns (k: nat)
    requires DistinctIds(units) && Outline(units) && i < |units|
    requires units[i].id in Under(units, root) && units[i].id != root
    ensures k < i && units[i].parent == Some(units[k].id) && units[k].id in Under(units, root)
  {
    UnderStep(units, i, root);
    k :| 0 <= k < i && units[k].id == units[i].parent.value;
  }

  lemma ChildFound(units: seq<Pick>, root: Id, i: nat)
    requires DistinctIds(units) && i < |units| && units[i].parent.Some? && units[i].parent.value in Under(units, root)
    ensures units[i].id in Under(units, root)
  {
    UnderStep(units, i, root);
  }

  lemma FoundNext(units: seq<Pick>, root: Id, i: nat, out: set<Id>)
    requires DistinctIds(units) && i < |units| && Found(units, root, i, out)
    ensures var u := units[i];
            Found(units, root, i + 1, if u.parent.Some? && u.parent.value in out then out + {u.id} else out)
  {
    hide Under, Outline, DistinctIds;
    var u := units[i];
    if u.parent.Some? && u.parent.value in out { ChildFound(units, root, i); }
    if Outline(units) && u.id in Under(units, root) && u.id != root {
      var k := ParentFound(units, root, i);
      assert units[k].id in out;
    }
  }

  lemma FoundAll(units: seq<Pick>, root: Id, out: set<Id>)
    requires DistinctIds(units) && Found(units, root, |units|, out)
    ensures Outline(units) ==> out == Under(units, root)
  {
    UnderOnly(units, root);
    hide Under, Outline;
  }

  /** The picker's single pass over the list. */
  method DescendantsOf(units: seq<Pick>, root: Id) returns (out: set<Id>)
    requires DistinctIds(units)
    ensures out <= Under(units, root)
    ensures Outline(units) ==> out == Under(units, root)
  {
    UnderOnly(units, root);
    hide Under, Outline;
    out := {root};
    for i := 0 to |units|
      invariant Found(units, root, i, out)
    {
      FoundNext(units, root, i, out);
      var u := units[i];
      if u.parent.Some? && u.parent.value in out { out := out + {u.id}; }
    }
    FoundAll(units, root, out);
  }

  lemma UnderOnly(list: seq<Pick>, root: Id)
    requires DistinctIds(list)
    ensures root in Under(list, root)
    ensures forall x :: x in Under(list, root) ==> x == root || exists j :: 0 <= j < |list| && list[j].id == x
  {
  }

  /** What the picker offers as the parent of `unit`: the listed units outside its subtree. */
  ghost predicate Offered(list: seq<Pick>, unit: Id, p: Id)
    requires DistinctIds(list)
  {
    p in Ids(list) && p !in Under(list, unit)
  }

  const MAX_OPTIONS := 200

  /** The search may show `u`: it matches and lies outside the excluded unit's subtree. */
  ghost predicate Fits(all: seq<Pick>, exclude: Option<Id>, matches: Pick -> bool, u: Pick) {
    DistinctIds(all) && matches(u) && (exclude.Some? ==> Offered(all, exclude.value, u.id))
  }

  /** The picker's search: the first `MAX_OPTIONS` of the units that fit, in list order. */
  method Search(all: seq<Pick>, exclude: Option<Id>, matches: Pick -> bool) returns (options: seq<Pick>)
    requires DistinctIds(all) && Outline(all)
    ensures var found := Filter(all, u => Fits(all, exclude, matches, u));
            options == found[..Min(MAX_OPTIONS, |found|)]
  {
    var hidden := {};
    if exclude.Some? { hidden := DescendantsOf(all, exclude.value); }
    var found := Filter(all, (u: Pick) => u.id !in hidden && matches(u));
    options := if |found| > MAX_OPTIONS then found[..MAX_OPTIONS] else found;
    forall u | u in all ensures u.id in Ids(all) {
      var i :| 0 <= i < |all| && all[i] == u;
    }
    FilterSame(all, (u: Pick) => u.id !in hidden && matches(u), u => Fits(all, exclude, matches, u));
  }

  // ------------------------------------------------------ server: the cycle guard

  /** The walk up the proposed parent's ancestry when a unit's parent is changed. */
  method ParentRefused(par: Parents, unit: Id, proposed: Option<Id>) returns (refused: bool)
    ensures refused <==> proposed.Some? && Reaches(par, proposed.value, unit)
  {
    var cursor, seen := proposed, {};
    ghost var n: nat := 0;
    ghost var all := par.Keys + (set x | x in par && par[x].Some? :: par[x].value)
                     + (if proposed.Some? then {proposed.value} else {});
    while cursor.Some? && cursor.value !in seen
      invariant cursor == if proposed.None? then None else Up(par, proposed.value, n)
      invariant cursor.Some? ==> cursor.value in all
      invariant proposed.Some? ==> forall y :: y in seen <==> Visited(par, proposed.value, n, y)
      invariant proposed.None? ==> seen == {}
      invariant unit !in seen
      decreases all - seen
    {
      if cursor.value == unit {
        return true;
      }
      seen := seen + {cursor.value};
      UpNext(par, proposed.value, n);
      forall y: Id ensures y in seen <==> Visited(par, proposed.value, n + 1, y) {
        if Visited(par, proposed.value, n + 1, y) {
          var k: nat :| k < n + 1 && Up(par, proposed.value, k) == Some(y);
          if k < n { assert Visited(par, proposed.value, n, y); }
        }
        if y in seen { VisitedNext(par, proposed.value, n, y); }
      }
      cursor := ParentOf(par, cursor.value);
      n := n + 1;
    }
    if proposed.Some? { NeverReached(par, proposed.value, unit, n); }
    return false;
  }

  /** A chain that ends, or repeats, without showing `unit` never shows it. */
  lemma NeverReached(par: Parents, x: Id, unit: Id, n: nat)
    requires !Visited(par, x, n, unit)
    requires Up(par, x, n).Some? ==> Visited(par, x, n, Up(par, x, n).value)
    ensures !Reaches(par, x, unit)
  {
    forall m: nat ensures Up(par, x, m) != Some(unit) { NotAt(par, x, unit, n, m); }
  }

  lemma NotAt(par: Parents, x: Id, unit: Id, n: nat, m: nat)
    requires !Visited(par, x, n, unit)
    requires Up(par, x, n).Some? ==> Visited(par, x, n, Up(par, x, n).value)
    ensures Up(par, x, m) != Some(unit)
  {
    hide Up;
    if m < n {
      assert Up(par, x, m) == Some(unit) ==> Visited(par, x, n, unit);
    } else if Up(par, x, n) == None {
      UpAdd(par, x, n, m - n);
    } else {
      var k: nat :| k < n && Up(par, x, k) == Up(par, x, n);
      Periodic(par, x, k, n, m);
      var i: nat :| i < n && Up(par, x, i) == Up(par, x, m);
      assert Up(par, x, i) == Some(unit) ==> Visited(par, x, n, unit);
    }
  }

  // --------------------------------------------------- what one change does

  /** Dropping links only shortens chains. */
  lemma {:induction false} FewerLinks(fewer: Parents, par: Parents, x: Id, n: nat)
    requires forall y: Id :: ParentOf(fewer, y) == None || ParentOf(fewer, y) == ParentOf(par, y)
    ensures Up(fewer, x, n).Some? ==> Up(fewer, x, n) == Up(par, x, n)
    decreases n
  {
    if n > 0 && ParentOf(fewer, x).Some? {
      FewerLinks(fewer, par, ParentOf(fewer, x).value, n - 1);
    }
  }

  lemma FewerLinksAcyclic(fewer: Parents, par: Parents)
    requires forall y: Id :: ParentOf(fewer, y) == None || ParentOf(fewer, y) == ParentOf(par, y)
    requires Acyclic(par)
    ensures Acyclic(fewer)
    ensures forall x: Id, y: Id :: Reaches(fewer, x, y) ==> Reaches(par, x, y)
  {
    forall x: Id, n: nat ensures Up(fewer, x, n).Some? ==> Up(fewer, x, n) == Up(par, x, n) {
      FewerLinks(fewer, par, x, n);
    }
    forall x: Id, y: Id | Reaches(fewer, x, y) ensures Reaches(par, x, y) {
      var n: nat :| Up(fewer, x, n) == Some(y);
      assert Up(par, x, n) == Some(y);
    }
  }

  lemma {:induction false} SameUntil(par: Parents, changed: Parents, x: Id, unit: Id, n: nat)
    requires forall y: Id :: y != unit ==> ParentOf(changed, y) == ParentOf(par, y)
    requires forall k: nat :: k < n ==> Up(par, x, k) != Some(unit)
    ensures Up(changed, x, n) == Up(par, x, n)
    decreases n
  {
    if n > 0 {
      SameUntil(par, changed, x, unit, n - 1);
      UpNext(par, x, n - 1);
      UpNext(changed, x, n - 1);
    }
  }

  lemma {:induction false} FirstHit(par: Parents, x: Id, unit: Id, n: nat) returns (k: nat)
    requires Up(par, x, n) == Some(unit)
    ensures k <= n && Up(par, x, k) == Some(unit)
    ensures forall j: nat :: j < k ==> Up(par, x, j) != Some(unit)
    decreases n
  {
    if j: nat :| j < n && Up(par, x, j) == Some(unit) {
      k := FirstHit(par, x, unit, j);
    } else {
      k := n;
    }
  }

  /** Giving `unit` the parent `p` keeps the links acyclic exactly when `p` does not already
      lead to `unit`. */
  lemma ReparentAcyclic(par: Parents, unit: Id, p: Id)
    requires Acyclic(par)
    ensures Acyclic(par[unit := Some(p)]) <==> !Reaches(par, p, unit)
  {
    var changed := par[unit := Some(p)];
    if Reaches(par, p, unit) {
      var n: nat :| Up(par, p, n) == Some(unit);
      var k := FirstHit(par, p, unit, n);
      SameUntil(par, changed, p, unit, k);
      assert Up(changed, unit, k + 1) == Some(unit);
    } else {
      forall x: Id, n: nat | n > 0 ensures Up(changed, x, n) != Some(x) {
        if Up(changed, x, n) == Some(x) { NoNewCycle(par, unit, p, x, n); }
      }
    }
  }

  lemma NoNewCycle(par: Parents, unit: Id, p: Id, x: Id, n: nat)
    requires Acyclic(par) && !Reaches(par, p, unit) && n > 0
    ensures Up(par[unit := Some(p)], x, n) != Some(x)
  {
    var changed := par[unit := Some(p)];
    if j: nat :| j < n && Up(par, x, j) == Some(unit) {
      var k := FirstHit(par, x, unit, j);
      SameUntil(par, changed, x, unit, k);
      UpAdd(changed, x, n, k);
      UpAdd(changed, x, k, n);
      SameUntil(par, changed, p, unit, n - 1);
      assert Up(changed, unit, n) == Up(changed, p, n - 1);
    } else {
      SameUntil(par, changed, x, unit, n);
    }
  }

  // ------------------------------------------------------------------ whole runs

  datatype Edit =
    | Reparent(unit: Id, parent: Option<Id>)
    | Create(unit: Id, parent: Option<Id>)
    | Archive(unit: Id)
    | Restore(unit: Id)

  function Apply(t: Table, e: Edit): Table {
    match e
    case Reparent(unit, p) => t.(parent := t.parent[unit := p])
    case Create(unit, p) => Table(t.parent[unit := p], t.rows + [unit])
    case Archive(unit) => t.(rows := Without(t.rows, unit))
    case Restore(unit) => t.(rows := t.rows + [unit])
  }

  function ApplyAll(t: Table, edits: seq<Edit>): Table
    decreases |edits|
  {
    if edits == [] then t else ApplyAll(Apply(t, edits[0]), edits[1..])
  }

  /** The server's rules: the unit and its parent exist and are not archived, and the walk up
      from the parent does not meet the unit. */
  ghost predicate Accepts(t: Table, e: Edit) {
    match e
    case Reparent(unit, p) => unit in t.rows && (p.Some? ==> p.value in t.rows && !Reaches(t.parent, p.value, unit))
    case Create(unit, p) => unit !in t.parent && (p.Some? ==> p.value in t.rows)
    case Archive(unit) => unit in t.rows
    case Restore(unit) => unit in t.parent && unit !in t.rows
  }

  ghost predicate ServerRun(t: Table, edits: seq<Edit>)
    decreases |edits|
  {
    edits == [] || (Accepts(t, edits[0]) && ServerRun(Apply(t, edits[0]), edits[1..]))
  }

  ghost predicate Forest(t: Table) {
    t.Valid() && Acyclic(t.parent)
  }

  lemma FreshUnreachable(t: Table, x: Id, unit: Id)
    requires t.Valid() && x in t.parent && unit !in t.parent
    ensures !Reaches(t.parent, x, unit)
  {
    forall n: nat ensures Up(t.parent, x, n) != Some(unit) {
      if n > 0 { UpNext(t.parent, x, n - 1); }
    }
  }

  lemma ApplyKeepsForest(t: Table, e: Edit)
    requires Forest(t) && Accepts(t, e)
    ensures Forest(Apply(t, e))
  {
    match e
    case Archive(unit) =>
      WithoutDistinct(t.rows, unit);
    case Restore(unit) =>
    case Reparent(unit, p) =>
      if p.Some? { ReparentAcyclic(t.parent, unit, p.value); }
      else { FewerLinksAcyclic(t.parent[unit := p], t.parent); }
    case Create(unit, p) =>
      if p.Some? {
        FreshUnreachable(t, p.value, unit);
        ReparentAcyclic(t.parent, unit, p.value);
      } else {
        FewerLinksAcyclic(t.parent[unit := p], t.parent);
      }
  }

  /** Handled one at a time, whatever clients send, the tree stays a tree. */
  lemma {:induction false} ServerKeepsForest(t: Table, edits: seq<Edit>)
    requires Forest(t) && ServerRun(t, edits)
    ensures Forest(ApplyAll(t, edits))
    decreases |edits|
  {
    if edits != [] {
      ApplyKeepsForest(t, edits[0]);
      ServerKeepsForest(Apply(t, edits[0]), edits[1..]);
    }
  }

  // ----------------------------------------- does the picker agree with the server

  /** `x` is listed and hangs under an archived unit that itself hangs, at some remove, under `y`. */
  ghost predicate Detour(t: Table, x: Id, y: Id) {
    && x in t.rows && y in t.rows && x != y && ParentOf(t.parent, x).Some?
    && ParentOf(t.parent, x).value !in t.rows && Reaches(t.parent, x, y)
  }

  lemma ShownLinksAcyclic(t: Table)
    requires Forest(t)
    ensures Acyclic(t.ShownLinks())
    ensures forall x: Id, y: Id :: Reaches(t.ShownLinks(), x, y) ==> Reaches(t.parent, x, y)
  {
    FewerLinksAcyclic(t.ShownLinks(), t.parent);
  }

  lemma {:induction false} NoDetourShown(t: Table, x: Id, y: Id, n: nat)
    requires Forest(t) && x in t.rows && y in t.rows && Up(t.parent, x, n) == Some(y)
    requires forall z: Id :: !Detour(t, z, y)
    ensures Reaches(t.ShownLinks(), x, y)
    decreases n
  {
    ReachesStep(t.ShownLinks(), x, y);
    if x != y {
      var p := ParentOf(t.parent, x).value;
      assert Reaches(t.parent, x, y);
      assert !Detour(t, x, y);
      assert Up(t.parent, x, 1) == Up(t.parent, p, 0);
      NoDetourShown(t, p, y, n - 1);
    }
  }

  /** The picker offers for `unit` exactly the parents the server accepts, if and only if no
      unit reaches `unit` through an archived parent. */
  lemma PickerAgrees(t: Table, list: seq<Pick>, unit: Id)
    requires Forest(t) && Listing(t, list) && unit in t.rows
    ensures (forall p: Id :: p in t.rows ==> (Offered(list, unit, p) <==> Accepts(t, Reparent(unit, Some(p)))))
            <==> forall x: Id :: !Detour(t, x, unit)
  {
    ShownLinksAcyclic(t);
    if x: Id :| Detour(t, x, unit) {
      ReachesStep(t.ShownLinks(), x, unit);
      assert Offered(list, unit, x) && !Accepts(t, Reparent(unit, Some(x)));
    } else {
      forall p: Id | p in t.rows ensures Offered(list, unit, p) <==> Accepts(t, Reparent(unit, Some(p))) {
        assert p in Ids(list) && Up(t.parent, unit, 0) == Some(unit);
        if Reaches(t.parent, p, unit) {
          var n: nat :| Up(t.parent, p, n) == Some(unit);
          NoDetourShown(t, p, unit, n);
        }
      }
    }
  }

  /** Unit 3 is live, its parent 2 is archived, and 2 hangs under unit 1: the picker offers 3 as
      the parent of 1, which would close a cycle. */
  lemma ArchivedParentFoolsPicker(list: seq<Pick>)
    requires Listing(Table(map[1 := None, 2 := Some(1), 3 := Some(2)], [1, 3]), list)
    ensures Offered(list, 1, 3)
    ensures !Acyclic(map[1 := Some(3), 2 := Some(1), 3 := Some(2)])
  {
    var t := Table(map[1 := None, 2 := Some(1), 3 := Some(2)], [1, 3]);
    var links := t.ShownLinks();
    assert t.ShownParent(3) == None && t.ShownParent(1) == None;
    forall x: Id, n: nat ensures n > 0 ==> Up(links, x, n) == None {}
    ReachesStep(links, 3, 1);
    assert 3 in t.rows;
    var bad: Parents := map[1 := Some(3), 2 := Some(1), 3 := Some(2)];
    assert Up(bad, 1, 3) == Up(bad, 3, 2) == Up(bad, 2, 1) == Up(bad, 1, 0) == Some(1);
  }

  /** Every unit's parent, if it has one, is live. */
  ghost predicate NoOrphans(t: Table) {
    forall id :: id in t.rows && ParentOf(t.parent, id).Some? ==> ParentOf(t.parent, id).value in t.rows
  }

  /** Detours come only from archiving a unit that has children, or restoring one under an archived
      parent: other edits keep every parent live. */
  lemma DetoursNeedOrphans(t: Table, e: Edit)
    requires Forest(t) && NoOrphans(t) && Accepts(t, e)
    requires e.Archive? ==> forall c :: c in t.rows ==> ParentOf(t.parent, c) != Some(e.unit)
    requires e.Restore? && ParentOf(t.parent, e.unit).Some? ==> ParentOf(t.parent, e.unit).value in t.rows
    ensures forall x: Id, y: Id :: !Detour(t, x, y)
    ensures NoOrphans(Apply(t, e))
  {
    var after := Apply(t, e);
    forall id | id in after.rows && ParentOf(after.parent, id).Some?
      ensures ParentOf(after.parent, id).value in after.rows
    {
      if id != e.unit { assert ParentOf(t.parent, id).value in t.rows; }
    }
  }

  /** A run of edits in which every parent was picked from a list of the tree as it then was, and no
      unit reached a re-parented one through an archived parent. Units may be archived and restored
      in between. */
  ghost predicate PickerRun(t: Table, edits: seq<Edit>, lists: seq<seq<Pick>>)
    decreases |edits|
  {
    |edits| == |lists| &&
    (edits == [] ||
     (Listing(t, lists[0]) && Picked(t, lists[0], edits[0]) && PickerRun(Apply(t, edits[0]), edits[1..], lists[1..])))
  }

  ghost predicate Picked(t: Table, list: seq<Pick>, e: Edit)
    requires DistinctIds(list)
  {
    match e
    case Reparent(unit, p) =>
      unit in t.rows && (p.Some? ==> Offered(list, unit, p.value) && forall x: Id :: !Detour(t, x, unit))
    case Create(unit, p) => unit !in t.parent && (p.Some? ==> p.value in Ids(list))
    case Archive(unit) => unit in t.rows
    case Restore(unit) => unit in t.parent && unit !in t.rows
  }

  /** Over any such run, one edit at a time, the server never has to refuse one, and the tree stays a
      tree. */
  lemma {:induction false} PickerKeepsForest(t: Table, edits: seq<Edit>, lists: seq<seq<Pick>>)
    requires Forest(t) && PickerRun(t, edits, lists)
    ensures ServerRun(t, edits)
    ensures Forest(ApplyAll(t, edits))
    decreases |edits|
  {
    if edits != [] {
      var e := edits[0];
      if e.Reparent? && e.parent.Some? { PickerAgrees(t, lists[0], e.unit); }
      assert Accepts(t, e);
      ApplyKeepsForest(t, e);
      PickerKeepsForest(Apply(t, e), edits[1..], lists[1..]);
    }
  }
}
