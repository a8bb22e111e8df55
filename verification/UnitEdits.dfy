/** What a run of edits leaves of the business-unit tree, told from the edits alone. */
module UnitEdits {
  import opened Lists
  import opened UnitTree

  /** The edit brings the unit onto the list. */
  ghost predicate Brings(e: Edit, unit: Id) {
    (e.Create? || e.Restore?) && e.unit == unit
  }

  /** The edit at `i` lists the unit, and none after it archives it. */
  ghost predicate ListedFrom(edits: seq<Edit>, i: int, unit: Id) {
    0 <= i < |edits| && Brings(edits[i], unit) && NeverArchived(edits[i + 1..], unit)
  }

  /** The unit is listed by some edit, or was to begin with, and no edit after that archives it. */
  ghost predicate LastListed(t: Table, edits: seq<Edit>, unit: Id) {
    (unit in t.rows && NeverArchived(edits, unit)) || exists i :: ListedFrom(edits, i, unit)
  }

  ghost predicate NeverArchived(edits: seq<Edit>, unit: Id) {
    Archive(unit) !in edits
  }

  /** The edit gives the unit a parent, or none. */
  ghost predicate Moves(e: Edit, unit: Id) {
    (e.Create? || e.Reparent?) && e.unit == unit
  }

  ghost predicate NeverMoved(edits: seq<Edit>, unit: Id) {
    forall e :: e in edits ==> !Moves(e, unit)
  }

  lemma ListedLater(edits: seq<Edit>, i: int, unit: Id)
    requires edits != []
    ensures i != 0 ==> (ListedFrom(edits, i, unit) <==> ListedFrom(edits[1..], i - 1, unit))
    ensures ListedFrom(edits, 0, unit) <==> Brings(edits[0], unit) && NeverArchived(edits[1..], unit)
  {
    hide Brings, NeverArchived;
    if 0 < i < |edits| { assert edits[1..][(i - 1) + 1..] == edits[i + 1..]; }
  }

  lemma ListedStep(t: Table, edits: seq<Edit>, unit: Id)
    requires edits != []
    ensures LastListed(t, edits, unit) <==> LastListed(Apply(t, edits[0]), edits[1..], unit)
  {
    var e, rest := edits[0], edits[1..];
    assert edits == [e] + rest;
    assert NeverArchived(edits, unit) <==> e != Archive(unit) && NeverArchived(rest, unit);
    assert unit in Apply(t, e).rows <==> Brings(e, unit) || (unit in t.rows && e != Archive(unit));
    hide ListedFrom, NeverArchived, Brings, Apply;
    ListedLater(edits, 0, unit);
    if i :| ListedFrom(edits, i, unit) { ListedLater(edits, i, unit); }
    if i :| ListedFrom(rest, i, unit) {
      ListedLater(edits, i + 1, unit);
      NotBeforeTheFirst(rest, i, unit);
    }
  }

  lemma NotBeforeTheFirst(edits: seq<Edit>, i: int, unit: Id)
    requires ListedFrom(edits, i, unit)
    ensures i >= 0
  {
  }

  /** After any accepted edits a unit is listed exactly when it was created, restored or there to begin with, and has
      not been archived since; none is listed twice. */
  lemma {:induction false} ListedExactly(t: Table, edits: seq<Edit>, unit: Id)
    requires Forest(t) && ServerRun(t, edits)
    ensures unit in ApplyAll(t, edits).rows <==> LastListed(t, edits, unit)
    ensures Distinct(ApplyAll(t, edits).rows)
    decreases |edits|
  {
    if edits != [] {
      ListedStep(t, edits, unit);
      ApplyKeepsForest(t, edits[0]);
      hide Accepts, LastListed;
      ListedExactly(Apply(t, edits[0]), edits[1..], unit);
    }
  }

  lemma ParentStep(t: Table, e: Edit, unit: Id)
    ensures ParentOf(Apply(t, e).parent, unit) == if Moves(e, unit) then e.parent else ParentOf(t.parent, unit)
  {
  }

  /** A unit hangs where the last edit that moved it put it, through archiving and restoring. */
  lemma {:induction false} ParentIsTheLastGiven(t: Table, edits: seq<Edit>, unit: Id)
    ensures var end := ApplyAll(t, edits);
            && (NeverMoved(edits, unit) ==> ParentOf(end.parent, unit) == ParentOf(t.parent, unit))
            && forall i :: 0 <= i < |edits| && Moves(edits[i], unit) && NeverMoved(edits[i + 1..], unit) ==>
                 ParentOf(end.parent, unit) == edits[i].parent
    decreases |edits|
  {
    if edits != [] {
      var e, rest := edits[0], edits[1..];
      assert edits == [e] + rest;
      assert NeverMoved(edits, unit) <==> !Moves(e, unit) && NeverMoved(rest, unit);
      hide Apply, ParentOf, NeverMoved;
      ParentStep(t, e, unit);
      ParentIsTheLastGiven(Apply(t, e), rest, unit);
      forall i | 0 <= i < |edits| && Moves(edits[i], unit) && NeverMoved(edits[i + 1..], unit)
        ensures ParentOf(ApplyAll(t, edits).parent, unit) == edits[i].parent
      {
        if i == 0 {
          assert edits[i + 1..] == rest;
        } else {
          assert rest[i - 1] == edits[i] && rest[(i - 1) + 1..] == edits[i + 1..];
        }
      }
    }
  }
}
