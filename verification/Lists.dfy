/** Facts about sequences and ordered sets that several components share. */
module Lists {
  datatype Option<+T> = None | Some(value: T)

  function Min(a: nat, b: nat): nat { if a < b then a else b }

  ghost predicate Distinct<T>(s: seq<T>) {
    forall i, j :: 0 <= i < j < |s| ==> s[i] != s[j]
  }

  function ToSet<T>(s: seq<T>): set<T> {
    set x | x in s
  }

  /** The elements of `s` that `keep` accepts, in order. */
  function Filter<T(!new)>(s: seq<T>, keep: T -> bool): (r: seq<T>)
    ensures |r| <= |s|
    ensures forall x :: x in r <==> x in s && keep(x)
  {
    if s == [] then [] else (if keep(s[0]) then [s[0]] else []) + Filter(s[1..], keep)
  }

  lemma {:induction false} FilterAppend<T(!new)>(a: seq<T>, b: seq<T>, keep: T -> bool)
    ensures Filter(a + b, keep) == Filter(a, keep) + Filter(b, keep)
  {
    if a == [] {
      assert a + b == b;
    } else {
      assert (a + b)[1..] == a[1..] + b;
      FilterAppend(a[1..], b, keep);
    }
  }

  lemma {:induction false} FilterDistinct<T(!new)>(s: seq<T>, keep: T -> bool)
    requires Distinct(s)
    ensures Distinct(Filter(s, keep))
  {
    if s != [] {
      FilterDistinct(s[1..], keep);
    }
  }

  lemma {:induction false} FilterSame<T(!new)>(s: seq<T>, keep: T -> bool, same: T -> bool)
    requires forall x :: x in s ==> keep(x) == same(x)
    ensures Filter(s, keep) == Filter(s, same)
  {
    if s != [] {
      FilterSame(s[1..], keep, same);
    }
  }

  lemma {:induction false} FilterAll<T(!new)>(s: seq<T>, keep: T -> bool)
    requires forall x :: x in s ==> keep(x)
    ensures Filter(s, keep) == s
  {
    if s != [] {
      FilterAll(s[1..], keep);
    }
  }

  lemma {:induction false} FilterNone<T(!new)>(s: seq<T>, keep: T -> bool)
    requires forall x :: x in s ==> !keep(x)
    ensures Filter(s, keep) == []
  {
    if s != [] {
      FilterNone(s[1..], keep);
    }
  }

  /** A duplicate-free sequence has as many elements as its set. */
  lemma {:induction false} DistinctSize<T>(s: seq<T>)
    requires Distinct(s)
    ensures |ToSet(s)| == |s|
  {
    if s != [] {
      DistinctSize(s[1..]);
      assert ToSet(s) == ToSet(s[1..]) + {s[0]};
    }
  }

  lemma DistinctAppend<T>(a: seq<T>, b: seq<T>)
    requires Distinct(a) && Distinct(b) && forall x :: x in a ==> x !in b
    ensures Distinct(a + b)
  {
    forall i, j | 0 <= i < j < |a + b| ensures (a + b)[i] != (a + b)[j] {
      if i < |a| <= j { assert a[i] in a && b[j - |a|] in b; }
    }
  }

  lemma DistinctParts<T>(a: seq<T>, b: seq<T>)
    requires Distinct(a + b)
    ensures Distinct(a) && Distinct(b)
    ensures forall x :: x in a ==> x !in b
  {
    assert forall i :: 0 <= i < |a| ==> (a + b)[i] == a[i];
    assert forall j :: 0 <= j < |b| ==> (a + b)[|a| + j] == b[j];
  }

  lemma DistinctPrefix<T>(a: seq<T>, s: seq<T>)
    requires Distinct(s) && a <= s
    ensures Distinct(a)
    ensures forall x :: x in a ==> x in s
  {
  }

  lemma {:induction false} Multiplicity<T(!new)>(s: seq<T>)
    ensures Distinct(s) <==> forall x :: multiset(s)[x] <= 1
  {
    if s != [] {
      var rest := s[1..];
      Multiplicity(rest);
      assert s == [s[0]] + rest;
      assert multiset(s) == multiset{s[0]} + multiset(rest);
      if Distinct(s) {
        DistinctParts([s[0]], rest);
        assert s[0] in [s[0]];
      }
      if Distinct(rest) && s[0] !in rest { DistinctAppend([s[0]], rest); }
      if forall x :: multiset(s)[x] <= 1 {
        assert multiset(s)[s[0]] == 1 + multiset(rest)[s[0]];
        assert forall x :: multiset(rest)[x] <= multiset(s)[x];
      }
    }
  }

  lemma PermutationDistinct<T(!new)>(a: seq<T>, b: seq<T>)
    requires Distinct(a) && multiset(a) == multiset(b)
    ensures Distinct(b)
  {
    Multiplicity(a);
    Multiplicity(b);
  }

  /** `s` with `x` placed before the first element ranked above it. */
  function InsertBy<T(!new)>(x: T, s: seq<T>, rank: T -> int): (r: seq<T>)
    ensures forall y :: y in r <==> y == x || y in s
  {
    if s == [] || rank(x) < rank(s[0]) then [x] + s
    else
      assert s == [s[0]] + s[1..];
      [s[0]] + InsertBy(x, s[1..], rank)
  }

  /** `s` in the order of `rank`, elements of equal rank in their original order. */
  function SortBy<T(!new)>(s: seq<T>, rank: T -> int): (r: seq<T>)
    ensures forall y :: y in r <==> y in s
  {
    if s == [] then []
    else
      var front := s[..|s| - 1];
      assert s == front + [s[|s| - 1]];
      InsertBy(s[|s| - 1], SortBy(front, rank), rank)
  }

  ghost predicate SortedBy<T(!new)>(s: seq<T>, rank: T -> int) {
    forall i, j :: 0 <= i < j < |s| ==> rank(s[i]) <= rank(s[j])
  }

  lemma ConsSorted<T(!new)>(x: T, s: seq<T>, rank: T -> int)
    requires SortedBy(s, rank) && forall y :: y in s ==> rank(x) <= rank(y)
    ensures SortedBy([x] + s, rank)
  {
    var r := [x] + s;
    forall i, j | 0 <= i < j < |r| ensures rank(r[i]) <= rank(r[j]) {
      assert r[j] == s[j - 1] && s[j - 1] in s;
      if i > 0 { assert r[i] == s[i - 1]; }
    }
  }

  lemma SortedParts<T(!new)>(s: seq<T>, rank: T -> int)
    requires SortedBy(s, rank) && s != []
    ensures SortedBy(s[1..], rank)
    ensures forall y :: y in s ==> rank(s[0]) <= rank(y)
  {
  }

  lemma {:induction false} InsertBySorts<T(!new)>(x: T, s: seq<T>, rank: T -> int)
    requires SortedBy(s, rank)
    ensures SortedBy(InsertBy(x, s, rank), rank)
  {
    if s != [] { SortedParts(s, rank); }
    hide SortedBy;
    if s == [] || rank(x) < rank(s[0]) {
      ConsSorted(x, s, rank);
    } else {
      InsertBySorts(x, s[1..], rank);
      ConsSorted(s[0], InsertBy(x, s[1..], rank), rank);
    }
  }

  lemma {:induction false} InsertByAdds<T(!new)>(x: T, s: seq<T>, rank: T -> int)
    ensures multiset(InsertBy(x, s, rank)) == multiset(s) + multiset{x}
  {
    if s != [] && rank(x) >= rank(s[0]) {
      assert s == [s[0]] + s[1..];
      InsertByAdds(x, s[1..], rank);
    }
  }

  lemma {:induction false} SortByOrders<T(!new)>(s: seq<T>, rank: T -> int)
    ensures SortedBy(SortBy(s, rank), rank)
  {
    if s != [] {
      hide InsertBy, SortedBy;
      SortByOrders(s[..|s| - 1], rank);
      InsertBySorts(s[|s| - 1], SortBy(s[..|s| - 1], rank), rank);
    }
  }

  lemma {:induction false} SortByKeeps<T(!new)>(s: seq<T>, rank: T -> int)
    ensures multiset(SortBy(s, rank)) == multiset(s)
  {
    if s != [] {
      hide InsertBy;
      SortByKeeps(s[..|s| - 1], rank);
      InsertByAdds(s[|s| - 1], SortBy(s[..|s| - 1], rank), rank);
      assert s == s[..|s| - 1] + [s[|s| - 1]];
    }
  }

  /** `SortBy` sorts: a permutation, in order of rank. */
  lemma SortBySorts<T(!new)>(s: seq<T>, rank: T -> int)
    ensures SortedBy(SortBy(s, rank), rank)
    ensures multiset(SortBy(s, rank)) == multiset(s)
  {
    SortByOrders(s, rank);
    SortByKeeps(s, rank);
  }

  lemma SameElements<T(!new)>(a: seq<T>, b: seq<T>)
    requires multiset(a) == multiset(b)
    ensures forall x :: x in a <==> x in b
    ensures |a| == |b|
  {
    forall x ensures x in a <==> x in b {
      assert x in a <==> x in multiset(a);
      assert x in b <==> x in multiset(b);
    }
    assert |multiset(a)| == |a| && |multiset(b)| == |b|;
  }

  /** `s` without `x`. */
  function Without<T(==, !new)>(s: seq<T>, x: T): (r: seq<T>)
    ensures forall y :: y in r <==> y in s && y != x
  {
    if s == [] then [] else (if s[0] == x then [] else [s[0]]) + Without(s[1..], x)
  }

  lemma {:induction false} WithoutDistinct<T(!new)>(s: seq<T>, x: T)
    requires Distinct(s)
    ensures Distinct(Without(s, x))
  {
    if s != [] {
      assert s == [s[0]] + s[1..];
      DistinctParts([s[0]], s[1..]);
      WithoutDistinct(s[1..], x);
      assert s[0] in [s[0]];
      if s[0] != x { DistinctAppend([s[0]], Without(s[1..], x)); }
    }
  }

  lemma {:induction false} WithoutAppend<T(!new)>(a: seq<T>, b: seq<T>, x: T)
    ensures Without(a + b, x) == Without(a, x) + Without(b, x)
  {
    if a == [] {
      assert a + b == b;
    } else {
      assert (a + b)[1..] == a[1..] + b;
      WithoutAppend(a[1..], b, x);
    }
  }

  lemma {:induction false} WithoutAbsent<T(!new)>(s: seq<T>, x: T)
    requires x !in s
    ensures Without(s, x) == s
  {
    if s != [] { WithoutAbsent(s[1..], x); }
  }

  lemma WithoutMiddle<T(!new)>(a: seq<T>, b: seq<T>, x: T)
    requires x !in a && x !in b
    ensures Without(a + [x] + b, x) == a + b
  {
    WithoutAppend(a + [x], b, x);
    WithoutAppend(a, [x], x);
    WithoutAbsent(a, x);
    WithoutAbsent(b, x);
    assert Without([x], x) == [];
    assert a + [] == a;
  }

  lemma {:induction false} FilterSplit<T(!new)>(s: seq<T>, keep: T -> bool, drop: T -> bool)
    requires forall x :: drop(x) == !keep(x)
    ensures |Filter(s, keep)| + |Filter(s, drop)| == |s|
  {
    if s != [] {
      FilterSplit(s[1..], keep, drop);
    }
  }

  /** Adding to an insertion-ordered set: a no-op when `x` is already there. */
  function Include<T(==)>(s: seq<T>, x: T): seq<T> {
    if x in s then s else s + [x]
  }

  function IncludeAll<T(==)>(s: seq<T>, more: seq<T>): seq<T>
    decreases |more|
  {
    if more == [] then s else IncludeAll(Include(s, more[0]), more[1..])
  }

  lemma {:induction false} IncludeAllMembers<T(!new)>(s: seq<T>, more: seq<T>)
    ensures forall x :: x in IncludeAll(s, more) <==> x in s || x in more
    ensures s <= IncludeAll(s, more)
    decreases |more|
  {
    if more != [] {
      IncludeAllMembers(Include(s, more[0]), more[1..]);
    }
  }

  lemma {:induction false} IncludeAllDistinct<T>(s: seq<T>, more: seq<T>)
    requires Distinct(s)
    ensures Distinct(IncludeAll(s, more))
    decreases |more|
  {
    if more != [] {
      IncludeAllDistinct(Include(s, more[0]), more[1..]);
    }
  }

  lemma {:induction false} IncludeAllAppend<T>(s: seq<T>, a: seq<T>, b: seq<T>)
    ensures IncludeAll(s, a + b) == IncludeAll(IncludeAll(s, a), b)
    decreases |a|
  {
    if a == [] {
      assert a + b == b;
    } else {
      assert (a + b)[1..] == a[1..] + b;
      IncludeAllAppend(Include(s, a[0]), a[1..], b);
    }
  }

  function FlatMap<A, B>(s: seq<A>, f: A -> seq<B>): seq<B> {
    if s == [] then [] else f(s[0]) + FlatMap(s[1..], f)
  }

  lemma {:induction false} FlatMapAppend<A, B>(a: seq<A>, b: seq<A>, f: A -> seq<B>)
    ensures FlatMap(a + b, f) == FlatMap(a, f) + FlatMap(b, f)
  {
    if a == [] {
      assert a + b == b;
    } else {
      assert (a + b)[1..] == a[1..] + b;
      FlatMapAppend(a[1..], b, f);
    }
  }
}
