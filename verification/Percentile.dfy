/** The load test's latency percentile, its release gate, and its weighted pick, in exact
    arithmetic. */
module Percentile {
  import opened Lists

  /** Python's `round`: to the nearest integer, ties to the even one. */
  function HalfEven(x: real): int {
    var f := x.Floor;
    var part := x - f as real;
    if part < 0.5 || (part == 0.5 && f % 2 == 0) then f else f + 1
  }

  function Ceiling(x: real): int {
    -((-x).Floor)
  }

  // -------------------------------------------------------------------- sorting

  function Place(x: real, s: seq<real>): seq<real> {
    if s == [] || x < s[0] then [x] + s else [s[0]] + Place(x, s[1..])
  }

  function Sorted(s: seq<real>): seq<real> {
    if s == [] then [] else Place(s[0], Sorted(s[1..]))
  }

  ghost predicate Ascending(s: seq<real>) {
    forall i, j :: 0 <= i < j < |s| ==> s[i] <= s[j]
  }

  lemma {:induction false} PlaceMembers(x: real, s: seq<real>)
    ensures forall y :: y in Place(x, s) <==> y == x || y in s
    ensures |Place(x, s)| == |s| + 1
  {
    if s != [] && s[0] <= x {
      PlaceMembers(x, s[1..]);
      assert s == [s[0]] + s[1..];
    }
  }

  lemma {:induction false} PlaceAscends(x: real, s: seq<real>)
    requires Ascending(s)
    ensures Ascending(Place(x, s))
  {
    if s != [] && s[0] <= x {
      PlaceAscends(x, s[1..]);
      PlaceMembers(x, s[1..]);
      var r := Place(x, s[1..]);
      forall i | 0 <= i < |r| ensures s[0] <= r[i] {
        assert r[i] in r;
      }
    }
  }

  lemma {:induction false} SortedAscends(s: seq<real>)
    ensures Ascending(Sorted(s)) && |Sorted(s)| == |s|
    ensures forall y :: y in Sorted(s) <==> y in s
  {
    if s != [] {
      SortedAscends(s[1..]);
      PlaceAscends(s[0], Sorted(s[1..]));
      PlaceMembers(s[0], Sorted(s[1..]));
    }
  }

  // ------------------------------------------------------------------- counting

  /** How many samples are below `v`, and how many are at most `v`. */
  function Below(s: seq<real>, v: real): nat {
    |Filter(s, x => x < v)|
  }

  function AtMost(s: seq<real>, v: real): nat {
    |Filter(s, x => x <= v)|
  }

  lemma {:induction false} CountPlace(x: real, s: seq<real>, keep: real -> bool)
    ensures |Filter(Place(x, s), keep)| == |Filter(s, keep)| + (if keep(x) then 1 else 0)
  {
    if s == [] || x < s[0] {
      assert ([x] + s)[1..] == s;
    } else {
      CountPlace(x, s[1..], keep);
      assert ([s[0]] + Place(x, s[1..]))[1..] == Place(x, s[1..]);
    }
  }

  /** Sorting moves samples, it does not change how many satisfy a bound. */
  lemma {:induction false} CountSorted(s: seq<real>, keep: real -> bool)
    ensures |Filter(Sorted(s), keep)| == |Filter(s, keep)|
  {
    if s != [] {
      CountSorted(s[1..], keep);
      CountPlace(s[0], Sorted(s[1..]), keep);
    }
  }

  lemma CountsAtIndex(s: seq<real>, i: nat)
    requires Ascending(s) && i < |s|
    ensures Below(s, s[i]) <= i < AtMost(s, s[i])
  {
    var v := s[i];
    assert s == s[..i] + s[i..] && s == s[..i + 1] + s[i + 1..];
    FilterAppend(s[..i], s[i..], x => x < v);
    FilterNone(s[i..], x => x < v);
    FilterAppend(s[..i + 1], s[i + 1..], x => x <= v);
    FilterAll(s[..i + 1], x => x <= v);
  }

  lemma {:induction false} CountMonotone(s: seq<real>, keep: real -> bool, more: real -> bool)
    requires forall x :: keep(x) ==> more(x)
    ensures |Filter(s, keep)| <= |Filter(s, more)|
  {
    if s != [] { CountMonotone(s[1..], keep, more); }
  }

  // ------------------------------------------------------------------ percentile

  /** The position `p` percent of the way through `n` samples. */
  function Position(n: nat, p: real): real {
    p / 100.0 * n as real
  }

  /** The index `Bucket.pct` reads, clamped into the samples. */
  function Index(n: nat, p: real): int {
    var idx := HalfEven(Position(n, p) + 0.5) - 1;
    var low := if idx < n - 1 then idx else n - 1;
    if low > 0 then low else 0
  }

  function Pct(ms: seq<real>, p: real): real {
    if ms == [] then 0.0
    else
      SortedAscends(ms);
      Sorted(ms)[InRange(Index(|ms|, p), |ms|)]
  }

  function InRange(i: int, n: nat): nat
    requires n > 0
  {
    if 0 <= i < n then i else 0
  }

  lemma PositionRange(n: nat, p: real)
    requires 0.0 <= p <= 100.0
    ensures 0.0 <= Position(n, p) <= n as real
  {
    var q := p / 100.0;
    assert 0.0 <= q <= 1.0;
    Scale(q, 1.0, n as real);
    Scale(0.0, q, n as real);
  }

  lemma Scale(a: real, b: real, n: real)
    requires a <= b && n >= 0.0
    ensures a * n <= b * n
  {
    assert (b - a) * n >= 0.0;
  }

  /** An odd whole position short of the end, where half-even rounding goes one too far. */
  predicate OddTie(n: nat, x: real) {
    x == x.Floor as real && x.Floor % 2 == 1 && x.Floor < n
  }

  /** The one-based rank read is the ceiling of the position, at least 1, and one more on an odd
      tie. */
  lemma RankIsCeiling(n: nat, p: real)
    requires n > 0 && 0.0 <= p <= 100.0
    ensures var x := Position(n, p);
            var nearest := if Ceiling(x) < 1 then 1 else Ceiling(x);
            Index(n, p) + 1 == (if OddTie(n, x) then nearest + 1 else nearest)
  {
    var x := Position(n, p);
    PositionRange(n, p);
    var k := x.Floor;
    var y := x + 0.5;
    if x == k as real {
      assert y.Floor == k;
      assert Ceiling(x) == k;
    } else {
      assert Ceiling(x) == k + 1;
    }
  }

  /** It is the standard nearest rank for every position that is not an odd tie, and only then. */
  lemma NearestRankExactly(n: nat, p: real)
    requires n > 0 && 0.0 <= p <= 100.0
    ensures var x := Position(n, p);
            (Index(n, p) + 1 == if Ceiling(x) < 1 then 1 else Ceiling(x)) <==> !OddTie(n, x)
  {
    RankIsCeiling(n, p);
  }

  /** With two samples the 50th percentile is the larger one: rank 2, where nearest rank is 1. */
  lemma MedianOfTwo()
    ensures Pct([10.0, 20.0], 50.0) == 20.0 && Ceiling(Position(2, 50.0)) == 1
  {
    assert Position(2, 50.0) == 1.0;
    assert (1.5).Floor == 1 && HalfEven(1.5) == 2;
    assert Index(2, 50.0) == 1;
    assert [10.0, 20.0][1..] == [20.0] && [20.0][1..] == [];
    assert Sorted([20.0]) == Place(20.0, []) == [20.0];
    assert Sorted([10.0, 20.0]) == Place(10.0, [20.0]) == [10.0, 20.0];
  }

  lemma PositionScaled(n: nat, p: real)
    ensures 100.0 * Position(n, p) == p * n as real
  {
    var q := p / 100.0;
    assert 100.0 * q == p;
    assert 100.0 * (q * n as real) == (100.0 * q) * n as real;
  }

  /** The result is a real sample, with at most `p` percent of the samples below it and at least
      `p` percent at or below it. */
  lemma PctIsAQuantile(ms: seq<real>, p: real)
    requires ms != [] && 0.0 <= p <= 100.0
    ensures var v := Pct(ms, p);
            && v in ms && Below(ms, v) as real <= Position(|ms|, p) <= AtMost(ms, v) as real
            && 100.0 * Below(ms, v) as real <= p * |ms| as real <= 100.0 * AtMost(ms, v) as real
  {
    PositionScaled(|ms|, p);
    var s, n, x := Sorted(ms), |ms|, Position(|ms|, p);
    SortedAscends(ms);
    RankIsCeiling(n, p);
    PositionRange(n, p);
    var i := Index(n, p);
    CountsAtIndex(s, i);
    var v := s[i];
    CountSorted(ms, y => y < v);
    CountSorted(ms, y => y <= v);
    assert v in s;
    assert i as real <= x <= (i + 1) as real by {
      var k := x.Floor;
      assert k as real <= x < (k + 1) as real;
    }
  }

  /** A higher percentile never reads a lower sample. */
  lemma PctMonotone(ms: seq<real>, p: real, q: real)
    requires ms != [] && p <= q
    ensures Pct(ms, p) <= Pct(ms, q)
  {
    SortedAscends(ms);
    Scale(p / 100.0, q / 100.0, |ms| as real);
    HalfEvenMonotone(Position(|ms|, p) + 0.5, Position(|ms|, q) + 0.5);
    hide HalfEven, Sorted;
    assert Index(|ms|, p) <= Index(|ms|, q);
  }

  lemma HalfEvenMonotone(x: real, y: real)
    requires x <= y
    ensures HalfEven(x) <= HalfEven(y)
  {
    assert x.Floor <= y.Floor;
  }

  // ----------------------------------------------------------------- the gate

  /** Whether an endpoint breaks the p95 budget. */
  predicate OverBudget(ms: seq<real>, budget: real) {
    Pct(ms, 95.0) > budget
  }

  /** Of its successful requests, an endpoint within budget answered at least 95 percent within it, and
      one over budget at most 95 percent. Requests that failed have no latency and do not count. */
  lemma GateMeans95Percent(ms: seq<real>, budget: real)
    requires ms != []
    ensures !OverBudget(ms, budget) ==> 100 * AtMost(ms, budget) >= 95 * |ms|
    ensures OverBudget(ms, budget) ==> 100 * AtMost(ms, budget) <= 95 * |ms|
  {
    PctIsAQuantile(ms, 95.0);
    var v := Pct(ms, 95.0);
    if v <= budget {
      CountMonotone(ms, x => x <= v, x => x <= budget);
    } else {
      CountMonotone(ms, x => x <= budget, x => x < v);
    }
  }

  // ------------------------------------------------------------- weighted pick

  function Total(weights: seq<nat>): nat {
    if weights == [] then 0 else Total(weights[..|weights| - 1]) + weights[|weights| - 1]
  }

  /** The scan for the entry whose share of the total covers `mark`; past the end, the last. */
  method Weighted(weights: seq<nat>, mark: real) returns (k: nat)
    requires weights != []
    ensures k < |weights|
    ensures 0.0 < mark <= Total(weights) as real ==> Falls(weights, mark, k)
    ensures mark <= 0.0 ==> k == 0
    ensures mark > Total(weights) as real ==> k == |weights| - 1
  {
    var upto := 0;
    for i := 0 to |weights|
      invariant upto == Total(weights[..i])
      invariant i > 0 ==> upto as real < mark
    {
      assert weights[..i + 1][..i] == weights[..i];
      TotalGrows(weights, i + 1, |weights|);
      assert weights[..|weights|] == weights;
      upto := upto + weights[i];
      if upto as real >= mark { return i; }
    }
    assert weights[..|weights|] == weights;
    assert weights[..|weights| - 1] == weights[..|weights|][..|weights| - 1];
    k := |weights| - 1;
  }

  lemma {:induction false} TotalGrows(weights: seq<nat>, i: nat, j: nat)
    requires i <= j <= |weights|
    ensures Total(weights[..i]) <= Total(weights[..j])
    decreases j - i
  {
    if i < j {
      TotalGrows(weights, i, j - 1);
      assert weights[..j][..j - 1] == weights[..j - 1];
    }
  }

  /** The mark falls in the `k`-th entry's share. */
  ghost predicate Falls(weights: seq<nat>, mark: real, k: nat) {
    k < |weights| && Total(weights[..k]) as real < mark <= Total(weights[..k + 1]) as real
  }

  /** The entries split the marks between them: each mark above 0 and up to the total falls to exactly
      one entry, whose span is its weight. */
  lemma MarksArePartitioned(weights: seq<nat>, mark: real)
    requires 0.0 < mark <= Total(weights) as real
    ensures exists k: nat :: Falls(weights, mark, k)
    ensures forall j: nat, k: nat :: Falls(weights, mark, j) && Falls(weights, mark, k) ==> j == k
    ensures forall k: nat :: k < |weights| ==> Total(weights[..k + 1]) == Total(weights[..k]) + weights[k]
  {
    hide Total, Falls;
    assert weights[..|weights|] == weights;
    var found := FallsBefore(weights, mark, |weights|);
    forall j: nat, k: nat | Falls(weights, mark, j) && Falls(weights, mark, k) ensures j == k {
      FallsOnce(weights, mark, j, k);
    }
    forall k: nat | k < |weights| ensures Total(weights[..k + 1]) == Total(weights[..k]) + weights[k] {
      TotalNext(weights, k);
    }
  }

  lemma FallsOnce(weights: seq<nat>, mark: real, j: nat, k: nat)
    requires Falls(weights, mark, j) && Falls(weights, mark, k)
    ensures j == k
  {
    hide Total;
    if j < k { TotalGrows(weights, j + 1, k); }
    if k < j { TotalGrows(weights, k + 1, j); }
  }

  lemma TotalNext(weights: seq<nat>, k: nat)
    requires k < |weights|
    ensures Total(weights[..k + 1]) == Total(weights[..k]) + weights[k]
  {
    assert weights[..k + 1][..k] == weights[..k];
  }

  lemma {:induction false} FallsBefore(weights: seq<nat>, mark: real, n: nat) returns (k: nat)
    requires n <= |weights| && 0.0 < mark <= Total(weights[..n]) as real
    ensures Falls(weights, mark, k)
    decreases n
  {
    if Total(weights[..n - 1]) as real < mark {
      k := n - 1;
    } else {
      k := FallsBefore(weights, mark, n - 1);
    }
  }
}
