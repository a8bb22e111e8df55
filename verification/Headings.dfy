/** The headings of an imported file as the server passes them on: blank ones are named by position
    and repeated ones numbered, so that a row can be read by heading. Headings are trimmed. */
module Headings {
  import opened Lists

  const DIGITS := "0123456789"

  function Decimal(n: nat): (r: string)
    ensures r != "" && forall c :: c in r ==> c in DIGITS
  {
    if n < 10 then [DIGITS[n]] else Decimal(n / 10) + [DIGITS[n % 10]]
  }

  lemma {:induction false} DecimalInjective(a: nat, b: nat)
    requires Decimal(a) == Decimal(b)
    ensures a == b
  {
    var x, y := Decimal(a), Decimal(b);
    assert x[|x| - 1] == DIGITS[a % 10] && y[|y| - 1] == DIGITS[b % 10];
    assert a % 10 == b % 10;
    if a >= 10 && b >= 10 {
      assert x[..|x| - 1] == Decimal(a / 10) && y[..|y| - 1] == Decimal(b / 10);
      DecimalInjective(a / 10, b / 10);
    }
  }

  /** What a decimal numeral stands for. */
  function ValueOf(digits: string): nat
    requires forall c :: c in digits ==> c in DIGITS
  {
    if digits == "" then 0
    else
      var n := |digits| - 1;
      assert digits[n] in digits;
      10 * ValueOf(digits[..n]) + DigitOf(digits[n])
  }

  function DigitOf(c: char): (d: nat)
    requires c in DIGITS
    ensures d < 10 && DIGITS[d] == c
  {
    var d :| 0 <= d < 10 && DIGITS[d] == c;
    d
  }

  lemma {:induction false} DecimalValue(n: nat)
    ensures ValueOf(Decimal(n)) == n
  {
    var s := Decimal(n);
    assert s[..|s| - 1] == if n < 10 then "" else Decimal(n / 10);
    assert s[|s| - 1] == DIGITS[n % 10];
    if n >= 10 { DecimalValue(n / 10); }
  }

  function Named(raw: string, position: nat): string {
    if raw == "" then "Column " + Decimal(position + 1) else raw
  }

  function NamedAll(raw: seq<string>): seq<string> {
    seq(|raw|, i requires 0 <= i < |raw| => Named(raw[i], i))
  }

  function Numbered(heading: string, n: nat): string {
    heading + " (" + Decimal(n) + ")"
  }

  /** How often the heading at `i` has occurred before. */
  function Before(names: seq<string>, i: nat): nat
    requires i < |names|
  {
    multiset(names[..i])[names[i]]
  }

  function UniqueAt(names: seq<string>, i: nat): string
    requires i < |names|
  {
    if Before(names, i) == 0 then names[i] else Numbered(names[i], Before(names, i) + 1)
  }

  function Deduped(names: seq<string>): seq<string> {
    seq(|names|, i requires 0 <= i < |names| => UniqueAt(names, i))
  }

  /** `seen` counts the headings so far. */
  ghost predicate Counts(seen: map<string, nat>, names: seq<string>) {
    && (forall h :: h in seen <==> h in names)
    && (forall h :: h in seen ==> seen[h] == multiset(names)[h])
  }

  lemma CountsNext(seen: map<string, nat>, names: seq<string>, h: string)
    requires Counts(seen, names)
    ensures (h in seen <==> multiset(names)[h] > 0) && (h in seen ==> seen[h] == multiset(names)[h])
    ensures Counts(seen[h := if h in seen then seen[h] + 1 else 1], names + [h])
  {
    assert h in names <==> h in multiset(names);
    assert multiset(names + [h]) == multiset(names) + multiset{h};
  }

  method DedupeHeaders(raw: seq<string>) returns (out: seq<string>)
    ensures out == Deduped(NamedAll(raw))
  {
    hide Counts, Named;
    ghost var names := NamedAll(raw);
    var seen: map<string, nat> := map[];
    out := [];
    NothingCounted();
    assert names[..0] == [];
    for i := 0 to |raw|
      invariant |out| == i && forall j :: 0 <= j < i ==> out[j] == UniqueAt(names, j)
      invariant Counts(seen, names[..i])
    {
      var header := Named(raw[i], i);
      assert names[..i + 1] == names[..i] + [header];
      CountsNext(seen, names[..i], header);
      if header in seen {
        seen := seen[header := seen[header] + 1];
        out := out + [Numbered(header, seen[header])];
      } else {
        seen := seen[header := 1];
        out := out + [header];
      }
    }
  }

  lemma NothingCounted()
    ensures Counts(map[], [])
  {
  }

  /** A number and the heading it was put behind can be read back. */
  lemma NumberedInjective(a: string, m: nat, b: string, n: nat)
    requires Numbered(a, m) == Numbered(b, n)
    ensures a == b && m == n
  {
    var s := Numbered(a, m);
    assert s[|a| + 1] == '(' && s[|b| + 1] == '(';
    if |a| < |b| { LastBracket(a, m, |b| + 1); }
    if |b| < |a| { LastBracket(b, n, |a| + 1); }
    assert s[..|a|] == a && s[..|b|] == b;
    assert s[|a| + 2..|s| - 1] == Decimal(m) && s[|b| + 2..|s| - 1] == Decimal(n);
    DecimalInjective(m, n);
  }

  lemma LastBracket(a: string, m: nat, k: nat)
    requires |a| + 1 < k < |Numbered(a, m)|
    ensures Numbered(a, m)[k] != '('
  {
    var s := Numbered(a, m);
    if k < |s| - 1 { assert s[k] == Decimal(m)[k - |a| - 2] && s[k] in Decimal(m); }
  }

  /** No repeated heading is given a name that the file uses itself. */
  ghost predicate NoClash(names: seq<string>) {
    forall i :: 0 <= i < |names| && Before(names, i) > 0 ==> UniqueAt(names, i) !in names
  }

  lemma {:induction false} FirstOccurrence(names: seq<string>, h: string) returns (i: nat)
    requires h in names
    ensures i < |names| && names[i] == h && Before(names, i) == 0
  {
    var front := names[..|names| - 1];
    if h in front {
      i := FirstOccurrence(front, h);
      assert front[..i] == names[..i];
    } else {
      i := |names| - 1;
      assert names == front + [names[i]];
      assert names[..i] == front && h !in multiset(front);
    }
  }

  lemma LaterCountsMore(names: seq<string>, i: nat, j: nat)
    requires i < j < |names| && names[i] == names[j]
    ensures Before(names, i) < Before(names, j)
  {
    assert names[..j] == names[..i] + names[i..j];
    assert names[i..j][0] == names[j] && names[j] in multiset(names[i..j]);
    assert multiset(names[..j]) == multiset(names[..i]) + multiset(names[i..j]);
  }

  lemma TwoAlike(names: seq<string>, i: nat, j: nat)
    requires NoClash(names) && i < j < |names|
    ensures UniqueAt(names, i) != UniqueAt(names, j)
  {
    var m, n := Before(names, i), Before(names, j);
    if names[i] == names[j] { LaterCountsMore(names, i, j); }
    if m > 0 && n > 0 && UniqueAt(names, i) == UniqueAt(names, j) {
      NumberedInjective(names[i], m + 1, names[j], n + 1);
    }
    assert names[i] in names && names[j] in names;
  }

  /** The headings handed on are distinct, if and only if no repeated heading is given a name that the
      file uses itself. */
  lemma DedupedExactly(names: seq<string>)
    ensures Distinct(Deduped(names)) <==> NoClash(names)
  {
    if NoClash(names) {
      forall i, j | 0 <= i < j < |names| ensures Deduped(names)[i] != Deduped(names)[j] { TwoAlike(names, i, j); }
    } else {
      var i :| 0 <= i < |names| && Before(names, i) > 0 && UniqueAt(names, i) in names;
      var k := FirstOccurrence(names, UniqueAt(names, i));
      assert Deduped(names)[k] == Deduped(names)[i] && k != i;
    }
  }

  /** The last one before `i` with the same heading. */
  ghost predicate SameBefore(names: seq<string>, k: int, i: int) {
    && 0 <= k < i < |names| && names[k] == names[i]
    && forall j :: k < j < i ==> names[j] != names[i]
  }

  /** The number put behind a heading, against the one put behind the same heading before it. */
  ghost predicate Follows(heading: string, first: bool, before: string, after: string) {
    if first then after == heading + " (2)"
    else exists n: nat :: before == heading + " (" + Decimal(n) + ")" && after == heading + " (" + Decimal(n + 1) + ")"
  }

  ghost predicate IsFirst(names: seq<string>, i: nat)
    requires i < |names|
  {
    forall k :: 0 <= k < i ==> names[k] != names[i]
  }

  lemma NumbersFollow(names: seq<string>, k: nat, i: nat)
    requires SameBefore(names, k, i)
    ensures Follows(names[i], IsFirst(names, k), UniqueAt(names, k), UniqueAt(names, i))
  {
    hide Decimal, IsFirst;
    NoneBefore(names, k);
    OneMoreBefore(names, k, i);
    Two();
    var n := Before(names, k) + 1;
    assert n == 1 || UniqueAt(names, k) == names[i] + " (" + Decimal(n) + ")";
    assert UniqueAt(names, i) == names[i] + " (" + Decimal(n + 1) + ")";
  }

  /** What a heading becomes, from the file alone: blank ones are named by their place; the first of its kind keeps
      its name, the second is numbered 2, and each later one has the number after that of the one before. */
  lemma NumberedInTurn(raw: seq<string>, i: nat)
    requires i < |raw|
    ensures var names, out := NamedAll(raw), Deduped(NamedAll(raw));
            && |names| == |out| == |raw|
            && names[i] == (if raw[i] != "" then raw[i] else "Column " + Decimal(i + 1))
            && (IsFirst(names, i) ==> out[i] == names[i])
            && forall k :: SameBefore(names, k, i) ==> Follows(names[i], IsFirst(names, k), out[k], out[i])
  {
    var names, out := NamedAll(raw), Deduped(NamedAll(raw));
    NameOf(raw[i], i);
    hide Named, Decimal, UniqueAt, Follows, IsFirst;
    forall k | SameBefore(names, k, i) ensures Follows(names[i], IsFirst(names, k), out[k], out[i]) {
      NumbersFollow(names, k, i);
    }
    assert IsFirst(names, i) ==> out[i] == names[i] by { FirstKeepsItsName(names, i); }
  }

  lemma FirstKeepsItsName(names: seq<string>, i: nat)
    requires i < |names|
    ensures IsFirst(names, i) ==> UniqueAt(names, i) == names[i]
  {
    NoneBefore(names, i);
  }

  lemma NameOf(raw: string, i: nat)
    ensures Named(raw, i) == if raw != "" then raw else "Column " + Decimal(i + 1)
  {
  }

  lemma Two()
    ensures Decimal(2) == "2"
  {
  }

  lemma NoneBefore(names: seq<string>, i: nat)
    requires i < |names|
    ensures Before(names, i) == 0 <==> IsFirst(names, i)
  {
    assert names[i] in multiset(names[..i]) <==> names[i] in names[..i];
  }

  lemma OneMoreBefore(names: seq<string>, k: nat, i: nat)
    requires SameBefore(names, k, i)
    ensures Before(names, i) == Before(names, k) + 1
  {
    var between := names[k + 1..i];
    assert names[..i] == names[..k] + [names[k]] + between;
    assert multiset(names[..i]) == multiset(names[..k]) + multiset{names[k]} + multiset(between);
    assert names[i] !in between;
    assert multiset(between)[names[i]] == 0;
  }

  /** Two equal headings and one that is the name the second of them is given. */
  lemma HeadingsCanRepeat()
    ensures Deduped(NamedAll(["A", "A", "A (2)"])) == ["A", "A (2)", "A (2)"]
  {
    var names := ["A", "A", "A (2)"];
    assert NamedAll(names) == names;
    assert names[..0] == [] && names[..1] == ["A"] && names[..2] == ["A", "A"];
    assert Before(names, 0) == 0 && Before(names, 1) == 1 && Before(names, 2) == 0;
    assert Decimal(2) == "2" && Numbered("A", 2) == "A (2)";
  }
}
