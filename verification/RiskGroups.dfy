/** Grouping generated risk proposals into candidates: one group per de-duplication key, scored at
    its most exposed pair, and flattened again when sent. */
module RiskGroups {
  import opened Lists

  /** Texts are only compared and tested for being empty, which 0 is. */
  type Text = nat

  datatype Key = Dedupe(key: Text) | Fallback(scenario: Text, asset: Text)

  datatype Proposal = Proposal(id: nat, dedupe: Text, scenario: Text, asset: Text,
                               score: int, impact: int, likelihood: int,
                               title: Text, groupTitle: Text, queuedTitle: Text, rejected: bool,
                               labels: seq<Text>)

  datatype Group = Group(key: Key, pairs: seq<Proposal>, ticked: bool, title: Text,
                         likelihood: int, impact: int, controls: seq<Text>)

  /** What one pair sends: the pair with its group's title and scores. */
  datatype Item = Item(pair: Proposal, title: Text, likelihood: int, impact: int)

  function KeyOf(p: Proposal): Key {
    if p.dedupe != 0 then Dedupe(p.dedupe) else Fallback(p.scenario, p.asset)
  }

  // ------------------------------------------------------------- the most exposed pair

  /** `p` is more exposed than `q`: by score, then impact, then likelihood. */
  predicate Beats(p: Proposal, q: Proposal) {
    || p.score > q.score
    || (p.score == q.score && (p.impact > q.impact || (p.impact == q.impact && p.likelihood > q.likelihood)))
  }

  /** `q` is at most as exposed as `p`. */
  predicate AtMost(q: Proposal, p: Proposal) {
    && q.score <= p.score
    && (q.score == p.score ==> q.impact <= p.impact && (q.impact == p.impact ==> q.likelihood <= p.likelihood))
  }

  ghost predicate IsWorst(p: Proposal, pairs: seq<Proposal>) {
    p in pairs && forall q :: q in pairs ==> AtMost(q, p)
  }

  method Worst(pairs: seq<Proposal>) returns (likelihood: int, impact: int)
    requires pairs != []
    ensures exists p :: IsWorst(p, pairs) && likelihood == p.likelihood && impact == p.impact
    ensures (likelihood, impact) == WorstOf(pairs)
  {
    var best := pairs[0];
    for i := 0 to |pairs|
      invariant best in pairs && forall q :: q in pairs[..i] ==> !Beats(q, best)
      invariant best == if i == 0 then pairs[0] else WorstPair(pairs[..i])
    {
      var seen := pairs[..i + 1];
      assert seen == pairs[..i] + [pairs[i]] && |seen| == i + 1 && seen[i] == pairs[i] && seen[..i] == pairs[..i];
      assert i > 0 ==>
        WorstPair(seen) == if Beats(seen[i], WorstPair(seen[..i])) then seen[i] else WorstPair(seen[..i]);
      if Beats(pairs[i], best) { best := pairs[i]; }
    }
    assert pairs[..|pairs|] == pairs;
    return best.likelihood, best.impact;
  }

  function WorstPair(pairs: seq<Proposal>): Proposal
    requires pairs != []
  {
    if |pairs| == 1 then pairs[0]
    else
      var best, last := WorstPair(pairs[..|pairs| - 1]), pairs[|pairs| - 1];
      if Beats(last, best) then last else best
  }

  function WorstOf(pairs: seq<Proposal>): (int, int)
    requires pairs != []
  {
    (WorstPair(pairs).likelihood, WorstPair(pairs).impact)
  }

  lemma {:induction false} WorstPairIsWorst(pairs: seq<Proposal>)
    requires pairs != []
    ensures IsWorst(WorstPair(pairs), pairs)
  {
    if |pairs| > 1 {
      WorstPairIsWorst(pairs[..|pairs| - 1]);
      assert pairs == pairs[..|pairs| - 1] + [pairs[|pairs| - 1]];
    }
  }

  /** The scores do not depend on the order of the pairs, nor on which of several equally exposed
      pairs is taken. */
  lemma WorstIsOrderFree(a: seq<Proposal>, b: seq<Proposal>)
    requires a != [] && multiset(a) == multiset(b)
    ensures b != [] && WorstOf(a) == WorstOf(b)
    ensures forall p :: IsWorst(p, a) ==> (p.likelihood, p.impact) == WorstOf(a)
  {
    SameElements(a, b);
    WorstPairIsWorst(a);
    WorstPairIsWorst(b);
    assert WorstPair(a) in b && WorstPair(b) in a;
  }

  // ------------------------------------------------------------------------ grouping

  /** An insertion-ordered map from key to pairs. */
  datatype Entry = Entry(key: Key, pairs: seq<Proposal>)

  function Put(m: seq<Entry>, p: Proposal): seq<Entry> {
    if m == [] then [Entry(KeyOf(p), [p])]
    else if m[0].key == KeyOf(p) then [Entry(m[0].key, m[0].pairs + [p])] + m[1..]
    else [m[0]] + Put(m[1..], p)
  }

  function ByKey(proposals: seq<Proposal>): seq<Entry> {
    if proposals == [] then [] else Put(ByKey(proposals[..|proposals| - 1]), proposals[|proposals| - 1])
  }

  function WithKey(proposals: seq<Proposal>, key: Key): seq<Proposal> {
    Filter(proposals, p => KeyOf(p) == key)
  }

  /** `m` splits `proposals` by key, each part in the order it came in. */
  ghost predicate Splits(m: seq<Entry>, proposals: seq<Proposal>) {
    && (forall i, j :: 0 <= i < j < |m| ==> m[i].key != m[j].key)
    && (forall i :: 0 <= i < |m| ==> m[i].pairs != [] && m[i].pairs == WithKey(proposals, m[i].key))
    && (forall p :: p in proposals ==> exists i :: 0 <= i < |m| && m[i].key == KeyOf(p))
  }

  lemma {:induction false} PutPlaces(m: seq<Entry>, p: Proposal)
    requires forall i, j :: 0 <= i < j < |m| ==> m[i].key != m[j].key
    ensures var r := Put(m, p);
            && |m| <= |r| <= |m| + 1
            && (forall i, j :: 0 <= i < j < |r| ==> r[i].key != r[j].key)
            && (forall i :: 0 <= i < |m| ==>
                  r[i] == if m[i].key == KeyOf(p) then Entry(m[i].key, m[i].pairs + [p]) else m[i])
            && (|r| == |m| + 1 <==> forall i :: 0 <= i < |m| ==> m[i].key != KeyOf(p))
            && (|r| == |m| + 1 ==> r[|m|] == Entry(KeyOf(p), [p]))
  {
    if m != [] && m[0].key != KeyOf(p) {
      var tail := m[1..];
      assert forall i :: 0 <= i < |tail| ==> tail[i] == m[i + 1];
      PutPlaces(tail, p);
      var r, rest := Put(m, p), Put(tail, p);
      assert r == [m[0]] + rest;
      assert forall i :: 1 <= i < |r| ==> r[i] == rest[i - 1];
      assert forall i :: 1 <= i < |m| ==> m[i] == tail[i - 1];
    }
  }

  lemma WithKeyNext(proposals: seq<Proposal>, p: Proposal, key: Key)
    ensures WithKey(proposals + [p], key) == WithKey(proposals, key) + if KeyOf(p) == key then [p] else []
  {
    FilterAppend(proposals, [p], q => KeyOf(q) == key);
    assert [p][1..] == [];
  }

  lemma NewKeyIsEmpty(m: seq<Entry>, proposals: seq<Proposal>, key: Key)
    requires Splits(m, proposals) && forall i :: 0 <= i < |m| ==> m[i].key != key
    ensures WithKey(proposals, key) == []
  {
    forall q | q in proposals ensures KeyOf(q) != key {
      var j :| 0 <= j < |m| && m[j].key == KeyOf(q);
    }
    FilterNone(proposals, q => KeyOf(q) == key);
  }

  lemma PutCovers(m: seq<Entry>, proposals: seq<Proposal>, p: Proposal, q: Proposal)
    requires Splits(m, proposals) && q in proposals + [p]
    ensures exists i :: 0 <= i < |Put(m, p)| && Put(m, p)[i].key == KeyOf(q)
  {
    PutPlaces(m, p);
    var r := Put(m, p);
    if q in proposals {
      var i :| 0 <= i < |m| && m[i].key == KeyOf(q);
      assert r[i].key == KeyOf(q);
    } else if |r| == |m| + 1 {
      assert r[|m|].key == KeyOf(q);
    } else {
      var i :| 0 <= i < |m| && m[i].key == KeyOf(p);
      assert r[i].key == KeyOf(q);
    }
  }

  lemma PutSplits(m: seq<Entry>, proposals: seq<Proposal>, p: Proposal)
    requires Splits(m, proposals)
    ensures Splits(Put(m, p), proposals + [p])
  {
    var r := Put(m, p);
    PutPlaces(m, p);
    forall q | q in proposals + [p] ensures exists i :: 0 <= i < |r| && r[i].key == KeyOf(q) {
      PutCovers(m, proposals, p, q);
    }
    hide Put, WithKey;
    forall i | 0 <= i < |r| ensures r[i].pairs != [] && r[i].pairs == WithKey(proposals + [p], r[i].key) {
      WithKeyNext(proposals, p, r[i].key);
      if i == |m| { NewKeyIsEmpty(m, proposals, KeyOf(p)); }
    }
  }

  lemma NothingSplits()
    ensures Splits([], [])
  {
  }

  lemma {:induction false} ByKeySplits(proposals: seq<Proposal>)
    ensures Splits(ByKey(proposals), proposals)
  {
    hide Splits, Put;
    if proposals == [] {
      NothingSplits();
    } else {
      var front, p := proposals[..|proposals| - 1], proposals[|proposals| - 1];
      assert proposals == front + [p];
      ByKeySplits(front);
      PutSplits(ByKey(front), front, p);
      assert ByKey(proposals) == Put(ByKey(front), p);
    }
  }

  lemma PartsNotEmpty(proposals: seq<Proposal>)
    ensures forall i :: 0 <= i < |ByKey(proposals)| ==> ByKey(proposals)[i].pairs != []
  {
    ByKeySplits(proposals);
  }

  /** The texts that are not empty, each once, in order of first appearance. */
  function Unique(items: seq<Text>): seq<Text> {
    IncludeAll([], Filter(items, t => t != 0))
  }

  function TitleOf(pairs: seq<Proposal>): Text
    requires pairs != []
  {
    var first := pairs[0];
    if first.queuedTitle != 0 then first.queuedTitle
    else if |pairs| == 1 then first.title
    else if first.groupTitle != 0 then first.groupTitle
    else first.title
  }

  function GroupOf(e: Entry): Group
    requires e.pairs != []
  {
    Group(e.key, e.pairs, !e.pairs[0].rejected, TitleOf(e.pairs), WorstOf(e.pairs).0, WorstOf(e.pairs).1,
          Unique(FlatMap(e.pairs, (p: Proposal) => p.labels)))
  }

  /** The groups of a list of proposals, before they are sorted. */
  method ToGroups(proposals: seq<Proposal>) returns (groups: seq<Group>)
    ensures |groups| == |ByKey(proposals)|
    ensures forall i :: 0 <= i < |groups| ==>
              ByKey(proposals)[i].pairs != [] && groups[i] == GroupOf(ByKey(proposals)[i])
  {
    hide Put, Splits, TitleOf, WorstOf, Unique;
    var byKey := [];
    for i := 0 to |proposals|
      invariant byKey == ByKey(proposals[..i])
    {
      assert proposals[..i + 1][..i] == proposals[..i];
      byKey := Put(byKey, proposals[i]);
    }
    assert proposals[..|proposals|] == proposals;
    PartsNotEmpty(proposals);
    groups := [];
    for i := 0 to |byKey|
      invariant |groups| == i && forall j :: 0 <= j < i ==> byKey[j].pairs != [] && groups[j] == GroupOf(byKey[j])
    {
      var e := byKey[i];
      var likelihood, impact := Worst(e.pairs);
      groups := groups + [Group(e.key, e.pairs, !e.pairs[0].rejected, TitleOf(e.pairs), likelihood, impact,
                                Unique(FlatMap(e.pairs, (p: Proposal) => p.labels)))];
    }
  }

  ghost predicate KeysApart(groups: seq<Group>) {
    forall i, j :: 0 <= i < j < |groups| ==> groups[i].key != groups[j].key
  }

  /** The groups as the screen holds them, sorted in whatever order: a stable partition of the
      proposals by key, each scored at its most exposed pair. */
  ghost predicate Grouping(groups: seq<Group>, proposals: seq<Proposal>) {
    && KeysApart(groups)
    && (forall g :: g in groups ==> g.pairs != [] && g.pairs == WithKey(proposals, g.key))
    && (forall p :: p in proposals ==> exists g :: g in groups && g.key == KeyOf(p))
  }

  /** The sort's order does not matter to any of this. */
  lemma GroupsPartition(proposals: seq<Proposal>, made: seq<Group>, sorted: seq<Group>)
    requires |made| == |ByKey(proposals)|
    requires forall i :: 0 <= i < |made| ==> ByKey(proposals)[i].pairs != [] && made[i] == GroupOf(ByKey(proposals)[i])
    requires multiset(sorted) == multiset(made)
    ensures Grouping(sorted, proposals)
    ensures forall g :: g in sorted ==>
              exists p :: IsWorst(p, WithKey(proposals, g.key)) && (p.likelihood, p.impact) == (g.likelihood, g.impact)
  {
    ByKeySplits(proposals);
    SameElements(sorted, made);
    DistinctKeys(made, sorted);
    forall p | p in proposals ensures exists g :: g in sorted && g.key == KeyOf(p) {
      var i :| 0 <= i < |made| && ByKey(proposals)[i].key == KeyOf(p);
      assert made[i] in made && made[i] in sorted;
    }
    forall g | g in sorted
      ensures g.pairs != [] && g.pairs == WithKey(proposals, g.key)
      ensures exists p :: IsWorst(p, WithKey(proposals, g.key)) && (p.likelihood, p.impact) == (g.likelihood, g.impact)
    {
      assert g in made;
      var i :| 0 <= i < |made| && made[i] == g;
      WorstPairIsWorst(ByKey(proposals)[i].pairs);
    }
  }

  lemma DistinctKeys(a: seq<Group>, b: seq<Group>)
    requires multiset(a) == multiset(b)
    requires KeysApart(a)
    ensures KeysApart(b)
  {
    SameElements(a, b);
    PermutationDistinct(a, b);
    forall i, j | 0 <= i < j < |b| ensures b[i].key != b[j].key {
      assert b[i] in a && b[j] in a;
      var p :| 0 <= p < |a| && a[p] == b[i];
      var q :| 0 <= q < |a| && a[q] == b[j];
    }
  }

  // ------------------------------------------------------------------ edits and sending

  /** What the review screen can change: anything but a group's key and pairs. */
  ghost predicate Edited(before: seq<Group>, after: seq<Group>) {
    |before| == |after|
    && forall i :: 0 <= i < |before| ==> after[i].key == before[i].key && after[i].pairs == before[i].pairs
  }

  predicate IsTicked(g: Group) {
    g.ticked
  }

  function PairsOf(g: Group): seq<Proposal> {
    g.pairs
  }

  function ItemsOf(g: Group): seq<Item> {
    seq(|g.pairs|, i requires 0 <= i < |g.pairs| =>
      Item(g.pairs[i], if g.title != 0 then g.title else g.pairs[i].title, g.likelihood, g.impact))
  }

  function Sent(groups: seq<Group>): seq<Item> {
    FlatMap(Filter(groups, IsTicked), ItemsOf)
  }

  function Sources(items: seq<Item>): seq<Proposal> {
    seq(|items|, i requires 0 <= i < |items| => items[i].pair)
  }

  lemma {:induction false} SourcesOfSent(groups: seq<Group>)
    ensures Sources(FlatMap(groups, ItemsOf)) == FlatMap(groups, PairsOf)
  {
    if groups != [] {
      SourcesOfSent(groups[1..]);
      var a, b := ItemsOf(groups[0]), FlatMap(groups[1..], ItemsOf);
      assert Sources(a + b) == Sources(a) + Sources(b);
      assert Sources(a) == groups[0].pairs;
    }
  }

  lemma {:induction false} ElsewhereKeys(groups: seq<Group>, proposals: seq<Proposal>, p: Proposal)
    requires forall g :: g in groups ==> g.pairs == WithKey(proposals, g.key) && g.key != KeyOf(p)
    ensures multiset(FlatMap(groups, PairsOf))[p] == 0
  {
    if groups != [] {
      assert groups[0] in groups;
      ElsewhereKeys(groups[1..], proposals, p);
      assert p !in groups[0].pairs;
    }
  }

  lemma {:induction false} SameCount(proposals: seq<Proposal>, p: Proposal)
    ensures multiset(WithKey(proposals, KeyOf(p)))[p] == multiset(proposals)[p]
  {
    if proposals != [] {
      SameCount(proposals[1..], p);
      assert proposals == [proposals[0]] + proposals[1..];
    }
  }

  /** A proposal is sent as often as it was proposed when its group is ticked, and not otherwise. */
  lemma {:induction false} CountInGroups(groups: seq<Group>, proposals: seq<Proposal>, p: Proposal)
    requires KeysApart(groups)
    requires forall g :: g in groups ==> g.pairs == WithKey(proposals, g.key)
    ensures multiset(FlatMap(groups, PairsOf))[p] ==
            if exists g :: g in groups && g.key == KeyOf(p) then multiset(proposals)[p] else 0
  {
    if exists g :: g in groups && g.key == KeyOf(p) {
      hide FlatMap, WithKey;
      var rest := groups[1..];
      assert groups[0] in groups && groups == [groups[0]] + rest;
      assert forall i :: 0 <= i < |rest| ==> rest[i] == groups[i + 1];
      FirstGroup(groups);
      if groups[0].key == KeyOf(p) {
        ElsewhereKeys(rest, proposals, p);
        SameCount(proposals, p);
      } else {
        OtherKey(proposals, groups[0].key, p);
        CountInGroups(rest, proposals, p);
      }
    } else {
      ElsewhereKeys(groups, proposals, p);
    }
  }

  lemma FirstGroup(groups: seq<Group>)
    requires groups != []
    ensures multiset(FlatMap(groups, PairsOf)) == multiset(groups[0].pairs) + multiset(FlatMap(groups[1..], PairsOf))
  {
  }

  lemma OtherKey(proposals: seq<Proposal>, key: Key, p: Proposal)
    requires key != KeyOf(p)
    ensures multiset(WithKey(proposals, key))[p] == 0
  {
    assert p !in WithKey(proposals, key);
  }

  lemma {:induction false} TickedKeys(groups: seq<Group>)
    requires KeysApart(groups)
    ensures KeysApart(Filter(groups, IsTicked))
  {
    if groups != [] {
      var rest := groups[1..];
      TickedKeys(rest);
      var t := Filter(rest, IsTicked);
      forall g | g in t ensures g.key != groups[0].key {
        assert g in rest;
        var k :| 0 <= k < |rest| && rest[k] == g;
        assert groups[k + 1] == g;
      }
      FirstApart(groups[0], t);
      assert [] + t == t;
    }
  }

  lemma FirstApart(g: Group, t: seq<Group>)
    requires KeysApart(t) && forall x :: x in t ==> x.key != g.key
    ensures KeysApart([g] + t)
  {
    forall i, j | 0 <= i < j < |[g] + t| ensures ([g] + t)[i].key != ([g] + t)[j].key {
      assert t[j - 1] in t;
    }
  }

  ghost predicate Ticked(groups: seq<Group>, key: Key) {
    exists g :: g in groups && g.ticked && g.key == key
  }

  lemma SentCount(edited: seq<Group>, proposals: seq<Proposal>, p: Proposal)
    requires Grouping(edited, proposals)
    ensures multiset(Sources(Sent(edited)))[p] == if Ticked(edited, KeyOf(p)) then multiset(proposals)[p] else 0
  {
    var ticked := Filter(edited, IsTicked);
    SourcesOfSent(ticked);
    TickedKeys(edited);
    CountInGroups(ticked, proposals, p);
    if Ticked(edited, KeyOf(p)) {
      var g :| g in edited && g.ticked && g.key == KeyOf(p);
      assert g in ticked;
    }
  }

  /** After any edits, what is sent is each proposal of a ticked group, as often as it was proposed,
      and nothing else; with every group ticked it is a permutation of the proposals. */
  lemma SendingConserves(groups: seq<Group>, edited: seq<Group>, proposals: seq<Proposal>)
    requires Grouping(groups, proposals) && Edited(groups, edited)
    ensures forall p :: multiset(Sources(Sent(edited)))[p] ==
                        if Ticked(edited, KeyOf(p)) then multiset(proposals)[p] else 0
    ensures (forall g :: g in edited ==> g.ticked) ==> multiset(Sources(Sent(edited))) == multiset(proposals)
  {
    StillGrouping(groups, edited, proposals);
    hide Sent, Sources;
    forall p
      ensures multiset(Sources(Sent(edited)))[p] == if Ticked(edited, KeyOf(p)) then multiset(proposals)[p] else 0
    {
      SentCount(edited, proposals, p);
    }
    if forall g :: g in edited ==> g.ticked {
      forall p ensures multiset(Sources(Sent(edited)))[p] == multiset(proposals)[p] {
        AllTicked(edited, proposals, p);
      }
    }
  }

  lemma AllTicked(edited: seq<Group>, proposals: seq<Proposal>, p: Proposal)
    requires Grouping(edited, proposals) && forall g :: g in edited ==> g.ticked
    ensures p in proposals ==> Ticked(edited, KeyOf(p))
    ensures p !in proposals ==> multiset(proposals)[p] == 0
  {
    if p in proposals {
      var g :| g in edited && g.key == KeyOf(p);
    }
  }

  lemma StillGrouping(groups: seq<Group>, edited: seq<Group>, proposals: seq<Proposal>)
    requires Grouping(groups, proposals) && Edited(groups, edited)
    ensures Grouping(edited, proposals)
  {
    forall g | g in edited ensures g.pairs != [] && g.pairs == WithKey(proposals, g.key) {
      var i :| 0 <= i < |edited| && edited[i] == g;
      assert groups[i] in groups;
    }
    forall p | p in proposals ensures exists g :: g in edited && g.key == KeyOf(p) {
      var g :| g in groups && g.key == KeyOf(p);
      var i :| 0 <= i < |groups| && groups[i] == g;
      assert edited[i] in edited;
    }
  }

  lemma UniqueIsASet(items: seq<Text>)
    ensures Distinct(Unique(items))
    ensures forall t :: t in Unique(items) <==> t in items && t != 0
  {
    IncludeAllDistinct([], Filter(items, t => t != 0));
    IncludeAllMembers([], Filter(items, t => t != 0));
  }

  // ------------------------------------------------------------------ what an item carries

  /** The item is this group's: for one of its pairs, under the group's title, or the pair's own when that is empty,
      and with the group's scores. */
  ghost predicate Carries(x: Item, g: Group) {
    && x.pair in g.pairs
    && x.likelihood == g.likelihood && x.impact == g.impact
    && (g.title != 0 ==> x.title == g.title) && (g.title == 0 ==> x.title == x.pair.title)
  }

  lemma {:induction false} SentCarries(groups: seq<Group>, x: Item)
    requires x in FlatMap(groups, ItemsOf)
    ensures exists g :: g in groups && Carries(x, g)
  {
    if x in ItemsOf(groups[0]) {
      assert Carries(x, groups[0]);
    } else {
      SentCarries(groups[1..], x);
      var g :| g in groups[1..] && Carries(x, g);
      assert g in groups;
    }
  }

  /** After any edits every item sent is that of the one group with its pair's key, which is ticked. */
  lemma ItemsCarryTheirGroup(groups: seq<Group>, edited: seq<Group>, proposals: seq<Proposal>, x: Item)
    requires Grouping(groups, proposals) && Edited(groups, edited) && x in Sent(edited)
    ensures exists g :: g in edited && g.ticked && g.key == KeyOf(x.pair) && Carries(x, g)
    ensures forall g :: g in edited && g.key == KeyOf(x.pair) ==> g.ticked && Carries(x, g)
  {
    StillGrouping(groups, edited, proposals);
    hide ItemsOf;
    SentCarries(Filter(edited, IsTicked), x);
    var g :| g in Filter(edited, IsTicked) && Carries(x, g);
    assert g in edited && g.pairs == WithKey(proposals, g.key);
    hide Carries, WithKey;
    SameKeySameGroup(edited, KeyOf(x.pair));
  }

  lemma SameKeySameGroup(groups: seq<Group>, key: Key)
    requires KeysApart(groups)
    ensures forall g, h :: g in groups && h in groups && g.key == key && h.key == key ==> g == h
  {
    forall g, h | g in groups && h in groups && g.key == key && h.key == key ensures g == h {
      var i :| 0 <= i < |groups| && groups[i] == g;
      var j :| 0 <= j < |groups| && groups[j] == h;
    }
  }

  /** A group's labels are its pairs' labels that are not empty, each once. */
  lemma LabelsOfGroup(e: Entry, t: Text)
    requires e.pairs != []
    ensures Distinct(GroupOf(e).controls)
    ensures t in GroupOf(e).controls <==> t != 0 && exists p :: p in e.pairs && t in p.labels
  {
    hide TitleOf, WorstOf, Unique;
    UniqueIsASet(FlatMap(e.pairs, (p: Proposal) => p.labels));
    LabelsMember(e.pairs, t);
  }

  lemma {:induction false} LabelsMember(pairs: seq<Proposal>, t: Text)
    ensures t in FlatMap(pairs, (p: Proposal) => p.labels) <==> exists p :: p in pairs && t in p.labels
  {
    if pairs != [] {
      LabelsMember(pairs[1..], t);
      assert pairs == [pairs[0]] + pairs[1..];
    }
  }

  /** Sent as proposed, with nothing edited: a proposal goes out unless the first of its key was rejected before, with
      the scores of a most exposed proposal of its key. The title is the one queued for the key; else a proposal
      alone under its key keeps its own, and several take the first one's group title, or its title. */
  ghost predicate SentAsProposed(x: Item, proposals: seq<Proposal>) {
    var same := WithKey(proposals, KeyOf(x.pair));
    && x.pair in same
    && !same[0].rejected
    && (exists p :: IsWorst(p, same) && x.likelihood == p.likelihood && x.impact == p.impact)
    && (same[0].queuedTitle != 0 ==> x.title == same[0].queuedTitle)
    && (same[0].queuedTitle == 0 && |same| == 1 ==> x.title == x.pair.title)
    && (same[0].queuedTitle == 0 && |same| > 1 && same[0].groupTitle != 0 ==> x.title == same[0].groupTitle)
    && (same[0].queuedTitle == 0 && |same| > 1 && same[0].groupTitle == 0 && same[0].title != 0 ==>
          x.title == same[0].title)
  }

  /** The groups as first shown, in whatever order they were sorted. */
  ghost predicate Fresh(groups: seq<Group>, proposals: seq<Proposal>) {
    && Grouping(groups, proposals)
    && forall g :: g in groups ==> g.pairs != [] && g == GroupOf(Entry(g.key, g.pairs))
  }

  lemma MadeAreFresh(proposals: seq<Proposal>, made: seq<Group>, sorted: seq<Group>)
    requires |made| == |ByKey(proposals)|
    requires forall i :: 0 <= i < |made| ==> ByKey(proposals)[i].pairs != [] && made[i] == GroupOf(ByKey(proposals)[i])
    requires multiset(sorted) == multiset(made)
    ensures Fresh(sorted, proposals)
  {
    GroupsPartition(proposals, made, sorted);
    SameElements(sorted, made);
    hide Grouping;
    forall g | g in sorted ensures g.pairs != [] && g == GroupOf(Entry(g.key, g.pairs)) {
      var i :| 0 <= i < |made| && made[i] == g;
      var e := ByKey(proposals)[i];
      assert e == Entry(g.key, g.pairs);
    }
  }

  lemma UneditedIsSentAsProposed(groups: seq<Group>, proposals: seq<Proposal>)
    requires Fresh(groups, proposals)
    ensures forall x :: x in Sent(groups) ==> SentAsProposed(x, proposals)
    ensures forall p :: p in proposals ==>
                        (p in Sources(Sent(groups)) <==> !WithKey(proposals, KeyOf(p))[0].rejected)
  {
    hide Fresh, Sent, SentAsProposed, Sources;
    forall x | x in Sent(groups) ensures SentAsProposed(x, proposals) {
      ItemAsProposed(groups, proposals, x);
    }
    forall p | p in proposals ensures p in Sources(Sent(groups)) <==> !WithKey(proposals, KeyOf(p))[0].rejected {
      SentUnlessRejected(groups, proposals, p);
    }
  }

  lemma ItemAsProposed(groups: seq<Group>, proposals: seq<Proposal>, x: Item)
    requires Fresh(groups, proposals) && x in Sent(groups)
    ensures SentAsProposed(x, proposals)
  {
    hide Sent, WithKey, WorstPair, Unique, IsWorst;
    ItemsCarryTheirGroup(groups, groups, proposals, x);
    var g :| g in groups && g.ticked && g.key == KeyOf(x.pair) && Carries(x, g);
    WorstPairIsWorst(g.pairs);
    var p := WorstPair(g.pairs);
    assert IsWorst(p, g.pairs) && g.likelihood == p.likelihood && g.impact == p.impact;
  }

  lemma SentUnlessRejected(groups: seq<Group>, proposals: seq<Proposal>, p: Proposal)
    requires Fresh(groups, proposals) && p in proposals
    ensures p in Sources(Sent(groups)) <==> !WithKey(proposals, KeyOf(p))[0].rejected
  {
    hide Sent, Sources, WithKey, WorstOf, Unique, TitleOf;
    SentCount(groups, proposals, p);
    assert p in Sources(Sent(groups)) <==> multiset(Sources(Sent(groups)))[p] > 0;
    assert multiset(proposals)[p] > 0;
    var g :| g in groups && g.key == KeyOf(p);
    SameKeySameGroup(groups, KeyOf(p));
  }
}
