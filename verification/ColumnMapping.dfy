/** The import wizard's mapping of the file's columns to our fields: edits, counts, required
    fields, and saved profiles. */
module ColumnMapping {
  import opened Lists
  import opened Headings

  /** One of the file's headings; one of our fields, by its heading; a custom field's id. */
  type Header = string
  type Target = string
  type CustomId = string

  datatype Destination = Ignore | Field(target: Target) | Custom(id: CustomId)

  type Destinations = map<Header, Destination>

  // ------------------------------------------------------------ the select's values

  /** The option shown for a destination, and how a chosen option is read back. */
  function OptionOf(d: Destination): string {
    match d
    case Ignore => ""
    case Field(t) => t
    case Custom(id) => "cf:" + id
  }

  function Parse(raw: string): Destination {
    if raw == "" then Ignore
    else if |raw| >= 3 && raw[..3] == "cf:" then Custom(raw[3..])
    else Field(raw)
  }

  /** An option is read back as the destination it stands for, except a field whose heading is
      empty or starts like a custom field's option. */
  lemma OptionRoundTrip(d: Destination)
    ensures Parse(OptionOf(d)) == d <==> (d.Field? ==> d.target != "" && !("cf:" <= d.target))
  {
    match d
    case Ignore =>
    case Field(t) =>
      assert "cf:" <= t <==> |t| >= 3 && t[..3] == "cf:";
    case Custom(id) =>
      var raw := "cf:" + id;
      assert raw[..3] == "cf:" && raw[3..] == id;
  }

  /** The option chosen stands for this destination. */
  ghost predicate StandsFor(raw: string, d: Destination) {
    match d
    case Ignore => raw == ""
    case Custom(id) => raw == "cf:" + id
    case Field(t) => raw == t && raw != "" && !("cf:" <= raw)
  }

  lemma ParseMeans(raw: string, d: Destination)
    ensures Parse(raw) == d <==> StandsFor(raw, d)
  {
    assert "cf:" <= raw <==> |raw| >= 3 && raw[..3] == "cf:";
    if |raw| >= 3 && raw[..3] == "cf:" { assert raw == "cf:" + raw[3..]; }
    if d.Custom? {
      assert ("cf:" + d.id)[..3] == "cf:" && ("cf:" + d.id)[3..] == d.id;
    }
  }

  // --------------------------------------------------------------------- the edits

  /** `source` is sent to `to`; a field it takes is released by whoever held it. */
  function Assign(d: Destinations, source: Header, to: Destination): Destinations {
    map h | h in d.Keys + {source} ::
      if h == source then to
      else if to.Field? && d[h] == to then Ignore
      else d[h]
  }

  /** No two columns fill the same field. */
  ghost predicate Injective(d: Destinations) {
    forall a, b :: a in d && b in d && a != b && d[a].Field? ==> d[a] != d[b]
  }

  datatype Profile = Profile(fields: map<Header, Target>, customs: map<Header, CustomId>)

  datatype Suggestion = Suggestion(source: Header, target: Target)
  datatype CustomSuggestion = CustomSuggestion(source: Header, id: CustomId)

  /** What the backend found in the file and how it proposes to read it. */
  datatype Inspection = Inspection(headers: seq<Header>, suggestions: seq<Suggestion>, customs: seq<CustomSuggestion>)

  class Wizard {
    var found: Inspection
    var destinations: Destinations

    /** The backend's answer on the file is in: its suggested mapping is preselected. */
    constructor (found: Inspection)
      ensures this.found == found && destinations == Preselected(found)
    {
      this.found := found;
      destinations := map[];
      new;
      Preselect();
    }

    method Preselect()
      modifies this`destinations
      ensures destinations == Preselected(found)
    {
      var next: Destinations := AllIgnored(found.headers);
      for i := 0 to |found.suggestions|
        invariant Suggested(next, found.suggestions[i..]) == Suggested(AllIgnored(found.headers), found.suggestions)
      {
        assert found.suggestions[i..][1..] == found.suggestions[i + 1..];
        next := next[found.suggestions[i].source := Field(found.suggestions[i].target)];
      }
      for i := 0 to |found.customs|
        invariant WithCustoms(next, found.customs[i..]) == Preselected(found)
      {
        assert found.customs[i..][1..] == found.customs[i + 1..];
        next := next[found.customs[i].source := Custom(found.customs[i].id)];
      }
      destinations := next;
    }

    method SetDestination(source: Header, raw: string)
      modifies this`destinations
      ensures destinations == Assign(old(destinations), source, Parse(raw))
      ensures destinations.Keys == old(destinations.Keys) + {source} && StandsFor(raw, destinations[source])
      ensures forall h :: h in old(destinations) && h != source ==>
                destinations[h] == if old(destinations[h]).Field? && StandsFor(raw, old(destinations[h])) then Ignore
                                   else old(destinations[h])
    {
      forall to ensures Parse(raw) == to <==> StandsFor(raw, to) { ParseMeans(raw, to); }
      var next := destinations;
      var to := Parse(raw);
      if to.Field? {
        var others := next.Keys;
        while others != {}
          invariant others <= destinations.Keys && next.Keys == destinations.Keys
          invariant forall h :: h in next ==>
            next[h] == if h in others || h == source || destinations[h] != to then destinations[h] else Ignore
          decreases others
        {
          var other :| other in others;
          if other != source && next[other] == to { next := next[other := Ignore]; }
          others := others - {other};
        }
      }
      next := next[source := to];
      assert next == Assign(destinations, source, to);
      destinations := next;
    }

    /** Without a profile the suggested mapping is restored. */
    method ApplyProfile(profile: Option<Profile>)
      modifies this`destinations
      ensures destinations == if profile.Some? then Applied(found.headers, profile.value) else Preselected(found)
      ensures profile.Some? ==> destinations.Keys == ToSet(found.headers) && forall h :: h in found.headers ==>
                && (h in profile.value.customs ==> destinations[h] == Custom(profile.value.customs[h]))
                && (h !in profile.value.customs && h in profile.value.fields ==>
                      destinations[h] == Field(profile.value.fields[h]))
                && (h !in profile.value.customs && h !in profile.value.fields ==> destinations[h] == Ignore)
    {
      if profile == None {
        Preselect();
        return;
      }
      var headers, p := found.headers, profile.value;
      var next := AllIgnored(headers);
      var left := p.fields.Keys;
      while left != {}
        invariant left <= p.fields.Keys && next.Keys == ToSet(headers)
        invariant forall h :: h in next ==>
          next[h] == if h in p.fields && h !in left then Field(p.fields[h]) else Ignore
        decreases left
      {
        var source :| source in left;
        if source in headers { next := next[source := Field(p.fields[source])]; }
        left := left - {source};
      }
      left := p.customs.Keys;
      while left != {}
        invariant left <= p.customs.Keys && next.Keys == ToSet(headers)
        invariant forall h :: h in next ==>
          next[h] == if h in p.customs && h !in left then Custom(p.customs[h])
                     else if h in p.fields then Field(p.fields[h]) else Ignore
        decreases left
      {
        var source :| source in left;
        if source in headers { next := next[source := Custom(p.customs[source])]; }
        left := left - {source};
      }
      assert next == Applied(headers, p);
      destinations := next;
    }

    /** The two payloads the server expects, which are also what a profile saves. */
    method Payloads() returns (p: Profile)
      ensures p == Saved(destinations)
      ensures forall h, t :: (h in p.fields && p.fields[h] == t) <==> (h in destinations && destinations[h] == Field(t))
      ensures forall h, id ::
                (h in p.customs && p.customs[h] == id) <==> (h in destinations && destinations[h] == Custom(id))
    {
      var fields, customs := map[], map[];
      var left := destinations.Keys;
      while left != {}
        invariant left <= destinations.Keys
        invariant fields == map h | h in destinations && h !in left && destinations[h].Field? :: destinations[h].target
        invariant customs == map h | h in destinations && h !in left && destinations[h].Custom? :: destinations[h].id
        decreases left
      {
        var source :| source in left;
        match destinations[source] {
          case Field(t) => fields := fields[source := t];
          case Custom(id) => customs := customs[source := id];
          case Ignore =>
        }
        left := left - {source};
      }
      p := Profile(fields, customs);
    }
  }

  function AllIgnored(headers: seq<Header>): Destinations {
    map h | h in headers :: Ignore
  }

  function Applied(headers: seq<Header>, p: Profile): Destinations {
    map h | h in headers ::
      if h in p.customs then Custom(p.customs[h]) else if h in p.fields then Field(p.fields[h]) else Ignore
  }

  function Saved(d: Destinations): Profile {
    Profile(map h | h in d && d[h].Field? :: d[h].target, map h | h in d && d[h].Custom? :: d[h].id)
  }

  lemma AssignInjective(d: Destinations, source: Header, to: Destination)
    requires Injective(d)
    ensures Injective(Assign(d, source, to)) && Assign(d, source, to).Keys == d.Keys + {source}
    ensures source in Assign(d, source, to) && Assign(d, source, to)[source] == to
    ensures forall h :: h in d && h != source && !(to.Field? && d[h] == to) ==> Assign(d, source, to)[h] == d[h]
  {
  }

  datatype Edit = Edit(source: Header, raw: string)

  function EditAll(d: Destinations, edits: seq<Edit>): Destinations
    decreases |edits|
  {
    if edits == [] then d else EditAll(Assign(d, edits[0].source, Parse(edits[0].raw)), edits[1..])
  }

  /** Over any run of edits to the file's columns, no two columns come to fill the same field, and
      every column keeps a destination. */
  lemma {:induction false} EditsStayInjective(d: Destinations, edits: seq<Edit>)
    requires Injective(d)
    requires forall e :: e in edits ==> e.source in d
    ensures Injective(EditAll(d, edits)) && EditAll(d, edits).Keys == d.Keys
    decreases |edits|
  {
    if edits != [] {
      var e := edits[0];
      assert e in edits;
      AssignInjective(d, e.source, Parse(e.raw));
      hide Assign, Injective;
      EditsStayInjective(Assign(d, e.source, Parse(e.raw)), edits[1..]);
    }
  }

  /** No edit names the column, nor gives the field away. */
  ghost predicate Untouched(edits: seq<Edit>, h: Header, to: Destination) {
    forall e :: e in edits ==> e.source != h && !(to.Field? && StandsFor(e.raw, to))
  }

  /** Some edit sends the column there, and it is untouched after that. */
  ghost predicate LastSent(edits: seq<Edit>, h: Header, to: Destination) {
    exists i :: 0 <= i < |edits| && edits[i].source == h && StandsFor(edits[i].raw, to)
                && Untouched(edits[i + 1..], h, to)
  }

  lemma LastSentStep(edits: seq<Edit>, h: Header, to: Destination)
    requires edits != []
    ensures LastSent(edits, h, to) <==>
            LastSent(edits[1..], h, to)
            || (edits[0].source == h && StandsFor(edits[0].raw, to) && Untouched(edits[1..], h, to))
    ensures Untouched(edits, h, to) <==>
            Untouched(edits[1..], h, to) && edits[0].source != h && !(to.Field? && StandsFor(edits[0].raw, to))
  {
    hide StandsFor;
    var rest := edits[1..];
    assert edits == [edits[0]] + rest;
    hide Untouched;
    if i :| 0 <= i < |edits| && edits[i].source == h && StandsFor(edits[i].raw, to)
            && Untouched(edits[i + 1..], h, to) {
      if i > 0 {
        assert rest[i - 1] == edits[i] && rest[i..] == edits[i + 1..];
        assert Untouched(rest[(i - 1) + 1..], h, to);
      }
    }
    if i :| 0 <= i < |rest| && rest[i].source == h && StandsFor(rest[i].raw, to) && Untouched(rest[i + 1..], h, to) {
      assert edits[i + 1] == rest[i] && edits[i + 2..] == rest[i + 1..];
      assert Untouched(edits[(i + 1) + 1..], h, to);
    }
  }

  /** Over any run of edits a column ends up at a field or custom field exactly when it was sent there, or was there
      to begin with, and since then nobody sent it elsewhere or took its field. */
  lemma {:induction false} LastEditDecides(d: Destinations, edits: seq<Edit>, h: Header, to: Destination)
    requires to != Ignore
    ensures var end := EditAll(d, edits);
            h in end && end[h] == to <==>
            LastSent(edits, h, to) || (h in d && d[h] == to && Untouched(edits, h, to))
    decreases |edits|
  {
    if edits != [] {
      LastSentStep(edits, h, to);
      ParseMeans(edits[0].raw, to);
      hide StandsFor, Parse, LastSent, Untouched;
      LastEditDecides(Assign(d, edits[0].source, Parse(edits[0].raw)), edits[1..], h, to);
    }
  }

  // --------------------------------------------------------------------- the counts

  function MappedCount(d: Destinations): nat {
    |set h | h in d && d[h].Field?|
  }

  function CustomCount(d: Destinations): nat {
    |set h | h in d && d[h].Custom?|
  }

  /** The count the badge shows. */
  function IgnoredCount(headers: seq<Header>, d: Destinations): int {
    |headers| - MappedCount(d) - CustomCount(d)
  }

  lemma {:induction false} DuplicatesCost(headers: seq<Header>)
    ensures |ToSet(headers)| <= |headers|
    ensures |ToSet(headers)| == |headers| <==> Distinct(headers)
  {
    if headers != [] {
      var rest := headers[1..];
      DuplicatesCost(rest);
      assert headers == [headers[0]] + rest;
      if headers[0] in rest {
        assert ToSet(headers) == ToSet(rest);
        var i :| 0 <= i < |rest| && rest[i] == headers[0];
        assert headers[i + 1] == headers[0];
      } else {
        assert ToSet(headers) == ToSet(rest) + {headers[0]};
        if Distinct(rest) { DistinctAppend([headers[0]], rest); }
        if Distinct(headers) { DistinctParts([headers[0]], rest); }
      }
    }
  }

  /** Mapped, custom and ignored columns partition the distinct headings; the badge's ignored count
      is the number of ignored columns exactly when no heading is repeated. */
  lemma CountsPartition(headers: seq<Header>, d: Destinations)
    requires d.Keys == ToSet(headers)
    ensures var ignored := |set h | h in d && d[h].Ignore?|;
            && MappedCount(d) + CustomCount(d) + ignored == |ToSet(headers)|
            && (IgnoredCount(headers, d) == ignored <==> Distinct(headers))
  {
    var f := set h | h in d && d[h].Field?;
    var c := set h | h in d && d[h].Custom?;
    var i := set h | h in d && d[h].Ignore?;
    assert d.Keys == f + c + i;
    assert |f + c + i| == |f| + |c| + |i|;
    DuplicatesCost(headers);
  }

  /** For the headings the server hands on, the badge is right exactly when no repeated heading was given
      a name that the file uses itself. */
  lemma BadgeExactly(raw: seq<string>, d: Destinations)
    requires d.Keys == ToSet(Deduped(NamedAll(raw)))
    ensures IgnoredCount(Deduped(NamedAll(raw)), d) == |set h | h in d && d[h].Ignore?| <==> NoClash(NamedAll(raw))
  {
    CountsPartition(Deduped(NamedAll(raw)), d);
    DedupedExactly(NamedAll(raw));
  }

  /** A file on which it is wrong: two columns are ignored and the badge says three. */
  lemma BadgeCountsTwice()
    ensures var headers := Deduped(NamedAll(["A", "A", "A (2)"]));
            var d := AllIgnored(headers);
            IgnoredCount(headers, d) == 3 && |set h | h in d && d[h].Ignore?| == 2
  {
    HeadingsCanRepeat();
    var headers := Deduped(NamedAll(["A", "A", "A (2)"]));
    var d := AllIgnored(headers);
    assert d.Keys == {"A", "A (2)"} && "A" != "A (2)" by { assert |"A"| != |"A (2)"|; }
    assert (set h | h in d && d[h].Ignore?) == {"A", "A (2)"};
    assert (set h | h in d && d[h].Field?) == {} && (set h | h in d && d[h].Custom?) == {};
  }

  // ---------------------------------------------------------------- required fields

  function Taken(d: Destinations): set<Target> {
    set h | h in d && d[h].Field? :: d[h].target
  }

  function MissingRequired(required: seq<Target>, d: Destinations): seq<Target> {
    Filter(required, t => t !in Taken(d))
  }

  /** Preview opens only when each required field is filled, and then by exactly one column. */
  lemma NothingMissingMeansOneSource(required: seq<Target>, d: Destinations)
    requires Injective(d)
    ensures MissingRequired(required, d) == [] <==>
            forall t :: t in required ==> exists h :: h in d && d[h] == Field(t)
    ensures MissingRequired(required, d) == [] ==>
            forall t, a, b :: t in required && a in d && b in d && d[a] == Field(t) && d[b] == Field(t) ==> a == b
  {
    var missing := MissingRequired(required, d);
    forall t ensures t in Taken(d) <==> exists h :: h in d && d[h] == Field(t) {
      if t in Taken(d) {
        var h :| h in d && d[h].Field? && d[h].target == t;
        assert d[h] == Field(t);
      }
    }
    if missing != [] { assert missing[0] in missing; }
  }

  // ------------------------------------------------------------------------ profiles

  /** Saving a mapping and applying it to any file: the columns the file shares with it go where
      they went, every other column is ignored. */
  lemma ProfileRestricts(d: Destinations, headers: seq<Header>)
    ensures Applied(headers, Saved(d)) == map h | h in headers :: if h in d then d[h] else Ignore
    ensures Injective(d) ==> Injective(Applied(headers, Saved(d)))
  {
    var applied := Applied(headers, Saved(d));
    forall h | h in headers ensures applied[h] == if h in d then d[h] else Ignore {}
  }

  /** Applied to the same file it restores the mapping. */
  lemma ProfileRoundTrip(d: Destinations, headers: seq<Header>)
    requires d.Keys == ToSet(headers)
    ensures Applied(headers, Saved(d)) == d
    ensures Saved(Applied(headers, Saved(d))) == Saved(d)
  {
    ProfileRestricts(d, headers);
    assert forall h :: h in headers <==> h in d;
  }

  // -------------------------------------------------------- the suggested mapping

  function Suggested(d: Destinations, suggestions: seq<Suggestion>): Destinations
    decreases |suggestions|
  {
    if suggestions == [] then d
    else Suggested(d[suggestions[0].source := Field(suggestions[0].target)], suggestions[1..])
  }

  function WithCustoms(d: Destinations, customs: seq<CustomSuggestion>): Destinations
    decreases |customs|
  {
    if customs == [] then d else WithCustoms(d[customs[0].source := Custom(customs[0].id)], customs[1..])
  }

  function Preselected(found: Inspection): Destinations {
    WithCustoms(Suggested(AllIgnored(found.headers), found.suggestions), found.customs)
  }

  lemma {:induction false} SuggestedKeepsInjective(d: Destinations, suggestions: seq<Suggestion>)
    requires Injective(d)
    requires forall i, j :: 0 <= i < j < |suggestions| ==> suggestions[i].target != suggestions[j].target
    requires forall h, i :: h in d && 0 <= i < |suggestions| ==> d[h] != Field(suggestions[i].target)
    ensures Injective(Suggested(d, suggestions))
    ensures (forall s :: s in suggestions ==> s.source in d) ==> Suggested(d, suggestions).Keys == d.Keys
    decreases |suggestions|
  {
    if suggestions != [] {
      var s := suggestions[0];
      var next := d[s.source := Field(s.target)];
      forall h, i | h in next && 0 <= i < |suggestions[1..]| ensures next[h] != Field(suggestions[1..][i].target) {
        assert suggestions[1..][i] == suggestions[i + 1];
      }
      SuggestedKeepsInjective(next, suggestions[1..]);
      if forall s :: s in suggestions ==> s.source in d { assert s in suggestions && next.Keys == d.Keys; }
    }
  }

  /** Suggested custom fields take columns over; they never fill a field. */
  lemma {:induction false} CustomsKeepInjective(d: Destinations, customs: seq<CustomSuggestion>)
    requires Injective(d)
    ensures Injective(WithCustoms(d, customs))
    ensures (forall s :: s in customs ==> s.source in d) ==> WithCustoms(d, customs).Keys == d.Keys
    ensures forall s :: s in customs ==>
              s.source in WithCustoms(d, customs) && WithCustoms(d, customs)[s.source].Custom?
    ensures forall h :: h in d && d[h].Custom? ==> h in WithCustoms(d, customs) && WithCustoms(d, customs)[h].Custom?
    decreases |customs|
  {
    if customs != [] {
      var s := customs[0];
      var next := d[s.source := Custom(s.id)];
      CustomsKeepInjective(next, customs[1..]);
      if forall s :: s in customs ==> s.source in d { assert s in customs && next.Keys == d.Keys; }
      assert customs == [s] + customs[1..];
    }
  }

  /** The preselected mapping is injective when the server proposes no field twice, and covers just
      the file's columns when it proposes only those; a column with a suggested custom field goes
      there. */
  lemma PreselectedIsInjective(found: Inspection)
    requires forall i, j :: 0 <= i < j < |found.suggestions| ==>
               found.suggestions[i].target != found.suggestions[j].target
    ensures Injective(Preselected(found))
    ensures (forall s :: s in found.suggestions ==> s.source in found.headers) &&
            (forall s :: s in found.customs ==> s.source in found.headers) ==>
              Preselected(found).Keys == ToSet(found.headers)
    ensures forall s :: s in found.customs ==>
              s.source in Preselected(found) && Preselected(found)[s.source].Custom?
  {
    var d := AllIgnored(found.headers);
    SuggestedKeepsInjective(d, found.suggestions);
    CustomsKeepInjective(Suggested(d, found.suggestions), found.customs);
    assert d.Keys == ToSet(found.headers);
  }

  /** The last suggestion for a column. */
  ghost predicate LastSuggestion(suggestions: seq<Suggestion>, h: Header, t: Target) {
    exists i :: 0 <= i < |suggestions| && suggestions[i] == Suggestion(h, t)
                && forall j :: i < j < |suggestions| ==> suggestions[j].source != h
  }

  ghost predicate LastCustom(customs: seq<CustomSuggestion>, h: Header, id: CustomId) {
    exists i :: 0 <= i < |customs| && customs[i] == CustomSuggestion(h, id)
                && forall j :: i < j < |customs| ==> customs[j].source != h
  }

  lemma {:induction false} SuggestedAt(d: Destinations, suggestions: seq<Suggestion>, h: Header, t: Target)
    ensures LastSuggestion(suggestions, h, t) ==>
              h in Suggested(d, suggestions) && Suggested(d, suggestions)[h] == Field(t)
    ensures (forall s :: s in suggestions ==> s.source != h) ==>
              (h in Suggested(d, suggestions) <==> h in d) && (h in d ==> Suggested(d, suggestions)[h] == d[h])
    decreases |suggestions|
  {
    if suggestions != [] {
      var s, rest := suggestions[0], suggestions[1..];
      SuggestedAt(d[s.source := Field(s.target)], rest, h, t);
      assert suggestions == [s] + rest;
      if i :| 0 <= i < |suggestions| && suggestions[i] == Suggestion(h, t)
              && forall j :: i < j < |suggestions| ==> suggestions[j].source != h {
        assert forall j :: 0 <= j < |rest| ==> rest[j] == suggestions[j + 1];
        if i > 0 { assert rest[i - 1] == Suggestion(h, t); }
      }
    }
  }

  lemma {:induction false} CustomAt(d: Destinations, customs: seq<CustomSuggestion>, h: Header, id: CustomId)
    ensures LastCustom(customs, h, id) ==> h in WithCustoms(d, customs) && WithCustoms(d, customs)[h] == Custom(id)
    ensures (forall s :: s in customs ==> s.source != h) ==>
              (h in WithCustoms(d, customs) <==> h in d) && (h in d ==> WithCustoms(d, customs)[h] == d[h])
    decreases |customs|
  {
    if customs != [] {
      var s, rest := customs[0], customs[1..];
      CustomAt(d[s.source := Custom(s.id)], rest, h, id);
      assert customs == [s] + rest;
      if i :| 0 <= i < |customs| && customs[i] == CustomSuggestion(h, id)
              && forall j :: i < j < |customs| ==> customs[j].source != h {
        assert forall j :: 0 <= j < |rest| ==> rest[j] == customs[j + 1];
        if i > 0 { assert rest[i - 1] == CustomSuggestion(h, id); }
      }
    }
  }

  /** A column is preselected for the last custom field suggested for it; without one, for the last field suggested
      for it; and a column of the file nothing is suggested for is ignored. */
  lemma PreselectedAt(found: Inspection, h: Header, t: Target, id: CustomId)
    ensures var d := Preselected(found);
            && (LastCustom(found.customs, h, id) ==> h in d && d[h] == Custom(id))
            && ((forall s :: s in found.customs ==> s.source != h) && LastSuggestion(found.suggestions, h, t) ==>
                  h in d && d[h] == Field(t))
            && ((forall s :: s in found.customs ==> s.source != h)
                && (forall s :: s in found.suggestions ==> s.source != h) && h in found.headers ==>
                  h in d && d[h] == Ignore)
  {
    SuggestedAt(AllIgnored(found.headers), found.suggestions, h, t);
    CustomAt(Suggested(AllIgnored(found.headers), found.suggestions), found.customs, h, id);
  }
}
