/** The recheck of expected effects: which of the model's quotes become facts
    (backend/worker/cpl.py). */
module EffectRecheck {
  import opened Wrappers
  import opened PyText
  import Slices
  import O = OccurrenceFolding
  import opened EffectRegions

  /** The regions offered to the model, by reference: a later one replaces an earlier one. */
  type Regions = map<string, EffectRegion>

  function ByRef(regions: seq<EffectRegion>): (byRef: Regions)
    ensures forall ref :: ref in byRef ==> byRef[ref] in regions && O.EvidenceRef(byRef[ref].row) == ref
  {
    if regions == [] then map[]
    else
      var last := regions[|regions| - 1];
      ByRef(regions[..|regions| - 1])[O.EvidenceRef(last.row) := last]
  }

  /** A row of the model's answer. */
  datatype Row = Row(ref: string, quote: string, start: Option<int>, end: Option<int>)

  datatype Place = Place(ref: string, start: int, end: int)

  datatype Recovered = Recovered(place: Place, quote: string)

  datatype Recheck = Recheck(facts: seq<Recovered>, duplicates: nat, dropped: seq<Row>)

  predicate HasCoordinates(row: Row) {
    row.start.Some? && row.end.Some?
  }

  /** The offset a row stands for, if the server accepts it. */
  function OffsetOf(row: Row, text: string): (offset: Option<int>) {
    if row.quote == "" then None
    else if HasCoordinates(row) then
      if Slice(text, row.start.value, row.end.value) != row.quote then None else Some(row.start.value)
    else
      var first := Find(text, row.quote, 0);
      if first < 0 || Find(text, row.quote, first + 1) >= 0 then None else Some(first)
  }

  function PlaceOf(row: Row, regions: Regions): (place: Option<Place>)
    ensures place.Some? ==> row.ref in regions && place.value.ref == row.ref && row.quote != ""
  {
    if row.ref !in regions then None
    else
      match OffsetOf(row, regions[row.ref].row.text)
      case None => None
      case Some(offset) => Some(Place(row.ref, offset, offset + |row.quote|))
  }

  predicate SelectedBefore(place: Place, quote: string, region: EffectRegion) {
    exists span ::
      span in region.alreadySelected && span.start == place.start && span.end == place.end && span.text == quote
  }

  predicate Taken(place: Place, facts: seq<Recovered>) {
    exists fact :: fact in facts && fact.place == place
  }

  /** _recovered_effect_facts */
  function Recover(rows: seq<Row>, regions: Regions): (r: Recheck) {
    if rows == [] then Recheck([], 0, [])
    else
      var (init, row) := (Recover(rows[..|rows| - 1], regions), rows[|rows| - 1]);
      match PlaceOf(row, regions)
      case None => init.(dropped := init.dropped + [row])
      case Some(place) =>
        if SelectedBefore(place, row.quote, regions[row.ref]) || Taken(place, init.facts) then
          init.(duplicates := init.duplicates + 1)
        else init.(facts := init.facts + [Recovered(place, row.quote)])
  }

  method RecoveredEffectFacts(rows: seq<Row>, regions: Regions)
    returns (facts: seq<Recovered>, duplicates: nat, dropped: seq<Row>)
    ensures Recheck(facts, duplicates, dropped) == Recover(rows, regions)
  {
    hide SelectedBefore, Find;
    facts, duplicates, dropped := [], 0, [];
    var taken: set<Place> := {};
    for i := 0 to |rows|
      invariant Recheck(facts, duplicates, dropped) == Recover(rows[..i], regions)
      invariant forall place :: place in taken <==> Taken(place, facts)
    {
      assert rows[..i + 1][..i] == rows[..i];
      var row := rows[i];
      if row.ref !in regions || row.quote == "" {
        dropped := dropped + [row];
        continue;
      }
      var (text, quote) := (regions[row.ref].row.text, row.quote);
      var offset: int;
      if HasCoordinates(row) {
        if Slice(text, row.start.value, row.end.value) != quote {
          dropped := dropped + [row];
          continue;
        }
        offset := row.start.value;
      } else {
        var first := Find(text, quote, 0);
        if first < 0 || Find(text, quote, first + 1) >= 0 {
          dropped := dropped + [row];
          continue;
        }
        offset := first;
      }
      var place := Place(row.ref, offset, offset + |quote|);
      assert PlaceOf(row, regions) == Some(place);
      if SelectedBefore(place, quote, regions[row.ref]) || place in taken {
        duplicates := duplicates + 1;
      } else {
        taken := taken + {place};
        ghost var before := facts;
        facts := facts + [Recovered(place, quote)];
        OneMoreTaken(before, Recovered(place, quote));
      }
    }
    assert rows[..|rows|] == rows;
  }

  lemma OneMoreTaken(facts: seq<Recovered>, fact: Recovered)
    ensures forall place :: Taken(place, facts + [fact]) <==> Taken(place, facts) || place == fact.place
  {
    forall place ensures Taken(place, facts + [fact]) <==> Taken(place, facts) || place == fact.place {
      assert forall f :: f in facts + [fact] <==> f in facts || f == fact;
    }
  }

  // ---------------------------------------------------------------- what a recheck may add

  /** Every row is a fact, a duplicate or a drop, and the drops are the rows without a place. */
  lemma {:induction false} RowsAreSplit(rows: seq<Row>, regions: Regions, row: Row)
    ensures var r := Recover(rows, regions); |r.facts| + r.duplicates + |r.dropped| == |rows|
    ensures row in Recover(rows, regions).dropped <==> row in rows && PlaceOf(row, regions).None?
  {
    hide PlaceOf, SelectedBefore, Taken;
    if rows != [] {
      RowsAreSplit(rows[..|rows| - 1], regions, row);
      assert rows == rows[..|rows| - 1] + [rows[|rows| - 1]];
    }
  }

  /** A place that an accepted row names. */
  ghost predicate From(fact: Recovered, row: Row, regions: Regions) {
    row.quote == fact.quote && PlaceOf(row, regions) == Some(fact.place)
  }

  /** Facts come from accepted rows, at recorded places that are pairwise distinct and that no
      earlier selection of the same text has. A recorded place with a negative offset is not where
      the quote stands: see FactsRepeatExactly and FactsStandOnSelectionsExactly. */
  lemma {:induction false} PlacesAreNew(rows: seq<Row>, regions: Regions)
    ensures var facts := Recover(rows, regions).facts;
            && (forall i, j :: 0 <= i < j < |facts| ==> facts[i].place != facts[j].place)
            && (forall fact :: fact in facts ==> exists row :: row in rows && From(fact, row, regions))
            && (forall fact :: fact in facts ==>
                 fact.place.ref in regions && !SelectedBefore(fact.place, fact.quote, regions[fact.place.ref]))
  {
    hide PlaceOf, SelectedBefore;
    if rows != [] {
      var (init, row) := (rows[..|rows| - 1], rows[|rows| - 1]);
      PlacesAreNew(init, regions);
      assert rows == init + [row];
      var before := Recover(init, regions).facts;
      assert forall i :: 0 <= i < |before| ==> before[i] in before;
      var facts := Recover(rows, regions).facts;
      assert facts == before || facts == before + [Recovered(PlaceOf(row, regions).value, row.quote)];
      forall fact | fact in facts ensures exists row :: row in rows && From(fact, row, regions) {
        if fact in before {
          var earlier :| earlier in init && From(fact, earlier, regions);
          assert earlier in rows;
        } else {
          assert From(fact, row, regions);
        }
      }
    }
  }

  /** Every accepted row is remembered: its place is a fact, or an earlier selection's. */
  lemma {:induction false} EveryPlaceIsCovered(rows: seq<Row>, regions: Regions, row: Row)
    requires row in rows && PlaceOf(row, regions).Some?
    ensures var place := PlaceOf(row, regions).value;
            Taken(place, Recover(rows, regions).facts) || SelectedBefore(place, row.quote, regions[row.ref])
  {
    hide PlaceOf, SelectedBefore;
    var (init, last) := (rows[..|rows| - 1], rows[|rows| - 1]);
    assert rows == init + [last];
    if row in init {
      EveryPlaceIsCovered(init, regions, row);
    }
  }

  /** An earlier selection with this start, this end and this text. */
  ghost predicate HasSpan(region: EffectRegion, start: int, end: int, text: string) {
    exists span :: span in region.alreadySelected && span.start == start && span.end == end && span.text == text
  }

  /** The facts are exactly the places and quotes of the accepted rows, without those that an earlier
      selection of their region has with the same start, end and text. */
  lemma RecordedExactly(rows: seq<Row>, regions: Regions, fact: Recovered)
    ensures fact in Recover(rows, regions).facts <==>
              && (exists row :: row in rows && From(fact, row, regions)) && fact.place.ref in regions
              && !HasSpan(regions[fact.place.ref], fact.place.start, fact.place.end, fact.quote)
  {
    PlacesAreNew(rows, regions);
    if fact.place.ref in regions {
      SelectionHasSpan(fact, regions);
    }
    if row :| row in rows && From(fact, row, regions) {
      EveryPlaceIsCovered(rows, regions, row);
      hide PlaceOf, Recover, SelectedBefore, HasSpan;
      if other :| other in Recover(rows, regions).facts && other.place == fact.place {
        FactBehindPlace(rows, regions, row, other);
      }
    }
  }

  lemma SelectionHasSpan(fact: Recovered, regions: Regions)
    requires fact.place.ref in regions
    ensures SelectedBefore(fact.place, fact.quote, regions[fact.place.ref])
            <==> HasSpan(regions[fact.place.ref], fact.place.start, fact.place.end, fact.quote)
  {
  }

  /** In the order in which their places were first named. */
  lemma {:induction false} RecordedInOrder(rows: seq<Row>, regions: Regions, i: nat, j: nat, q: nat)
    requires i < j < |Recover(rows, regions).facts| && q < |rows|
    requires PlaceOf(rows[q], regions) == Some(Recover(rows, regions).facts[j].place)
    ensures exists p :: 0 <= p < q && From(Recover(rows, regions).facts[i], rows[p], regions)
  {
    var (init, last) := (rows[..|rows| - 1], rows[|rows| - 1]);
    var before := Recover(init, regions).facts;
    assert rows == init + [last];
    LastRow(rows, regions);
    hide PlaceOf, SelectedBefore, Recover, From;
    if j < |before| {
      var r := NamedAt(init, regions, before[j]);
      if q < |init| {
        r := q;
      }
      RecordedInOrder(init, regions, i, j, r);
      var p :| 0 <= p < r && From(before[i], init[p], regions);
      assert init[p] == rows[p];
    } else {
      if q < |init| {
        NamedBefore(init, regions, last, rows[q]);
      }
      var p := NamedAt(init, regions, before[i]);
      assert init[p] == rows[p];
    }
  }

  /** What the last row adds: nothing, or one fact at a place that is not taken. */
  lemma LastRow(rows: seq<Row>, regions: Regions)
    requires rows != []
    ensures var (init, last) := (rows[..|rows| - 1], rows[|rows| - 1]);
            var (before, facts) := (Recover(init, regions).facts, Recover(rows, regions).facts);
            || facts == before
            || (&& PlaceOf(last, regions).Some?
                && facts == before + [Recovered(PlaceOf(last, regions).value, last.quote)]
                && !Taken(PlaceOf(last, regions).value, before)
                && !SelectedBefore(PlaceOf(last, regions).value, last.quote, regions[last.ref]))
  {
    hide PlaceOf, SelectedBefore, Taken;
  }

  lemma NamedAt(rows: seq<Row>, regions: Regions, fact: Recovered) returns (p: nat)
    requires fact in Recover(rows, regions).facts
    ensures p < |rows| && From(fact, rows[p], regions) && PlaceOf(rows[p], regions) == Some(fact.place)
  {
    PlacesAreNew(rows, regions);
    hide PlaceOf, Recover, SelectedBefore;
    var row :| row in rows && From(fact, row, regions);
    p :| 0 <= p < |rows| && rows[p] == row;
  }

  /** A place that an earlier row named is taken, whoever names it again. */
  lemma NamedBefore(rows: seq<Row>, regions: Regions, last: Row, earlier: Row)
    requires earlier in rows && PlaceOf(last, regions).Some? && PlaceOf(earlier, regions) == PlaceOf(last, regions)
    ensures var place := PlaceOf(last, regions).value;
            Taken(place, Recover(rows, regions).facts) || SelectedBefore(place, last.quote, regions[last.ref])
  {
    EveryPlaceIsCovered(rows, regions, earlier);
    QuoteStands(earlier, regions);
    QuoteStands(last, regions);
  }

  /** An accepted quote is a literal slice of its region; without coordinates it occurs exactly
      once there, overlapping occurrences included. */
  lemma AcceptedQuotesAreLiteral(row: Row, text: string)
    requires OffsetOf(row, text).Some?
    ensures exists k: nat :: At(text, row.quote, k)
    ensures !HasCoordinates(row) ==>
              OffsetOf(row, text).value >= 0 && OnlyAt(text, row.quote, OffsetOf(row, text).value)
  {
    if HasCoordinates(row) {
      assert At(text, row.quote, Bound(row.start.value, |text|));
    }
  }

  /** So a quote without coordinates is accepted exactly when it has one place to be. */
  lemma AmbiguousQuotesAreDropped(row: Row, text: string)
    requires !HasCoordinates(row) && row.quote != ""
    ensures OffsetOf(row, text).Some? <==> exists k: nat :: OnlyAt(text, row.quote, k)
  {
    if OffsetOf(row, text).Some? {
      AcceptedQuotesAreLiteral(row, text);
    }
  }

  /** The recorded place is where the quote stands exactly when its offset is not negative. A
      negative Python offset is accepted, but the place it leaves names no stretch of the text. */
  lemma PlaceIsTrueExactly(row: Row, text: string)
    requires OffsetOf(row, text).Some?
    ensures var offset := OffsetOf(row, text).value;
            (offset >= 0 && At(text, row.quote, offset)) <==> (!HasCoordinates(row) || row.start.value >= 0)
  {
  }

  // ---------------------------------------------------------------- the stretches behind the places

  /** The stretch of the region that a fact was read from. */
  function TrueStart(fact: Recovered, regions: Regions): (start: nat)
    requires fact.place.ref in regions
  {
    Bound(fact.place.start, |regions[fact.place.ref].row.text|)
  }

  ghost predicate SameStretch(a: Recovered, b: Recovered, regions: Regions) {
    && a.place.ref in regions && a.place.ref == b.place.ref && a.quote == b.quote
    && TrueStart(a, regions) == TrueStart(b, regions)
  }

  /** The quote of an accepted row stands at its bound, and the bound is the offset unless that is
      negative. */
  lemma QuoteStands(row: Row, regions: Regions)
    requires PlaceOf(row, regions).Some?
    ensures var (place, text) := (PlaceOf(row, regions).value, regions[row.ref].row.text);
            && At(text, row.quote, Bound(place.start, |text|))
            && place.end == place.start + |row.quote| && |row.quote| > 0
            && (place.start >= 0 ==> Bound(place.start, |text|) == place.start)
  {
    PlaceIsTrueExactly(row, regions[row.ref].row.text);
    if HasCoordinates(row) {
      assert At(regions[row.ref].row.text, row.quote, Bound(row.start.value, |regions[row.ref].row.text|));
    }
  }

  /** A fact behind an accepted row's place has the row's quote. */
  lemma FactBehindPlace(rows: seq<Row>, regions: Regions, row: Row, fact: Recovered)
    requires PlaceOf(row, regions).Some? && fact in Recover(rows, regions).facts
    requires fact.place == PlaceOf(row, regions).value
    ensures fact == Recovered(fact.place, row.quote)
  {
    PlacesAreNew(rows, regions);
    hide Recover, PlaceOf;
    var other :| other in rows && From(fact, other, regions);
    QuoteStands(row, regions);
    QuoteStands(other, regions);
  }

  /** Two rows that the server takes for two passages although they quote one: same region, same
      quote, one stretch, two offsets, and neither offset recorded before. */
  predicate NameOneStretchTwice(a: Row, b: Row, regions: Regions) {
    match (PlaceOf(a, regions), PlaceOf(b, regions))
    case (Some(p), Some(q)) =>
      && a.ref == b.ref && a.quote == b.quote && p.start != q.start
      && Bound(p.start, |regions[a.ref].row.text|) == Bound(q.start, |regions[a.ref].row.text|)
      && !SelectedBefore(p, a.quote, regions[a.ref]) && !SelectedBefore(q, b.quote, regions[b.ref])
    case _ => false
  }

  /** Two facts come from one stretch exactly when two rows name it with different offsets. */
  lemma FactsRepeatExactly(rows: seq<Row>, regions: Regions)
    ensures var facts := Recover(rows, regions).facts;
            (exists i, j :: 0 <= i < j < |facts| && SameStretch(facts[i], facts[j], regions))
            <==> (exists a, b :: a in rows && b in rows && NameOneStretchTwice(a, b, regions))
  {
    hide PlaceOf, Recover, SelectedBefore;
    var facts := Recover(rows, regions).facts;
    if i, j :| 0 <= i < j < |facts| && SameStretch(facts[i], facts[j], regions) {
      RepeatedRows(rows, regions, i, j);
    }
    if a, b :| a in rows && b in rows && NameOneStretchTwice(a, b, regions) {
      var i := FactOf(rows, regions, a);
      var j := FactOf(rows, regions, b);
      assert SameStretch(facts[i], facts[j], regions) && SameStretch(facts[j], facts[i], regions);
    }
  }

  lemma RepeatedRows(rows: seq<Row>, regions: Regions, i: nat, j: nat)
    requires var facts := Recover(rows, regions).facts; i < j < |facts| && SameStretch(facts[i], facts[j], regions)
    ensures exists a, b :: a in rows && b in rows && NameOneStretchTwice(a, b, regions)
  {
    PlacesAreNew(rows, regions);
    hide PlaceOf, Recover, SelectedBefore;
    var facts := Recover(rows, regions).facts;
    assert facts[i] in facts && facts[j] in facts;
    var a :| a in rows && From(facts[i], a, regions);
    var b :| b in rows && From(facts[j], b, regions);
    QuoteStands(a, regions);
    QuoteStands(b, regions);
    assert NameOneStretchTwice(a, b, regions);
  }

  /** The fact that keeps an accepted row's place. */
  lemma FactOf(rows: seq<Row>, regions: Regions, row: Row) returns (i: nat)
    requires row in rows && PlaceOf(row, regions).Some?
    requires !SelectedBefore(PlaceOf(row, regions).value, row.quote, regions[row.ref])
    ensures i < |Recover(rows, regions).facts|
    ensures Recover(rows, regions).facts[i] == Recovered(PlaceOf(row, regions).value, row.quote)
  {
    EveryPlaceIsCovered(rows, regions, row);
    hide PlaceOf, Recover, SelectedBefore;
    var facts := Recover(rows, regions).facts;
    var fact :| fact in facts && fact.place == PlaceOf(row, regions).value;
    FactBehindPlace(rows, regions, row, fact);
    i :| 0 <= i < |facts| && facts[i] == fact;
  }

  /** So with non-negative coordinates no two facts come from the same stretch. */
  lemma NonNegativeCoordinatesNeverRepeat(rows: seq<Row>, regions: Regions, i: nat, j: nat)
    requires forall row :: row in rows && HasCoordinates(row) ==> row.start.value >= 0
    requires i < j < |Recover(rows, regions).facts|
    ensures var facts := Recover(rows, regions).facts; !SameStretch(facts[i], facts[j], regions)
  {
    FactsRepeatExactly(rows, regions);
    hide Recover;
    forall a, b | a in rows && b in rows ensures !NameOneStretchTwice(a, b, regions) {
      if PlaceOf(a, regions).Some? && PlaceOf(b, regions).Some? {
        OffsetIsNatural(a, regions);
        OffsetIsNatural(b, regions);
        hide PlaceOf, SelectedBefore;
        QuoteStands(a, regions);
        QuoteStands(b, regions);
      }
    }
  }

  lemma OffsetIsNatural(row: Row, regions: Regions)
    requires PlaceOf(row, regions).Some? && (HasCoordinates(row) ==> row.start.value >= 0)
    ensures PlaceOf(row, regions).value.start >= 0
  {
  }

  const SAMPLE := EffectRegion(O.Fragment("doc", "b", "occ", 0, 2, "ab", None), [])

  /** A negative offset can name the stretch of a fact again: two facts for one passage. */
  lemma NegativeCoordinatesCanRepeat()
    ensures var regions: Regions := map["r" := SAMPLE];
            var rows := [Row("r", "a", Some(0), Some(1)), Row("r", "a", Some(-2), Some(-1))];
            var facts := Recover(rows, regions).facts;
            |facts| == 2 && facts[0].place.ref == facts[1].place.ref == "r" && SameStretch(facts[0], facts[1], regions)
  {
    var regions: Regions := map["r" := SAMPLE];
    var (one, two) := (Row("r", "a", Some(0), Some(1)), Row("r", "a", Some(-2), Some(-1)));
    assert Slice("ab", 0, 1) == "a" && Slice("ab", -2, -1) == "a";
    assert PlaceOf(one, regions) == Some(Place("r", 0, 1)) && PlaceOf(two, regions) == Some(Place("r", -2, -1));
    assert [one, two][..1] == [one] && [one][..0] == [];
    assert Recover([one], regions).facts == [Recovered(Place("r", 0, 1), "a")];
    assert Recover([one, two], regions).facts == [Recovered(Place("r", 0, 1), "a"), Recovered(Place("r", -2, -1), "a")];
  }

  // ---------------------------------------------------------------- facts and earlier selections

  /** The regions that build_effect_candidates offers for these selections, by reference. */
  function Offered(selections: seq<Fact>, ctx: Context): (regions: Regions) {
    ByRef(RegionsOf(selections, ctx, ctx.fragments))
  }

  /** A fact read from the very stretch of an earlier selection. */
  ghost predicate OnSelection(fact: Recovered, span: Span, regions: Regions) {
    && fact.place.ref in regions && span in regions[fact.place.ref].alreadySelected
    && TrueStart(fact, regions) == span.start && |fact.quote| == span.end - span.start
  }

  /** An accepted row that names the stretch of an earlier selection with a negative offset. */
  predicate NamesSelectionFromTheEnd(row: Row, span: Span, regions: Regions) {
    match PlaceOf(row, regions)
    case Some(place) =>
      && span in regions[row.ref].alreadySelected && place.start < 0
      && Bound(place.start, |regions[row.ref].row.text|) == span.start && |row.quote| == span.end - span.start
    case None => false
  }

  lemma OfferedSpans(selections: seq<Fact>, ctx: Context, ref: string, span: Span)
    requires Grounded(ctx) && ref in Offered(selections, ctx) && span in Offered(selections, ctx)[ref].alreadySelected
    ensures 0 <= span.start < span.end <= |Offered(selections, ctx)[ref].row.text|
    ensures Offered(selections, ctx)[ref].row.text[span.start..span.end] == span.text
  {
    var region := Offered(selections, ctx)[ref];
    assert region in RegionsOf(selections, ctx, ctx.fragments);
    SelectedSpansAreLiteral(selections, ctx, region.row, span);
  }

  /** From profile facts to recovered facts: in the regions built from grounded fragments, whatever
      the model answers, no fact records the place of an earlier selection, and a fact whose
      recorded offset is not negative does not stand on one. */
  lemma FactsLieOutsideEarlierSelections(selections: seq<Fact>, ctx: Context, rows: seq<Row>, fact: Recovered,
                                         span: Span)
    requires Grounded(ctx) && fact in Recover(rows, Offered(selections, ctx)).facts
    requires fact.place.ref in Offered(selections, ctx)
    requires span in Offered(selections, ctx)[fact.place.ref].alreadySelected
    ensures fact.place.start != span.start || fact.place.end != span.end
    ensures fact.place.start >= 0 ==> !OnSelection(fact, span, Offered(selections, ctx))
  {
    var regions := Offered(selections, ctx);
    OfferedSpans(selections, ctx, fact.place.ref, span);
    PlacesAreNew(rows, regions);
    hide PlaceOf, Recover, Offered, Grounded;
    var row :| row in rows && From(fact, row, regions);
    QuoteStands(row, regions);
  }

  /** A fact stands on an earlier selection exactly when an accepted row names that selection's
      stretch with a negative offset. */
  lemma FactsStandOnSelectionsExactly(selections: seq<Fact>, ctx: Context, rows: seq<Row>)
    requires Grounded(ctx)
    ensures var regions := Offered(selections, ctx);
            (exists fact, span :: fact in Recover(rows, regions).facts && OnSelection(fact, span, regions))
            <==> (exists row, span :: row in rows && NamesSelectionFromTheEnd(row, span, regions))
  {
    var regions := Offered(selections, ctx);
    hide PlaceOf, Recover, Offered, Grounded, SelectedBefore;
    if fact, span :| fact in Recover(rows, regions).facts && OnSelection(fact, span, regions) {
      FactsLieOutsideEarlierSelections(selections, ctx, rows, fact, span);
      PlacesAreNew(rows, regions);
      var row :| row in rows && From(fact, row, regions);
      assert NamesSelectionFromTheEnd(row, span, regions);
    }
    if row, span :| row in rows && NamesSelectionFromTheEnd(row, span, regions) {
      NegativePlacesAreNotRecorded(selections, ctx, row);
      var i := FactOf(rows, regions, row);
      assert OnSelection(Recover(rows, regions).facts[i], span, regions);
    }
  }

  lemma NegativePlacesAreNotRecorded(selections: seq<Fact>, ctx: Context, row: Row)
    requires Grounded(ctx) && PlaceOf(row, Offered(selections, ctx)).Some?
    requires PlaceOf(row, Offered(selections, ctx)).value.start < 0
    ensures !SelectedBefore(PlaceOf(row, Offered(selections, ctx)).value, row.quote, Offered(selections, ctx)[row.ref])
  {
    hide PlaceOf, Offered, Grounded;
    forall span | span in Offered(selections, ctx)[row.ref].alreadySelected ensures span.start >= 0 {
      OfferedSpans(selections, ctx, row.ref, span);
    }
  }

  /** Every earlier selection can be promoted once more: count its start from the end. */
  lemma EverySelectionCanBePromotedAgain(selections: seq<Fact>, ctx: Context, ref: string, span: Span)
    requires Grounded(ctx) && ref in Offered(selections, ctx) && span in Offered(selections, ctx)[ref].alreadySelected
    ensures var regions := Offered(selections, ctx);
            var row := Row(ref, span.text, Some(span.start - |regions[ref].row.text|), Some(span.end));
            exists fact :: fact in Recover([row], regions).facts && OnSelection(fact, span, regions)
  {
    var regions := Offered(selections, ctx);
    OfferedSpans(selections, ctx, ref, span);
    var row := Row(ref, span.text, Some(span.start - |regions[ref].row.text|), Some(span.end));
    FromTheEnd(row, span, regions);
    NegativePlacesAreNotRecorded(selections, ctx, row);
    hide PlaceOf, Recover, Offered, Grounded, SelectedBefore;
    var i := FactOf([row], regions, row);
    assert OnSelection(Recover([row], regions).facts[i], span, regions);
  }

  const PASSAGE := O.Fragment("doc", "b", "occ", 0, 2, "ab", None)
  const SELECTION := Fact("b", "a", Some(0), Some(1))
  const ONE_PASSAGE := Context([PASSAGE], map["b" := PackBlock(["occ"], "ab")], map["occ" := "ab"])

  /** The selection "a" of the text "ab", quoted by the model as text[-2:1], is promoted again. */
  lemma NegativeCoordinatesCanRepeatASelection()
    ensures var (ref, regions) := (O.EvidenceRef(PASSAGE), Offered([SELECTION], ONE_PASSAGE));
            exists fact :: fact in Recover([Row(ref, "a", Some(-2), Some(1))], regions).facts
                           && OnSelection(fact, Span(0, 1, "a"), regions)
  {
    PassageIsOffered();
    hide Offered, Recover, OnSelection, O.EvidenceRef;
    EverySelectionCanBePromotedAgain([SELECTION], ONE_PASSAGE, O.EvidenceRef(PASSAGE), Span(0, 1, "a"));
  }

  lemma PassageIsOffered()
    ensures var (ref, regions) := (O.EvidenceRef(PASSAGE), Offered([SELECTION], ONE_PASSAGE));
            Grounded(ONE_PASSAGE) && ref in regions && regions[ref].row == PASSAGE && |PASSAGE.text| == 2
            && Span(0, 1, "a") in regions[ref].alreadySelected
  {
    hide Selected, O.EvidenceRef;
    var (facts, region) := ([SELECTION], RegionOf([SELECTION], ONE_PASSAGE, PASSAGE));
    SelectionMoves();
    SelectionLands(Placed("occ", 0, 1, "a"));
    LandedIsSelected(facts, ONE_PASSAGE, SELECTION);
    assert RegionsOf(facts, ONE_PASSAGE, [PASSAGE]) == [region];
    OnlyRegion(region);
  }

  lemma OnlyRegion(region: EffectRegion)
    ensures ByRef([region]) == map[O.EvidenceRef(region.row) := region]
  {
    assert ByRef([region][..0]) == map[];
  }

  lemma SelectionMoves()
    ensures ToOccurrence(SELECTION, ONE_PASSAGE) == Some(Placed("occ", 0, 1, "a"))
  {
    assert Slice("ab", 0, 1) == "a";
  }

  lemma SelectionLands(placed: Placed)
    requires placed == Placed("occ", 0, 1, "a")
    ensures Placements(placed, [PASSAGE]) == [Hit(PASSAGE, Span(0, 1, "a"))]
  {
    assert PASSAGE in [PASSAGE];
    assert HitsAmong(placed, [PASSAGE][..0], true) == [];
  }

  lemma FromTheEnd(row: Row, span: Span, regions: Regions)
    requires row.ref in regions && span in regions[row.ref].alreadySelected
    requires var text := regions[row.ref].row.text;
             && 0 <= span.start < span.end <= |text| && text[span.start..span.end] == span.text
             && row == Row(row.ref, span.text, Some(span.start - |text|), Some(span.end))
    ensures NamesSelectionFromTheEnd(row, span, regions)
  {
    var text := regions[row.ref].row.text;
    assert Slice(text, span.start - |text|, span.end) == text[span.start..span.end];
    assert span.text != "";
  }

  /** The quote stands in the original text of the occurrence that its region was cut from. */
  ghost predicate StandsInDocument(fact: Recovered, regions: Regions, ctx: Context) {
    && fact.place.ref in regions
    && var cut := regions[fact.place.ref].row;
       cut in ctx.fragments && cut.occurrence in ctx.texts
       && At(ctx.texts[cut.occurrence], fact.quote, cut.start + TrueStart(fact, regions))
  }

  /** The fact stands neither on an earlier selection nor where another fact stands. */
  ghost predicate NewPassage(facts: seq<Recovered>, i: nat, regions: Regions)
    requires i < |facts|
  {
    && (forall span :: !OnSelection(facts[i], span, regions))
    && (forall j :: 0 <= j < |facts| && j != i ==> !SameStretch(facts[i], facts[j], regions))
  }

  /** From the document to the facts: every recovered quote stands in the original text, and with
      non-negative coordinates every one is a new passage. */
  lemma RecoveredFactsAreNewPassages(document: string, occurrences: seq<O.Occurrence>, grammar: O.Grammar,
                                     ctx: Context, selections: seq<Fact>, rows: seq<Row>, i: nat)
    requires ctx.fragments == O.Fragments(document, occurrences, grammar)
    requires O.TextsOf(occurrences, ctx.texts) && O.InsideTexts(occurrences, grammar)
    requires i < |Recover(rows, Offered(selections, ctx)).facts|
    ensures var regions := Offered(selections, ctx);
            var facts := Recover(rows, regions).facts;
            && StandsInDocument(facts[i], regions, ctx)
            && ((forall row :: row in rows && HasCoordinates(row) ==> row.start.value >= 0) ==>
                  NewPassage(facts, i, regions))
  {
    BuiltRegionsAreGrounded(document, occurrences, grammar, ctx);
    hide *;
    QuoteIsInTheDocument(selections, ctx, rows, i);
    if forall row :: row in rows && HasCoordinates(row) ==> row.start.value >= 0 {
      FactIsANewPassage(selections, ctx, rows, i);
    }
  }

  lemma QuoteIsInTheDocument(selections: seq<Fact>, ctx: Context, rows: seq<Row>, i: nat)
    requires Grounded(ctx) && i < |Recover(rows, Offered(selections, ctx)).facts|
    ensures var regions := Offered(selections, ctx);
            StandsInDocument(Recover(rows, regions).facts[i], regions, ctx)
  {
    var regions := Offered(selections, ctx);
    var fact := Recover(rows, regions).facts[i];
    PlacesAreNew(rows, regions);
    assert fact in Recover(rows, regions).facts;
    OfferedRegionIsCut(selections, ctx, fact.place.ref);
    hide PlaceOf, Recover, Offered, Grounded, SelectedBefore, At, Bound, O.CutFrom;
    var row :| row in rows && From(fact, row, regions);
    QuoteStands(row, regions);
    AtInTheWhole(ctx.texts, regions[fact.place.ref].row, fact.quote, TrueStart(fact, regions));
  }

  lemma FactIsANewPassage(selections: seq<Fact>, ctx: Context, rows: seq<Row>, i: nat)
    requires Grounded(ctx) && i < |Recover(rows, Offered(selections, ctx)).facts|
    requires forall row :: row in rows && HasCoordinates(row) ==> row.start.value >= 0
    ensures var regions := Offered(selections, ctx); NewPassage(Recover(rows, regions).facts, i, regions)
  {
    var regions := Offered(selections, ctx);
    var facts := Recover(rows, regions).facts;
    FactsStandOnSelectionsExactly(selections, ctx, rows);
    forall row, span | row in rows ensures !NamesSelectionFromTheEnd(row, span, regions) {
      if PlaceOf(row, regions).Some? {
        OffsetIsNatural(row, regions);
      }
    }
    hide Recover, Offered, OnSelection, SameStretch, Grounded;
    assert facts[i] in facts;
    forall j | 0 <= j < |facts| && j != i ensures !SameStretch(facts[i], facts[j], regions) {
      NonNegativeCoordinatesNeverRepeat(rows, regions, if i < j then i else j, if i < j then j else i);
      SameStretchBothWays(facts[i], facts[j], regions);
    }
  }

  lemma SameStretchBothWays(a: Recovered, b: Recovered, regions: Regions)
    ensures SameStretch(a, b, regions) <==> SameStretch(b, a, regions)
  {
  }

  lemma OfferedRegionIsCut(selections: seq<Fact>, ctx: Context, ref: string)
    requires Grounded(ctx) && ref in Offered(selections, ctx)
    ensures Offered(selections, ctx)[ref].row in ctx.fragments
    ensures O.CutFrom(Offered(selections, ctx)[ref].row, ctx.texts)
  {
    var regions := RegionsOf(selections, ctx, ctx.fragments);
    var i :| 0 <= i < |regions| && regions[i] == Offered(selections, ctx)[ref];
    assert regions[i] == RegionOf(selections, ctx, ctx.fragments[i]);
  }

  lemma AtInTheWhole(texts: map<string, string>, cut: O.Fragment, quote: string, k: nat)
    requires O.CutFrom(cut, texts) && At(cut.text, quote, k)
    ensures cut.occurrence in texts && At(texts[cut.occurrence], quote, cut.start + k)
  {
    Slices.SliceOfSlice(texts[cut.occurrence], cut.start, cut.end, k, k + |quote|);
  }
}
