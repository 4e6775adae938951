/** Moving earlier selections from CandidatePack block coordinates to the coordinates of the
    expected-effect regions (backend/worker/cpl_effect.py). */
module EffectRegions {
  import opened Wrappers
  import opened PyText
  import opened Sorting
  import Slices
  import opened OccurrenceFolding

  /** A fact of the profile: its pack block, its value ("" for none), its block coordinates. */
  datatype Fact = Fact(block: string, value: string, start: Option<int>, end: Option<int>)

  datatype PackBlock = PackBlock(occurrences: seq<string>, text: string)

  datatype Placed = Placed(occurrence: string, start: int, end: int, text: string)

  /** A stretch of a region's text that is a value already. */
  datatype Span = Span(start: int, end: int, text: string)

  datatype Hit = Hit(row: Fragment, span: Span)

  datatype Context = Context(fragments: seq<Fragment>, blocks: map<string, PackBlock>, texts: map<string, string>)

  datatype EffectRegion = EffectRegion(row: Fragment, alreadySelected: seq<Span>)

  // ---------------------------------------------------------------- to the occurrence

  /** _to_occurrence: block coordinates carry over when the texts agree and the slice is the value;
      otherwise the value must occur exactly once. */
  function ToOccurrence(fact: Fact, ctx: Context): (placed: Option<Placed>)
    ensures placed.Some? ==>
              var p := placed.value;
              && p.text == fact.value != "" && p.occurrence in ctx.texts
              && Slice(ctx.texts[p.occurrence], p.start, p.end) == p.text
  {
    if fact.block !in ctx.blocks || fact.value == "" then None
    else
      var block := ctx.blocks[fact.block];
      if |block.occurrences| != 1 || block.occurrences[0] !in ctx.texts then None
      else
        var id := block.occurrences[0];
        var text := ctx.texts[id];
        if && block.text == text && fact.start.Some? && fact.end.Some?
           && Slice(text, fact.start.value, fact.end.value) == fact.value then
          Some(Placed(id, fact.start.value, fact.end.value, fact.value))
        else
          match UniqueIndex(text, fact.value)
          case None => None
          case Some(k) => Some(Placed(id, k, k + |fact.value|, fact.value))
  }

  // ---------------------------------------------------------------- into the regions

  /** Every occurrence of the text in a region from a position on, overlapping ones included. */
  function HitsFrom(row: Fragment, text: string, from: nat): (hits: seq<Hit>)
    decreases |row.text| + 1 - from
  {
    var k := Find(row.text, text, from);
    if k < 0 then [] else [Hit(row, Span(k, k + |text|, text))] + HitsFrom(row, text, k + 1)
  }

  predicate AnySame(placed: Placed, fragments: seq<Fragment>) {
    exists row :: row in fragments && row.occurrence == placed.occurrence
  }

  /** The places of a selection in one region: by its coordinates when some region is cut from the
      selection's own occurrence, by its text in the regions above and below it otherwise. */
  function HitsIn(placed: Placed, row: Fragment, same: bool): (hits: seq<Hit>) {
    if same then
      var (start, end) := (placed.start - row.start, placed.end - row.start);
      if row.occurrence == placed.occurrence && 0 <= start < end <= |row.text| then
        [Hit(row, Span(start, end, placed.text))]
      else []
    else if Nested(placed.occurrence, row.occurrence) || Nested(row.occurrence, placed.occurrence) then
      HitsFrom(row, placed.text, 0)
    else []
  }

  function HitsAmong(placed: Placed, fragments: seq<Fragment>, same: bool): (hits: seq<Hit>) {
    if fragments == [] then []
    else HitsAmong(placed, fragments[..|fragments| - 1], same) + HitsIn(placed, fragments[|fragments| - 1], same)
  }

  /** _placements */
  function Placements(placed: Placed, fragments: seq<Fragment>): (hits: seq<Hit>) {
    HitsAmong(placed, fragments, AnySame(placed, fragments))
  }

  method FindPlacements(placed: Placed, fragments: seq<Fragment>) returns (hits: seq<Hit>)
    ensures hits == Placements(placed, fragments)
  {
    hide HitsFrom;
    var same := AnySame(placed, fragments);
    hits := [];
    if same {
      for i := 0 to |fragments|
        invariant hits == HitsAmong(placed, fragments[..i], true)
      {
        assert fragments[..i + 1][..i] == fragments[..i];
        var row := fragments[i];
        var start, end := placed.start - row.start, placed.end - row.start;
        if row.occurrence == placed.occurrence && 0 <= start < end <= |row.text| {
          hits := hits + [Hit(row, Span(start, end, placed.text))];
        }
      }
    } else {
      for i := 0 to |fragments|
        invariant hits == HitsAmong(placed, fragments[..i], false)
      {
        assert fragments[..i + 1][..i] == fragments[..i];
        var row := fragments[i];
        if Nested(placed.occurrence, row.occurrence) || Nested(row.occurrence, placed.occurrence) {
          var more := EveryHit(row, placed.text);
          hits := hits + more;
        }
      }
    }
    assert fragments[..|fragments|] == fragments;
  }

  method EveryHit(row: Fragment, text: string) returns (hits: seq<Hit>)
    ensures hits == HitsFrom(row, text, 0)
  {
    hide Find;
    hits := [];
    var index := Find(row.text, text, 0);
    ghost var from := 0;
    while index >= 0
      invariant index == Find(row.text, text, from) && from <= |row.text| + 1
      invariant hits + HitsFrom(row, text, from) == HitsFrom(row, text, 0)
      decreases |row.text| + 1 - from
    {
      hits := hits + [Hit(row, Span(index, index + |text|, text))];
      from := index + 1;
      index := Find(row.text, text, index + 1);
    }
  }

  // ---------------------------------------------------------------- build_effect_candidates

  /** Where an earlier selection lands, if that is certain. */
  function Landing(fact: Fact, ctx: Context): (hit: Option<Hit>) {
    match ToOccurrence(fact, ctx)
    case None => None
    case Some(placed) =>
      var hits := Placements(placed, ctx.fragments);
      if |hits| == 1 then Some(hits[0]) else None
  }

  /** The spans recorded under one reference, in the order of the facts. */
  function Selected(facts: seq<Fact>, ctx: Context, ref: string): (spans: seq<Span>) {
    if facts == [] then []
    else
      var init := Selected(facts[..|facts| - 1], ctx, ref);
      match Landing(facts[|facts| - 1], ctx)
      case None => init
      case Some(hit) => if EvidenceRef(hit.row) == ref then init + [hit.span] else init
  }

  function Unplaced(facts: seq<Fact>, ctx: Context): (values: seq<string>) {
    if facts == [] then []
    else
      var (init, last) := (Unplaced(facts[..|facts| - 1], ctx), facts[|facts| - 1]);
      if last.value != "" && Landing(last, ctx).None? then init + [last.value] else init
  }

  predicate ByStart(a: Span, b: Span) {
    a.start <= b.start
  }

  function RegionOf(facts: seq<Fact>, ctx: Context, row: Fragment): (region: EffectRegion) {
    EffectRegion(row, SortBy(Selected(facts, ctx, EvidenceRef(row)), ByStart))
  }

  function RegionsOf(facts: seq<Fact>, ctx: Context, rows: seq<Fragment>): (regions: seq<EffectRegion>)
    ensures |regions| == |rows|
    ensures forall i :: 0 <= i < |rows| ==> regions[i] == RegionOf(facts, ctx, rows[i])
  {
    seq(|rows|, i requires 0 <= i < |rows| => RegionOf(facts, ctx, rows[i]))
  }

  function ReportedUnplaced(facts: seq<Fact>, ctx: Context): (values: seq<string>) {
    if ctx.fragments == [] then [] else FirstOnly(Unplaced(facts, ctx))
  }

  /** Without regions there is nothing to report, not even the values. */
  method BuildEffectCandidates(facts: seq<Fact>, ctx: Context)
    returns (regions: seq<EffectRegion>, unplaced: seq<string>)
    ensures regions == RegionsOf(facts, ctx, ctx.fragments)
    ensures unplaced == ReportedUnplaced(facts, ctx)
  {
    hide FirstOnly, EvidenceRef, SortBy, Selected, Unplaced;
    if ctx.fragments == [] { return [], []; }
    var selected, values := PlaceSelections(facts, ctx);
    regions := [];
    for i := 0 to |ctx.fragments|
      invariant regions == RegionsOf(facts, ctx, ctx.fragments[..i])
    {
      var row := ctx.fragments[i];
      var ref := EvidenceRef(row);
      regions := regions + [EffectRegion(row, SortBy(if ref in selected then selected[ref] else [], ByStart))];
    }
    assert ctx.fragments[..|ctx.fragments|] == ctx.fragments;
    unplaced := FirstOnly(values);
  }

  /** The dictionary of selected spans and the list of values without a place. */
  method PlaceSelections(facts: seq<Fact>, ctx: Context) returns (selected: map<string, seq<Span>>, values: seq<string>)
    ensures values == Unplaced(facts, ctx)
    ensures forall ref :: (if ref in selected then selected[ref] else []) == Selected(facts, ctx, ref)
  {
    hide ToOccurrence, Placements, EvidenceRef;
    selected, values := map[], [];
    for i := 0 to |facts|
      invariant values == Unplaced(facts[..i], ctx)
      invariant forall ref :: (if ref in selected then selected[ref] else []) == Selected(facts[..i], ctx, ref)
    {
      assert facts[..i + 1][..i] == facts[..i];
      var fact := facts[i];
      var placed := ToOccurrence(fact, ctx);
      if placed.None? {
        if fact.value != "" {
          values := values + [fact.value];
        }
      } else {
        var hits := FindPlacements(placed.value, ctx.fragments);
        ValueOfPlaced(fact, ctx);
        if |hits| != 1 {
          values := values + [placed.value.text];
        } else {
          var ref := EvidenceRef(hits[0].row);
          selected := selected[ref := (if ref in selected then selected[ref] else []) + [hits[0].span]];
        }
      }
    }
    assert facts[..|facts|] == facts;
  }

  lemma ValueOfPlaced(fact: Fact, ctx: Context)
    ensures ToOccurrence(fact, ctx).Some? ==> ToOccurrence(fact, ctx).value.text == fact.value != ""
  {
  }

  // ---------------------------------------------------------------- the text survives the move

  /** The hit's span is inside the region and slices it to the text. */
  ghost predicate Literal(hit: Hit, text: string) {
    && hit.span.text == text
    && 0 <= hit.span.start < hit.span.end <= |hit.row.text|
    && hit.row.text[hit.span.start..hit.span.end] == text
  }

  lemma {:induction false} SearchedHitsAreLiteral(row: Fragment, text: string, from: nat)
    requires text != ""
    ensures forall hit :: hit in HitsFrom(row, text, from) ==> hit.row == row && Literal(hit, text)
    decreases |row.text| + 1 - from
  {
    var k := Find(row.text, text, from);
    if k >= 0 {
      SearchedHitsAreLiteral(row, text, k + 1);
    }
  }

  lemma HitsInAreLiteral(placed: Placed, row: Fragment, same: bool, texts: map<string, string>)
    requires CutFrom(row, texts) && placed.text != ""
    requires placed.occurrence in texts && Slice(texts[placed.occurrence], placed.start, placed.end) == placed.text
    ensures forall hit :: hit in HitsIn(placed, row, same) ==> hit.row == row && Literal(hit, placed.text)
  {
    SearchedHitsAreLiteral(row, placed.text, 0);
    hide HitsFrom;
    if same && row.occurrence == placed.occurrence
       && 0 <= placed.start - row.start < placed.end - row.start <= |row.text| {
      var text := texts[placed.occurrence];
      Slices.SliceOfSlice(text, row.start, row.end, placed.start - row.start, placed.end - row.start);
    }
  }

  lemma {:induction false} HitComesFromARegion(placed: Placed, fragments: seq<Fragment>, same: bool, hit: Hit)
    requires hit in HitsAmong(placed, fragments, same)
    ensures exists i :: 0 <= i < |fragments| && hit in HitsIn(placed, fragments[i], same)
  {
    hide HitsIn;
    var n := |fragments| - 1;
    if hit !in HitsIn(placed, fragments[n], same) {
      HitComesFromARegion(placed, fragments[..n], same, hit);
      var i :| 0 <= i < n && hit in HitsIn(placed, fragments[..n][i], same);
      assert fragments[i] == fragments[..n][i];
    }
  }

  /** A selection that lands, lands on its own value: the region's text between the new
      coordinates is the fact's value, character by character. */
  lemma LandingIsLiteral(fact: Fact, ctx: Context)
    requires forall row :: row in ctx.fragments ==> CutFrom(row, ctx.texts)
    requires Landing(fact, ctx).Some?
    ensures Literal(Landing(fact, ctx).value, fact.value) && Landing(fact, ctx).value.row in ctx.fragments
  {
    var (placed, hit) := (ToOccurrence(fact, ctx).value, Landing(fact, ctx).value);
    var same := AnySame(placed, ctx.fragments);
    HitComesFromARegion(placed, ctx.fragments, same, hit);
    var i :| 0 <= i < |ctx.fragments| && hit in HitsIn(placed, ctx.fragments[i], same);
    HitsInAreLiteral(placed, ctx.fragments[i], same, ctx.texts);
  }

  // ---------------------------------------------------------------- one region per selection

  lemma {:induction false} TwoRegionsAddUp(placed: Placed, fragments: seq<Fragment>, same: bool, i: nat, j: nat)
    requires i < j < |fragments|
    ensures |HitsAmong(placed, fragments, same)| >= |HitsIn(placed, fragments[i], same)|
            + |HitsIn(placed, fragments[j], same)|
  {
    hide HitsIn;
    var n := |fragments| - 1;
    if j < n {
      TwoRegionsAddUp(placed, fragments[..n], same, i, j);
    } else {
      OneRegionCounts(placed, fragments[..n], same, i);
    }
  }

  lemma {:induction false} OneRegionCounts(placed: Placed, fragments: seq<Fragment>, same: bool, i: nat)
    requires i < |fragments|
    ensures |HitsAmong(placed, fragments, same)| >= |HitsIn(placed, fragments[i], same)|
  {
    hide HitsIn;
    if i < |fragments| - 1 {
      OneRegionCounts(placed, fragments[..|fragments| - 1], same, i);
    }
  }

  /** How many places a region offers depends on what it was cut from, not on who cut it. */
  lemma {:induction false} CopiesHitAlike(row: Fragment, copy: Fragment, text: string, from: nat)
    requires row.text == copy.text
    ensures |HitsFrom(row, text, from)| == |HitsFrom(copy, text, from)|
    decreases |row.text| + 1 - from
  {
    var k := Find(row.text, text, from);
    if k >= 0 {
      CopiesHitAlike(row, copy, text, k + 1);
    }
  }

  ghost predicate UnderRef(ctx: Context, i: nat, ref: string) {
    i < |ctx.fragments| && EvidenceRef(ctx.fragments[i]) == ref
  }

  /** All regions are cut, from one document, out of the texts the occurrences have. */
  ghost predicate Grounded(ctx: Context) {
    forall i, j :: 0 <= i < |ctx.fragments| && 0 <= j < |ctx.fragments| ==>
      CutFrom(ctx.fragments[i], ctx.texts) && ctx.fragments[i].document == ctx.fragments[j].document
  }

  /** Fragments built from a document whose occurrence ids are unique are grounded. */
  lemma BuiltRegionsAreGrounded(document: string, rows: seq<Occurrence>, grammar: Grammar, ctx: Context)
    requires ctx.fragments == Fragments(document, rows, grammar)
    requires TextsOf(rows, ctx.texts) && InsideTexts(rows, grammar)
    ensures Grounded(ctx)
  {
    FragmentsAreCutFromTheDocument(document, rows, grammar, ctx.texts);
    hide Fragments, CutFrom;
    assert forall i :: 0 <= i < |ctx.fragments| ==> ctx.fragments[i] in Fragments(document, rows, grammar);
  }

  /** A selection lands in at most one region: no other region has the reference it is filed
      under, even where the same stretch was cut out twice. */
  lemma LandsInOneRegion(fact: Fact, ctx: Context) returns (i: nat)
    requires Grounded(ctx) && Landing(fact, ctx).Some?
    ensures i < |ctx.fragments| && ctx.fragments[i] == Landing(fact, ctx).value.row
    ensures forall j: nat :: UnderRef(ctx, j, EvidenceRef(Landing(fact, ctx).value.row)) <==> j == i
  {
    var (placed, hit) := (ToOccurrence(fact, ctx).value, Landing(fact, ctx).value);
    var same := AnySame(placed, ctx.fragments);
    HitComesFromARegion(placed, ctx.fragments, same, hit);
    i :| 0 <= i < |ctx.fragments| && hit in HitsIn(placed, ctx.fragments[i], same);
    HitsInAreLiteral(placed, ctx.fragments[i], same, ctx.texts);
    forall j: nat | UnderRef(ctx, j, EvidenceRef(hit.row)) ensures j == i {
      RefIdentifies(ctx.fragments[i], ctx.fragments[j]);
      SameStretchHitsAlike(placed, ctx.fragments[i], ctx.fragments[j], same, ctx.texts);
      if j < i {
        TwoRegionsAddUp(placed, ctx.fragments, same, j, i);
      } else if i < j {
        TwoRegionsAddUp(placed, ctx.fragments, same, i, j);
      }
    }
  }

  lemma SameStretchHitsAlike(placed: Placed, row: Fragment, copy: Fragment, same: bool, texts: map<string, string>)
    requires CutFrom(row, texts) && CutFrom(copy, texts)
    requires row.occurrence == copy.occurrence && row.start == copy.start && row.end == copy.end
    ensures |HitsIn(placed, row, same)| == |HitsIn(placed, copy, same)|
  {
    CopiesHitAlike(row, copy, placed.text, 0);
  }

  // ---------------------------------------------------------------- when a selection lands

  /** Where a fact's value stands in the original: in the only occurrence of its block, at its own
      coordinates when block and occurrence agree there, and otherwise where it occurs once. */
  ghost predicate StandsAt(fact: Fact, ctx: Context, id: string, start: int, end: int) {
    && fact.value != "" && fact.block in ctx.blocks && ctx.blocks[fact.block].occurrences == [id] && id in ctx.texts
    && if OwnPlace(fact, ctx, id) then start == fact.start.value && end == fact.end.value
       else start >= 0 && end == start + |fact.value| && OnlyAt(ctx.texts[id], fact.value, start)
  }

  predicate OwnPlace(fact: Fact, ctx: Context, id: string)
    requires fact.block in ctx.blocks && id in ctx.texts
  {
    && ctx.blocks[fact.block].text == ctx.texts[id] && fact.start.Some? && fact.end.Some?
    && Slice(ctx.texts[id], fact.start.value, fact.end.value) == fact.value
  }

  lemma MovesExactly(fact: Fact, ctx: Context, placed: Placed)
    ensures ToOccurrence(fact, ctx) == Some(placed) <==>
              placed.text == fact.value && StandsAt(fact, ctx, placed.occurrence, placed.start, placed.end)
  {
    hide Slice, Find;
    if fact.block in ctx.blocks && |ctx.blocks[fact.block].occurrences| == 1 {
      var id := ctx.blocks[fact.block].occurrences[0];
      assert ctx.blocks[fact.block].occurrences == [id];
    }
  }

  /** A region that may hold the placed value, and where in it: by coordinates in the regions cut
      from the value's own occurrence if there are any, and otherwise wherever the text stands in a
      region above or below. */
  ghost predicate Candidate(placed: Placed, fragments: seq<Fragment>, i: nat, k: nat) {
    && i < |fragments|
    && if exists row :: row in fragments && row.occurrence == placed.occurrence then
         && fragments[i].occurrence == placed.occurrence && k == placed.start - fragments[i].start
         && placed.start < placed.end <= fragments[i].start + |fragments[i].text|
       else
         && (Nested(placed.occurrence, fragments[i].occurrence) || Nested(fragments[i].occurrence, placed.occurrence))
         && At(fragments[i].text, placed.text, k)
  }

  function HitAt(row: Fragment, k: nat, placed: Placed, same: bool): (hit: Hit) {
    Hit(row, Span(k, if same then placed.end - row.start else k + |placed.text|, placed.text))
  }

  lemma {:induction false} SearchFinds(row: Fragment, text: string, from: nat, hit: Hit)
    ensures hit in HitsFrom(row, text, from) <==>
              && hit == Hit(row, Span(hit.span.start, hit.span.start + |text|, text))
              && hit.span.start >= from && At(row.text, text, hit.span.start)
    decreases |row.text| + 1 - from
  {
    var k := Find(row.text, text, from);
    if k >= 0 {
      SearchFinds(row, text, k + 1, hit);
      hide Find, At;
    }
  }

  lemma {:induction false} SearchFindsOnce(row: Fragment, text: string, from: nat)
    ensures Distinct(HitsFrom(row, text, from))
    decreases |row.text| + 1 - from
  {
    var k := Find(row.text, text, from);
    if k >= 0 {
      SearchFindsOnce(row, text, k + 1);
      var rest := HitsFrom(row, text, k + 1);
      forall hit | hit in rest ensures hit.span.start > k {
        SearchFinds(row, text, k + 1, hit);
      }
      hide Find, HitsFrom;
      assert forall p :: 0 <= p < |rest| ==> rest[p] in rest;
    }
  }

  /** The candidates in one region are its hits, each once. */
  lemma HitsAreCandidates(placed: Placed, fragments: seq<Fragment>, i: nat, hit: Hit)
    requires i < |fragments|
    ensures var same := AnySame(placed, fragments);
            && (hit in HitsIn(placed, fragments[i], same) <==>
                  hit.span.start >= 0 && Candidate(placed, fragments, i, hit.span.start)
                  && hit == HitAt(fragments[i], hit.span.start, placed, same))
            && Distinct(HitsIn(placed, fragments[i], same))
  {
    SearchFinds(fragments[i], placed.text, 0, hit);
    SearchFindsOnce(fragments[i], placed.text, 0);
    hide HitsFrom, Find, At, Nested;
  }

  /** Exactly one place in exactly one region. */
  ghost predicate OnlyCandidate(placed: Placed, fragments: seq<Fragment>, i: nat, k: nat) {
    Candidate(placed, fragments, i, k) && forall j: nat, l: nat :: Candidate(placed, fragments, j, l) ==>
      j == i && l == k
  }

  /** Two hits come from two candidates. */
  lemma {:induction false} SecondHit(placed: Placed, fragments: seq<Fragment>, same: bool, first: Hit)
    requires |HitsAmong(placed, fragments, same)| > 1
    requires forall i :: 0 <= i < |fragments| ==> Distinct(HitsIn(placed, fragments[i], same))
    ensures exists i, hit :: 0 <= i < |fragments| && hit in HitsIn(placed, fragments[i], same)
              && (hit != first || exists j ::
                   0 <= j < |fragments| && j != i && first in HitsIn(placed, fragments[j], same))
  {
    hide HitsIn;
    var (n, init) := (|fragments| - 1, fragments[..|fragments| - 1]);
    var (earlier, own) := (HitsAmong(placed, init, same), HitsIn(placed, fragments[n], same));
    if |earlier| > 1 {
      SecondHit(placed, init, same, first);
      var i, hit :| 0 <= i < |init| && hit in HitsIn(placed, init[i], same)
        && (hit != first || exists j :: 0 <= j < |init| && j != i && first in HitsIn(placed, init[j], same));
      assert init[i] == fragments[i];
      if j :| 0 <= j < |init| && j != i && first in HitsIn(placed, init[j], same) {
        assert init[j] == fragments[j];
      }
    } else if |own| > 1 {
      assert own[0] in own && own[1] in own && own[0] != own[1];
      assert fragments[n] == fragments[n];
    } else {
      HitComesFromARegion(placed, init, same, earlier[0]);
      var i :| 0 <= i < |init| && earlier[0] in HitsIn(placed, init[i], same);
      assert fragments[i] == init[i] && own[0] in own;
      if earlier[0] == first && own[0] == first {
        assert earlier[0] in HitsIn(placed, fragments[i], same) && first in HitsIn(placed, fragments[n], same);
      }
    }
  }

  ghost predicate LandsAt(fact: Fact, ctx: Context, hit: Hit, placed: Placed, i: nat, k: nat) {
    && ToOccurrence(fact, ctx) == Some(placed) && i < |ctx.fragments| && OnlyCandidate(placed, ctx.fragments, i, k)
    && hit == HitAt(ctx.fragments[i], k, placed, AnySame(placed, ctx.fragments))
  }

  /** A value lands exactly when it has one candidate, and it lands there. */
  lemma LandsExactly(fact: Fact, ctx: Context, hit: Hit)
    ensures Landing(fact, ctx) == Some(hit) <==> exists placed, i: nat, k: nat :: LandsAt(fact, ctx, hit, placed, i, k)
  {
    hide ToOccurrence, HitsAmong, OnlyCandidate, HitAt, AnySame;
    if Landing(fact, ctx) == Some(hit) {
      var placed := ToOccurrence(fact, ctx).value;
      var i, k := OneHitOneCandidate(placed, ctx.fragments, hit);
      assert LandsAt(fact, ctx, hit, placed, i, k);
    }
    if placed, i: nat, k: nat :| LandsAt(fact, ctx, hit, placed, i, k) {
      OneCandidateOneHit(placed, ctx.fragments, i, k);
    }
  }

  lemma OneHitOneCandidate(placed: Placed, fragments: seq<Fragment>, hit: Hit) returns (i: nat, k: nat)
    requires Placements(placed, fragments) == [hit]
    ensures i < |fragments| && OnlyCandidate(placed, fragments, i, k)
    ensures hit == HitAt(fragments[i], k, placed, AnySame(placed, fragments))
  {
    var same := AnySame(placed, fragments);
    assert hit in HitsAmong(placed, fragments, same);
    HitComesFromARegion(placed, fragments, same, hit);
    i :| 0 <= i < |fragments| && hit in HitsIn(placed, fragments[i], same);
    HitsAreCandidates(placed, fragments, i, hit);
    k := hit.span.start;
    hide HitsIn, Candidate, AnySame;
    forall j: nat, l: nat | Candidate(placed, fragments, j, l) ensures j == i && l == k {
      CandidateIsInside(placed, fragments, j, l);
      var other := HitAt(fragments[j], l, placed, same);
      HitsAreCandidates(placed, fragments, j, other);
      assert other in HitsIn(placed, fragments[j], same);
      if j < i {
        TwoRegionsAddUp(placed, fragments, same, j, i);
      } else if i < j {
        TwoRegionsAddUp(placed, fragments, same, i, j);
      } else {
        OneRegionCounts(placed, fragments, same, i);
        var hits := HitsIn(placed, fragments[i], same);
        assert |hits| <= 1 && hits[0] == hit && other == hit;
      }
    }
  }

  lemma CandidateIsInside(placed: Placed, fragments: seq<Fragment>, i: nat, k: nat)
    requires Candidate(placed, fragments, i, k)
    ensures i < |fragments|
  {
  }

  lemma OneCandidateOneHit(placed: Placed, fragments: seq<Fragment>, i: nat, k: nat)
    requires OnlyCandidate(placed, fragments, i, k)
    ensures i < |fragments|
            && Placements(placed, fragments) == [HitAt(fragments[i], k, placed, AnySame(placed, fragments))]
  {
    var (same, hits) := (AnySame(placed, fragments), Placements(placed, fragments));
    CandidateIsInside(placed, fragments, i, k);
    var hit := HitAt(fragments[i], k, placed, same);
    HitsAreCandidates(placed, fragments, i, hit);
    hide HitsIn, Candidate, AnySame;
    OneRegionCounts(placed, fragments, same, i);
    forall j | 0 <= j < |fragments| ensures Distinct(HitsIn(placed, fragments[j], same)) {
      HitsAreCandidates(placed, fragments, j, hit);
    }
    forall j, other | 0 <= j < |fragments| && other in HitsIn(placed, fragments[j], same) ensures j == i
       && other == hit {
      HitsAreCandidates(placed, fragments, j, other);
    }
    if |hits| > 1 {
      SecondHit(placed, fragments, same, hit);
      assert false;
    }
    HitComesFromARegion(placed, fragments, same, hits[0]);
  }

  // ---------------------------------------------------------------- nothing is lost

  lemma {:induction false} SelectedComesFromAFact(facts: seq<Fact>, ctx: Context, ref: string, span: Span)
    ensures span in Selected(facts, ctx, ref)
            <==> exists fact :: fact in facts && Landing(fact, ctx).Some? && Landing(fact, ctx).value.span == span
                                && EvidenceRef(Landing(fact, ctx).value.row) == ref
  {
    hide Landing, EvidenceRef;
    if facts != [] {
      SelectedComesFromAFact(facts[..|facts| - 1], ctx, ref, span);
      assert facts == facts[..|facts| - 1] + [facts[|facts| - 1]];
    }
  }

  /** Every span a region carries slices the region to the value of an earlier fact that lands in
      this very region. */
  lemma SelectedSpansAreLiteral(facts: seq<Fact>, ctx: Context, row: Fragment, span: Span)
    requires Grounded(ctx) && row in ctx.fragments && span in RegionOf(facts, ctx, row).alreadySelected
    ensures 0 <= span.start < span.end <= |row.text| && row.text[span.start..span.end] == span.text
    ensures exists fact :: fact in facts && fact.value == span.text && Landing(fact, ctx) == Some(Hit(row, span))
  {
    var ref := EvidenceRef(row);
    SortingSorts(Selected(facts, ctx, ref), ByStart);
    assert span in multiset(RegionOf(facts, ctx, row).alreadySelected);
    SelectedComesFromAFact(facts, ctx, ref, span);
    var fact :| fact in facts && Landing(fact, ctx).Some? && Landing(fact, ctx).value.span == span
                && EvidenceRef(Landing(fact, ctx).value.row) == ref;
    LandingIsLiteral(fact, ctx);
    var i := LandsInOneRegion(fact, ctx);
    var j :| 0 <= j < |ctx.fragments| && ctx.fragments[j] == row;
    assert UnderRef(ctx, j, ref);
  }

  lemma {:induction false} UnplacedExactly(facts: seq<Fact>, ctx: Context, value: string)
    ensures value in Unplaced(facts, ctx)
            <==> value != "" && exists fact :: fact in facts && fact.value == value && Landing(fact, ctx).None?
  {
    hide Landing;
    if facts != [] {
      UnplacedExactly(facts[..|facts| - 1], ctx, value);
      assert facts == facts[..|facts| - 1] + [facts[|facts| - 1]];
    }
  }

  /** The regions the earlier selections ended up in, all together. */
  function SelectedInAll(facts: seq<Fact>, ctx: Context, n: nat): (total: nat)
    requires n <= |ctx.fragments|
  {
    if n == 0 then 0
    else SelectedInAll(facts, ctx, n - 1) + |RegionOf(facts, ctx, ctx.fragments[n - 1]).alreadySelected|
  }

  function Landed(facts: seq<Fact>, ctx: Context): (n: nat) {
    if facts == [] then 0
    else Landed(facts[..|facts| - 1], ctx) + (if Landing(facts[|facts| - 1], ctx).Some? then 1 else 0)
  }

  /** Conservation: the regions carry as many spans as there are facts that land. */
  lemma {:induction false} SelectionsAreConserved(facts: seq<Fact>, ctx: Context)
    requires Grounded(ctx)
    ensures SelectedInAll(facts, ctx, |ctx.fragments|) == Landed(facts, ctx)
  {
    hide Landing, EvidenceRef, SortBy;
    if facts == [] {
      NothingSelected(ctx, |ctx.fragments|);
    } else {
      var (init, last) := (facts[..|facts| - 1], facts[|facts| - 1]);
      SelectionsAreConserved(init, ctx);
      if Landing(last, ctx).Some? {
        var i := LandsInOneRegion(last, ctx);
        OneMoreSelected(facts, ctx, EvidenceRef(Landing(last, ctx).value.row), i, |ctx.fragments|);
      } else {
        NoMoreSelected(facts, ctx, |ctx.fragments|);
      }
    }
  }

  lemma {:induction false} NothingSelected(ctx: Context, n: nat)
    requires n <= |ctx.fragments|
    ensures SelectedInAll([], ctx, n) == 0
  {
    if n > 0 {
      NothingSelected(ctx, n - 1);
    }
  }

  lemma {:induction false} OneMoreSelected(facts: seq<Fact>, ctx: Context, ref: string, i: nat, n: nat)
    requires n <= |ctx.fragments| && facts != [] && Landing(facts[|facts| - 1], ctx).Some?
    requires ref == EvidenceRef(Landing(facts[|facts| - 1], ctx).value.row)
    requires forall j: nat :: UnderRef(ctx, j, ref) <==> j == i
    ensures SelectedInAll(facts, ctx, n) == SelectedInAll(facts[..|facts| - 1], ctx, n) + (if i < n then 1 else 0)
  {
    hide Landing, EvidenceRef, SortBy;
    if n > 0 {
      OneMoreSelected(facts, ctx, ref, i, n - 1);
      assert UnderRef(ctx, n - 1, ref) <==> n - 1 == i;
      var other := EvidenceRef(ctx.fragments[n - 1]);
      SortingSorts(Selected(facts, ctx, other), ByStart);
      SortingSorts(Selected(facts[..|facts| - 1], ctx, other), ByStart);
    }
  }

  lemma {:induction false} NoMoreSelected(facts: seq<Fact>, ctx: Context, n: nat)
    requires n <= |ctx.fragments| && facts != [] && Landing(facts[|facts| - 1], ctx).None?
    ensures SelectedInAll(facts, ctx, n) == SelectedInAll(facts[..|facts| - 1], ctx, n)
  {
    hide Landing, EvidenceRef, SortBy;
    if n > 0 {
      NoMoreSelected(facts, ctx, n - 1);
    }
  }

  /** A fact's value is a span of the region it lands in, or is reported as unplaced. */
  ghost predicate Accounted(facts: seq<Fact>, ctx: Context, fact: Fact) {
    || (&& Landing(fact, ctx).Some? && Landing(fact, ctx).value.row in ctx.fragments
        && Landing(fact, ctx).value.span in RegionOf(facts, ctx, Landing(fact, ctx).value.row).alreadySelected)
    || fact.value in ReportedUnplaced(facts, ctx)
  }

  /** No value goes missing between the regions and the unplaced ones, except in a document without
      regions, where the values are not reported at all. */
  lemma EveryValueIsAccountedFor(facts: seq<Fact>, ctx: Context)
    requires Grounded(ctx)
    ensures (forall fact :: fact in facts && fact.value != "" ==> Accounted(facts, ctx, fact))
            <==> (ctx.fragments != [] || forall fact :: fact in facts ==> fact.value == "")
  {
    hide RegionOf, Selected;
    if ctx.fragments == [] {
      if fact :| fact in facts && fact.value != "" {
        assert !Accounted(facts, ctx, fact);
      }
    } else {
      forall fact | fact in facts && fact.value != "" ensures Accounted(facts, ctx, fact) {
        if Landing(fact, ctx).Some? {
          LandedIsSelected(facts, ctx, fact);
        } else {
          UnplacedExactly(facts, ctx, fact.value);
        }
      }
    }
  }

  lemma LandedIsSelected(facts: seq<Fact>, ctx: Context, fact: Fact)
    requires Grounded(ctx) && fact in facts && Landing(fact, ctx).Some?
    ensures Landing(fact, ctx).value.row in ctx.fragments
    ensures Landing(fact, ctx).value.span in RegionOf(facts, ctx, Landing(fact, ctx).value.row).alreadySelected
  {
    var i := LandsInOneRegion(fact, ctx);
    var (ref, span) := (EvidenceRef(ctx.fragments[i]), Landing(fact, ctx).value.span);
    SelectedComesFromAFact(facts, ctx, ref, span);
    SortingSorts(Selected(facts, ctx, ref), ByStart);
    assert span in multiset(Selected(facts, ctx, ref));
  }
}
