/** Fragments of the original document: how they are cut out, how a nested table's copies of the
    same passage are folded, and what their references identify (backend/worker/cpl_coverage.py). */
module OccurrenceFolding {
  import opened Wrappers
  import opened Sorting
  import Numerals
  import PyText

  /** One occurrence of a Common IR block with its text. */
  datatype Occurrence = Occurrence(block: string, id: string, text: string)

  datatype Label = Label(block: string, occurrence: string)

  datatype Fragment = Fragment(document: string, block: string, occurrence: string, start: nat, end: nat,
                               text: string, heading: Option<Label>)

  // ---------------------------------------------------------------- references

  /** evidence_ref; "unknown" stands for a missing document id. */
  function EvidenceRef(f: Fragment): (ref: string) {
    (if f.document == "" then "unknown" else f.document) + "#" + f.occurrence + "@" + Numerals.Digits(f.start) + "-"
      + Numerals.Digits(f.end)
  }

  lemma LastMark(a: string, x: string, b: string, y: string, mark: char)
    requires a + [mark] + x == b + [mark] + y && mark !in x && mark !in y
    ensures a == b && x == y
  {
    var s := a + [mark] + x;
    assert s[|a|] == mark && s[|b|] == mark;
    assert forall k :: |a| < k < |s| ==> s[k] == x[k - |a| - 1] && s[k] in x;
    assert forall k :: |b| < k < |s| ==> s[k] == y[k - |b| - 1] && s[k] in y;
    assert s[..|a|] == a && s[..|b|] == b && s[|a| + 1..] == x && s[|b| + 1..] == y;
  }

  /** Within one document a reference identifies the occurrence and both coordinates, whatever
      characters the occurrence id is made of. */
  lemma RefIdentifies(f: Fragment, g: Fragment)
    requires f.document == g.document && EvidenceRef(f) == EvidenceRef(g)
    ensures f.occurrence == g.occurrence && f.start == g.start && f.end == g.end
  {
    var document := if f.document == "" then "unknown" else f.document;
    var (fs, fe, gs, ge) := (Numerals.Digits(f.start), Numerals.Digits(f.end), Numerals.Digits(g.start),
         Numerals.Digits(g.end));
    Numerals.ValueOfDigits(f.start);
    Numerals.ValueOfDigits(f.end);
    Numerals.ValueOfDigits(g.start);
    Numerals.ValueOfDigits(g.end);
    hide Numerals.Digits, Numerals.Value;
    assert forall c :: c == '-' || c == '@' ==> !Numerals.IsDigit(c);
    var (before, after) := (document + "#" + f.occurrence + "@" + fs, document + "#" + g.occurrence + "@" + gs);
    assert EvidenceRef(f) == before + ['-'] + fe && EvidenceRef(g) == after + ['-'] + ge;
    LastMark(before, fe, after, ge, '-');
    LastMark(document + "#" + f.occurrence, fs, document + "#" + g.occurrence, gs, '@');
    assert (document + "#" + f.occurrence)[|document + "#"|..] == f.occurrence;
    assert (document + "#" + g.occurrence)[|document + "#"|..] == g.occurrence;
  }

  // ---------------------------------------------------------------- nesting

  /** is_nested_occurrence */
  predicate Nested(outer: string, inner: string) {
    outer != inner && outer + ":" <= inner
  }

  lemma NestingIsAStrictOrder(a: string, b: string, c: string)
    ensures !Nested(a, a)
    ensures Nested(a, b) ==> !Nested(b, a) && |a| < |b|
    ensures Nested(a, b) && Nested(b, c) ==> Nested(a, c)
  {
    if Nested(a, b) && Nested(b, c) {
      assert c[..|a| + 1] == b[..|a| + 1];
    }
  }

  /** Siblings whose names only share letters are not nested: the separator must follow. */
  lemma PrefixWithoutSeparatorIsNoParent(outer: string, suffix: string)
    requires suffix != "" && suffix[0] != ':'
    ensures !Nested(outer, outer + suffix)
  {
    assert (outer + ":")[|outer|] == ':' && (outer + suffix)[|outer|] == suffix[0];
  }

  /** g repeats f deeper in the table: same block, same text, an occurrence inside f's. */
  predicate Repeats(g: Fragment, f: Fragment) {
    g.block == f.block && g.text == f.text && Nested(f.occurrence, g.occurrence)
  }

  // ---------------------------------------------------------------- folding

  /** The sort order: deeper occurrences have longer ids and come first. */
  predicate DeeperFirst(f: Fragment, g: Fragment) {
    |f.occurrence| >= |g.occurrence|
  }

  /** The loop of _drop_nested_duplicates over the sorted fragments. */
  function Kept(ordered: seq<Fragment>): (kept: seq<Fragment>)
    ensures forall f :: f in kept ==> f in ordered
  {
    if ordered == [] then []
    else
      var (kept, last) := (Kept(ordered[..|ordered| - 1]), ordered[|ordered| - 1]);
      if exists other :: other in kept && Repeats(other, last) then kept else kept + [last]
  }

  function DropNestedDuplicates(fragments: seq<Fragment>): (kept: seq<Fragment>) {
    Kept(SortBy(fragments, DeeperFirst))
  }

  method FoldNestedDuplicates(fragments: seq<Fragment>) returns (kept: seq<Fragment>)
    ensures kept == DropNestedDuplicates(fragments)
  {
    var ordered := SortBy(fragments, DeeperFirst);
    kept := [];
    for i := 0 to |ordered|
      invariant kept == Kept(ordered[..i])
    {
      assert ordered[..i + 1][..i] == ordered[..i];
      if !(exists other :: other in kept && Repeats(other, ordered[i])) {
        kept := kept + [ordered[i]];
      }
    }
    assert ordered[..|ordered|] == ordered;
  }

  ghost predicate Deepest(f: Fragment, fragments: seq<Fragment>) {
    forall g :: g in fragments ==> !Repeats(g, f)
  }

  lemma RepeatsIsAStrictOrder(a: Fragment, b: Fragment, c: Fragment)
    ensures !Repeats(a, a)
    ensures Repeats(b, a) ==> |a.occurrence| < |b.occurrence|
    ensures Repeats(b, a) && Repeats(c, b) ==> Repeats(c, a)
  {
    NestingIsAStrictOrder(a.occurrence, b.occurrence, c.occurrence);
  }

  /** In depth order one pass is enough: a fragment is kept exactly when nothing repeats it deeper,
      as often as it was there, and what is not kept has a kept fragment deeper down. */
  lemma {:induction false} OnePassIsEnough(ordered: seq<Fragment>, f: Fragment)
    requires Ascending(ordered, DeeperFirst)
    ensures multiset(Kept(ordered))[f] == if Deepest(f, ordered) then multiset(ordered)[f] else 0
    ensures f in ordered && !Deepest(f, ordered) ==> exists g :: g in Kept(ordered) && Repeats(g, f)
    decreases |ordered|, 1
  {
    hide Repeats;
    if ordered != [] {
      var (init, last) := (ordered[..|ordered| - 1], ordered[|ordered| - 1]);
      var kept := Kept(init);
      var grown := Kept(ordered);
      assert grown == if exists other :: other in kept && Repeats(other, last) then kept else kept + [last];
      assert ordered == init + [last];
      OnePassIsEnough(init, f);
      assert forall g :: g in ordered ==> !Repeats(last, g) by {
        forall g | g in ordered ensures !Repeats(last, g) {
          RepeatsIsAStrictOrder(g, last, last);
        }
      }
      hide Kept, Ascending;
      if f in ordered {
        assert Deepest(f, ordered) <==> Deepest(f, init);
        if f == last && !Deepest(last, init) {
          RepeatedByAKeptOne(init, last);
        }
      }
    }
  }

  lemma RepeatedByAKeptOne(ordered: seq<Fragment>, f: Fragment)
    requires Ascending(ordered, DeeperFirst) && !Deepest(f, ordered)
    ensures exists g :: g in Kept(ordered) && Repeats(g, f)
    decreases |ordered|, 2
  {
    hide Repeats, Kept;
    var g :| g in ordered && Repeats(g, f);
    OnePassIsEnough(ordered, g);
    if Deepest(g, ordered) {
      assert g in multiset(Kept(ordered));
    } else {
      var h :| h in Kept(ordered) && Repeats(h, g);
      RepeatsIsAStrictOrder(f, g, h);
    }
  }

  /** Folding, for any input order: exactly the fragments that nothing repeats deeper stay, each as
      often as it was there; every other one has a kept repeat of itself deeper in the table. */
  lemma FoldingKeepsTheDeepest(fragments: seq<Fragment>, f: Fragment)
    ensures multiset(DropNestedDuplicates(fragments))[f] == if Deepest(f, fragments) then multiset(fragments)[f] else 0
    ensures f in fragments && !Deepest(f, fragments) ==> exists g ::
              g in DropNestedDuplicates(fragments) && Repeats(g, f)
  {
    hide Repeats, Kept, SortBy;
    SortingSorts(fragments, DeeperFirst);
    var ordered := SortBy(fragments, DeeperFirst);
    SameMembers(fragments, ordered);
    OnePassIsEnough(ordered, f);
    assert Deepest(f, fragments) <==> Deepest(f, ordered);
  }

  // ---------------------------------------------------------------- build_fragments

  /** A labelled region of a text: where the label starts, where its content ends, and whether an
      empty region hands over to the occurrences that follow. */
  datatype Region = Region(labelStart: nat, contentEnd: nat, continues: bool)

  /** What the region grammar says about a text: its regions with content, all its regions, whether
      it starts with a label, whether it is a table caption to skip, whether it is blank. */
  datatype Grammar = Grammar(filled: string -> seq<Region>, all: string -> seq<Region>,
                             startsWithLabel: string -> bool, caption: string -> bool, blank: string -> bool)

  /** _sibling_content: the occurrences a label without content of its own governs. */
  function SiblingContent(rows: seq<Occurrence>, from: nat, grammar: Grammar): (collected: seq<Occurrence>)
    ensures forall row :: row in collected ==> row in rows
    decreases |rows| - from
  {
    if from >= |rows| then []
    else if grammar.blank(rows[from].text) then SiblingContent(rows, from + 1, grammar)
    else if grammar.startsWithLabel(rows[from].text) then []
    else if grammar.caption(rows[from].text) then SiblingContent(rows, from + 1, grammar)
    else [rows[from]] + SiblingContent(rows, from + 1, grammar)
  }

  function CutOut(document: string, row: Occurrence, start: nat, end: nat, heading: Option<Label>): (f: Fragment) {
    Fragment(document, row.block, row.id, start, end, PyText.Slice(row.text, start, end), heading)
  }

  function FilledFragments(document: string, row: Occurrence, regions: seq<Region>): (fragments: seq<Fragment>) {
    if regions == [] then []
    else
      var last := regions[|regions| - 1];
      FilledFragments(document, row, regions[..|regions| - 1])
        + [CutOut(document, row, last.labelStart, last.contentEnd, None)]
  }

  function SiblingFragments(document: string, headingRow: Occurrence, siblings: seq<Occurrence>)
      : (fragments: seq<Fragment>) {
    if siblings == [] then []
    else
      var last := siblings[|siblings| - 1];
      SiblingFragments(document, headingRow, siblings[..|siblings| - 1])
      + [CutOut(document, last, 0, |last.text|, Some(Label(headingRow.block, headingRow.id)))]
  }

  function FragmentsAt(document: string, rows: seq<Occurrence>, i: nat, grammar: Grammar): (fragments: seq<Fragment>)
    requires i < |rows|
  {
    var filled := grammar.filled(rows[i].text);
    if filled != [] then FilledFragments(document, rows[i], filled)
    else if exists r :: r in grammar.all(rows[i].text) && r.continues then
      SiblingFragments(document, rows[i], SiblingContent(rows, i + 1, grammar))
    else []
  }

  function FragmentsUpTo(document: string, rows: seq<Occurrence>, n: nat, grammar: Grammar): (fragments: seq<Fragment>)
    requires n <= |rows|
  {
    if n == 0 then [] else FragmentsUpTo(document, rows, n - 1, grammar) + FragmentsAt(document, rows, n - 1, grammar)
  }

  function Fragments(document: string, rows: seq<Occurrence>, grammar: Grammar): (fragments: seq<Fragment>) {
    DropNestedDuplicates(FragmentsUpTo(document, rows, |rows|, grammar))
  }

  method CutFilled(document: string, row: Occurrence, regions: seq<Region>) returns (fragments: seq<Fragment>)
    ensures fragments == FilledFragments(document, row, regions)
  {
    fragments := [];
    for k := 0 to |regions|
      invariant fragments == FilledFragments(document, row, regions[..k])
    {
      assert regions[..k + 1][..k] == regions[..k];
      fragments := fragments + [CutOut(document, row, regions[k].labelStart, regions[k].contentEnd, None)];
    }
    assert regions[..|regions|] == regions;
  }

  method CutSiblings(document: string, headingRow: Occurrence, siblings: seq<Occurrence>)
    returns (fragments: seq<Fragment>)
    ensures fragments == SiblingFragments(document, headingRow, siblings)
  {
    fragments := [];
    for k := 0 to |siblings|
      invariant fragments == SiblingFragments(document, headingRow, siblings[..k])
    {
      assert siblings[..k + 1][..k] == siblings[..k];
      var text := siblings[k].text;
      fragments := fragments + [CutOut(document, siblings[k], 0, |text|, Some(Label(headingRow.block, headingRow.id)))];
    }
    assert siblings[..|siblings|] == siblings;
  }

  method BuildFragments(document: string, rows: seq<Occurrence>, grammar: Grammar) returns (fragments: seq<Fragment>)
    ensures fragments == Fragments(document, rows, grammar)
  {
    hide FilledFragments, SiblingFragments, SiblingContent, DropNestedDuplicates;
    var found: seq<Fragment> := [];
    for i := 0 to |rows|
      invariant found == FragmentsUpTo(document, rows, i, grammar)
    {
      var filled := grammar.filled(rows[i].text);
      var more: seq<Fragment> := [];
      if filled != [] {
        more := CutFilled(document, rows[i], filled);
      } else if exists r :: r in grammar.all(rows[i].text) && r.continues {
        more := CutSiblings(document, rows[i], SiblingContent(rows, i + 1, grammar));
      }
      found := found + more;
    }
    fragments := FoldNestedDuplicates(found);
  }

  /** A fragment that is the stretch of its occurrence that its coordinates name. */
  ghost predicate CutFrom(f: Fragment, texts: map<string, string>) {
    f.occurrence in texts && f.start <= f.end <= |texts[f.occurrence]| && f.text == texts[f.occurrence][f.start..f.end]
  }

  /** The regions the grammar reports lie inside the text. */
  ghost predicate InsideTexts(rows: seq<Occurrence>, grammar: Grammar) {
    forall row, r :: row in rows && r in grammar.filled(row.text) ==> r.labelStart <= r.contentEnd <= |row.text|
  }

  /** The texts by occurrence id, when ids are unique. */
  ghost predicate TextsOf(rows: seq<Occurrence>, texts: map<string, string>) {
    forall row :: row in rows ==> row.id in texts && texts[row.id] == row.text
  }

  /** Every fragment, cut from the label's own occurrence or from a following one, is exactly the
      stretch of the original that its reference names. */
  lemma {:induction false} FragmentsAreCutFromTheDocument(document: string, rows: seq<Occurrence>, grammar: Grammar,
                                                          texts: map<string, string>)
    requires TextsOf(rows, texts) && InsideTexts(rows, grammar)
    ensures forall f :: f in Fragments(document, rows, grammar) ==> CutFrom(f, texts) && f.document == document
  {
    CutFromUpTo(document, rows, |rows|, grammar, texts);
    var found := FragmentsUpTo(document, rows, |rows|, grammar);
    SortingSorts(found, DeeperFirst);
    hide SortBy, FragmentsUpTo, CutFrom;
    SameMembers(found, SortBy(found, DeeperFirst));
  }

  lemma {:induction false} CutFromUpTo(document: string, rows: seq<Occurrence>, n: nat, grammar: Grammar,
                                       texts: map<string, string>)
    requires n <= |rows| && TextsOf(rows, texts) && InsideTexts(rows, grammar)
    ensures forall f :: f in FragmentsUpTo(document, rows, n, grammar) ==> CutFrom(f, texts) && f.document == document
  {
    if n > 0 {
      CutFromUpTo(document, rows, n - 1, grammar, texts);
      var row := rows[n - 1];
      FilledAreCut(document, row, grammar.filled(row.text), texts);
      SiblingsAreCut(document, row, SiblingContent(rows, n, grammar), texts);
      hide CutFrom, FilledFragments, SiblingFragments, SiblingContent;
    }
  }

  lemma {:induction false} FilledAreCut(document: string, row: Occurrence, regions: seq<Region>,
                                        texts: map<string, string>)
    requires row.id in texts && texts[row.id] == row.text
    requires forall r :: r in regions ==> r.labelStart <= r.contentEnd <= |row.text|
    ensures forall f :: f in FilledFragments(document, row, regions) ==> CutFrom(f, texts) && f.document == document
  {
    if regions != [] {
      FilledAreCut(document, row, regions[..|regions| - 1], texts);
      assert regions[|regions| - 1] in regions;
    }
  }

  lemma {:induction false} SiblingsAreCut(document: string, row: Occurrence, siblings: seq<Occurrence>,
                                          texts: map<string, string>)
    requires TextsOf(siblings, texts)
    ensures forall f :: f in SiblingFragments(document, row, siblings) ==> CutFrom(f, texts) && f.document == document
  {
    if siblings != [] {
      SiblingsAreCut(document, row, siblings[..|siblings| - 1], texts);
      assert siblings[|siblings| - 1] in siblings;
    }
  }
}
