/** FIT-7: the rule-based comparison of quantities in context
    (backend/worker/fit.py, backend/worker/quantities.py). */
module FitQuantities {
  import opened Wrappers

  datatype Dimension = Period | Scope | Nature
  datatype Axis = AmountKrw | Count(unit: string) | Times(period: string) | TimesUnqualified | OtherAxis(name: string)
  datatype Modifier = Modifier(dimension: Dimension, tag: string)
  datatype Span = Span(axis: Axis, value: int, start: int, end: int, modifiers: seq<Modifier>)

  /** One piece of evidence: its first evidence block, its component, its readable quantities. */
  datatype Ref = Ref(factId: string, block: Option<string>, component: Option<string>, quantities: seq<Span>)

  type Key = seq<Option<string>>
  type Place = (Option<string>, int, int)

  /** A comparison slot and a value found in it. */
  datatype Slot = Slot(component: Option<string>, axis: Axis, context: Key)
  datatype Entry = Entry(slot: Slot, value: int)

  datatype Status = Fit | NeedsReview | Insufficient | NotApplicable

  const COMPARISON_EVIDENCE_MISSING := "COMPARISON_EVIDENCE_MISSING"
  const COMPARISON_VALUE_INVALID := "COMPARISON_VALUE_INVALID"
  const NUMERIC_MISMATCH := "NUMERIC_MISMATCH"
  const SINGLE_SIDED_NO_CONFLICT := "SINGLE_SIDED_NO_CONFLICT"

  // ---------------------------------------------------------------- comparison keys

  function Labels(modifiers: seq<Modifier>, d: Dimension): (labels: set<string>) {
    set m | m in modifiers && m.dimension == d :: m.tag
  }

  lemma SingletonIsUnique(labels: set<string>, a: string, b: string)
    requires |labels| == 1 && a in labels && b in labels
    ensures a == b
  {
    assert |labels - {a}| == 0;
    assert labels == {a};
  }

  /** The confirmed label of a dimension; None when it is missing or contradictory. */
  function LabelOf(modifiers: seq<Modifier>, d: Dimension): (tag: Option<string>)
    ensures tag.Some? <==> exists l :: Labels(modifiers, d) == {l}
    ensures tag.Some? ==> Labels(modifiers, d) == {tag.value}
  {
    var labels := Labels(modifiers, d);
    if |labels| == 1 then
      assert forall a, b :: a in labels && b in labels ==> a == b by {
        forall a, b | a in labels && b in labels ensures a == b { SingletonIsUnique(labels, a, b); }
      }
      var tag :| tag in labels;
      assert labels == {tag};
      Some(tag)
    else None
  }

  /** The dimensions an axis needs confirmed, and those that enter its key as they are. */
  function ComparisonDimensions(axis: Axis): (dims: (seq<Dimension>, seq<Dimension>)) {
    match axis
    case Count(_) => ([Period, Scope], [])
    case TimesUnqualified => ([Period], [])
    case Times(_) => ([], [])
    case AmountKrw => ([Scope, Nature], [Period])
    case OtherAxis(_) => ([Period, Scope, Nature], [])
  }

  function LabelsInOrder(modifiers: seq<Modifier>, dims: seq<Dimension>): (key: Key)
    ensures |key| == |dims|
    ensures forall i :: 0 <= i < |dims| ==> key[i] == LabelOf(modifiers, dims[i])
  {
    seq(|dims|, i requires 0 <= i < |dims| => LabelOf(modifiers, dims[i]))
  }

  function ComparisonKey(span: Span): (key: Option<Key>) {
    var (required, keyed) := ComparisonDimensions(span.axis);
    var confirmed := LabelsInOrder(span.modifiers, required);
    if None in confirmed then None else Some(confirmed + LabelsInOrder(span.modifiers, keyed))
  }

  /** What puts two amounts in the same slot: target and nature are confirmed on both and
      agree, and their periods agree too, including when neither states one. */
  lemma AmountsShareASlot(a: Span, b: Span)
    requires a.axis == b.axis == AmountKrw
    ensures (ComparisonKey(a).Some? && ComparisonKey(a) == ComparisonKey(b)) <==>
              && LabelOf(a.modifiers, Scope).Some? && LabelOf(a.modifiers, Nature).Some?
              && forall d :: LabelOf(a.modifiers, d) == LabelOf(b.modifiers, d)
  {
    KeyParts(a);
    KeyParts(b);
    hide LabelOf, ComparisonKey;
    assert forall d: Dimension :: d.Period? || d.Scope? || d.Nature?;
  }

  lemma KeyParts(span: Span)
    ensures var (p, s, n) := (LabelOf(span.modifiers, Period), LabelOf(span.modifiers, Scope),
              LabelOf(span.modifiers, Nature));
            match span.axis
            case AmountKrw => ComparisonKey(span) == if s.Some? && n.Some? then Some([s, n, p]) else None
            case Count(_) => ComparisonKey(span) == if p.Some? && s.Some? then Some([p, s]) else None
            case TimesUnqualified => ComparisonKey(span) == if p.Some? then Some([p]) else None
            case Times(_) => ComparisonKey(span) == Some([])
            case OtherAxis(_) => ComparisonKey(span) == if p.Some? && s.Some? && n.Some? then Some([p, s, n]) else None
  {
    hide LabelOf;
    var (required, keyed) := ComparisonDimensions(span.axis);
    var (confirmed, more) := (LabelsInOrder(span.modifiers, required), LabelsInOrder(span.modifiers, keyed));
    var (p, s, n) := (LabelOf(span.modifiers, Period), LabelOf(span.modifiers, Scope), LabelOf(span.modifiers, Nature));
    match span.axis {
      case AmountKrw =>
        assert confirmed == [s, n] && confirmed + more == [s, n, p];
        assert None in confirmed <==> s == None || n == None;
      case Count(_) =>
        assert confirmed == [p, s] && confirmed + more == [p, s];
        assert None in confirmed <==> p == None || s == None;
      case TimesUnqualified =>
        assert confirmed == [p] && confirmed + more == [p];
        assert None in confirmed <==> p == None;
      case Times(_) =>
        assert confirmed == [] && confirmed + more == [];
      case OtherAxis(_) =>
        assert confirmed == [p, s, n] && confirmed + more == [p, s, n];
        assert None in confirmed <==> p == None || s == None || n == None;
    }
  }

  /** Two counts share a slot exactly when period and scope are confirmed on both and agree. */
  lemma CountsShareASlot(a: Span, b: Span, unit: string)
    requires a.axis == b.axis == Count(unit)
    ensures (ComparisonKey(a).Some? && ComparisonKey(a) == ComparisonKey(b)) <==>
              && LabelOf(a.modifiers, Period).Some? && LabelOf(a.modifiers, Scope).Some?
              && LabelOf(a.modifiers, Period) == LabelOf(b.modifiers, Period)
              && LabelOf(a.modifiers, Scope) == LabelOf(b.modifiers, Scope)
  {
    KeyParts(a);
    KeyParts(b);
    hide LabelOf, ComparisonKey;
  }

  /** Times of one period always share a slot; times without one need a confirmed period. */
  lemma TimesShareASlot(a: Span, b: Span)
    requires a.axis == b.axis && (a.axis.Times? || a.axis.TimesUnqualified?)
    ensures (ComparisonKey(a).Some? && ComparisonKey(a) == ComparisonKey(b)) <==>
              || a.axis.Times?
              || (LabelOf(a.modifiers, Period).Some? && LabelOf(a.modifiers, Period) == LabelOf(b.modifiers, Period))
  {
    KeyParts(a);
    KeyParts(b);
    hide LabelOf, ComparisonKey;
  }

  /** On any other axis all three dimensions must be confirmed and agree. */
  lemma OthersShareASlot(a: Span, b: Span)
    requires a.axis == b.axis && a.axis.OtherAxis?
    ensures (ComparisonKey(a).Some? && ComparisonKey(a) == ComparisonKey(b)) <==>
              forall d :: LabelOf(a.modifiers, d).Some? && LabelOf(a.modifiers, d) == LabelOf(b.modifiers, d)
  {
    KeyParts(a);
    KeyParts(b);
    hide LabelOf, ComparisonKey;
    assert forall d: Dimension :: d.Period? || d.Scope? || d.Nature?;
  }

  // ---------------------------------------------------------------- what each side says

  function PlaceOf(ref: Ref, span: Span): (place: Place) { (ref.block, span.start, span.end) }

  function Places(refs: seq<Ref>): (places: set<Place>) {
    set ref, span | ref in refs && span in ref.quantities && ref.block.Some? && ref.block.value != "" ::
      PlaceOf(ref, span)
  }

  function SharedSpans(left: seq<Ref>, right: seq<Ref>): (shared: set<Place>) { Places(left) * Places(right) }

  predicate Used(ref: Ref, span: Span, shared: set<Place>) {
    PlaceOf(ref, span) !in shared && ComparisonKey(span).Some?
  }

  function EntryOf(ref: Ref, span: Span): (entry: Entry)
    requires ComparisonKey(span).Some?
  {
    Entry(Slot(ref.component, span.axis, ComparisonKey(span).value), span.value)
  }

  ghost function Entries(refs: seq<Ref>, shared: set<Place>): (entries: set<Entry>) {
    set ref, span | ref in refs && span in ref.quantities && Used(ref, span, shared) :: EntryOf(ref, span)
  }

  predicate Contributes(ref: Ref, shared: set<Place>) {
    exists span :: span in ref.quantities && Used(ref, span, shared)
  }

  /** No quantity could be read. */
  predicate Invalid(ref: Ref) { ref.quantities == [] }

  /** Quantities were read, but none of them may be compared. */
  predicate Withheld(ref: Ref, shared: set<Place>) { ref.quantities != [] && !Contributes(ref, shared) }

  ghost predicate AnyInvalid(refs: seq<Ref>) { exists ref :: ref in refs && Invalid(ref) }
  ghost predicate AnyWithheld(refs: seq<Ref>, shared: set<Place>) { exists ref :: ref in refs && Withheld(ref, shared) }

  ghost function ValuesAt(entries: set<Entry>, slot: Slot): (values: set<int>) {
    set e | e in entries && e.slot == slot :: e.value
  }

  /** Some slot is filled on both sides, with different value sets. */
  ghost predicate Mismatch(left: set<Entry>, right: set<Entry>) {
    exists l, r :: l in left && r in right && l.slot == r.slot && ValuesAt(left, l.slot) != ValuesAt(right, r.slot)
  }

  /** The verdict as a function of the two sides. */
  ghost function Verdict(left: seq<Ref>, right: seq<Ref>): (v: (Status, Option<string>)) {
    var shared := SharedSpans(left, right);
    var (l, r) := (Entries(left, shared), Entries(right, shared));
    if left == [] || right == [] then (Insufficient, Some(COMPARISON_EVIDENCE_MISSING))
    else if l == {} && r == {} then
      var invalid := AnyInvalid(left) || AnyInvalid(right);
      (Insufficient, Some(if invalid then COMPARISON_VALUE_INVALID else COMPARISON_EVIDENCE_MISSING))
    else if Mismatch(l, r) then (NeedsReview, Some(NUMERIC_MISMATCH))
    else if AnyWithheld(left, shared) || AnyWithheld(right, shared) then
      (Insufficient, Some(COMPARISON_EVIDENCE_MISSING))
    else if AnyInvalid(left) || AnyInvalid(right) then (Insufficient, Some(COMPARISON_VALUE_INVALID))
    else if l != r then (Insufficient, Some(SINGLE_SIDED_NO_CONFLICT))
    else (Fit, None)
  }

  // ---------------------------------------------------------------- the loops

  type Axes = map<(Axis, Key), set<int>>
  type Groups = map<Option<string>, Axes>

  function AxesOf(groups: Groups, component: Option<string>): (axes: Axes) {
    if component in groups then groups[component] else map[]
  }

  function At(groups: Groups, component: Option<string>, k: (Axis, Key)): (values: set<int>) {
    if k in AxesOf(groups, component) then AxesOf(groups, component)[k] else {}
  }

  ghost predicate NoEmptyLevel(groups: Groups) {
    && (forall c :: c in groups ==> groups[c] != map[])
    && (forall c, k :: c in groups && k in groups[c] ==> exists v: int :: v in groups[c][k])
  }

  /** The nested dictionaries hold exactly these entries and no empty level. */
  ghost predicate Holds(groups: Groups, entries: set<Entry>) {
    && NoEmptyLevel(groups)
    && (forall c, k, v :: v in At(groups, c, k) <==> Entry(Slot(c, k.0, k.1), v) in entries)
  }

  /** grouped.setdefault(component, {}).setdefault((axis, context), set()).add(value) */
  function Added(groups: Groups, e: Entry): (after: Groups) {
    var axes := AxesOf(groups, e.slot.component);
    var k := (e.slot.axis, e.slot.context);
    groups[e.slot.component := axes[k := At(groups, e.slot.component, k) + {e.value}]]
  }

  lemma AddedNoEmptyLevel(groups: Groups, e: Entry)
    requires NoEmptyLevel(groups)
    ensures NoEmptyLevel(Added(groups, e))
  {
    var after, slot := Added(groups, e), (e.slot.axis, e.slot.context);
    forall c, k | c in after && k in after[c] ensures exists v: int :: v in after[c][k] {
      if c == e.slot.component && k == slot {
        assert e.value in after[c][k];
      } else {
        assert c in groups && k in groups[c] && after[c][k] == groups[c][k];
      }
    }
  }

  lemma AddedHolds(groups: Groups, entries: set<Entry>, e: Entry)
    requires Holds(groups, entries)
    ensures Holds(Added(groups, e), entries + {e})
  {
    hide NoEmptyLevel;
    AddedNoEmptyLevel(groups, e);
  }

  lemma OneMoreRef(refs: seq<Ref>, i: nat, shared: set<Place>)
    requires i < |refs|
    ensures Entries(refs[..i + 1], shared) == Entries(refs[..i], shared) + Entries([refs[i]], shared)
    ensures AnyInvalid(refs[..i + 1]) <==> AnyInvalid(refs[..i]) || Invalid(refs[i])
    ensures AnyWithheld(refs[..i + 1], shared) <==> AnyWithheld(refs[..i], shared) || Withheld(refs[i], shared)
  {
    assert refs[..i + 1] == refs[..i] + [refs[i]];
  }

  ghost function EntriesUpTo(ref: Ref, j: nat, shared: set<Place>): (entries: set<Entry>)
    requires j <= |ref.quantities|
  {
    set span | span in ref.quantities[..j] && Used(ref, span, shared) :: EntryOf(ref, span)
  }

  lemma OneMoreSpan(ref: Ref, j: nat, shared: set<Place>)
    requires j < |ref.quantities|
    ensures EntriesUpTo(ref, j + 1, shared) ==
              EntriesUpTo(ref, j, shared)
              + (if Used(ref, ref.quantities[j], shared) then {EntryOf(ref, ref.quantities[j])} else {})
  {
    assert ref.quantities[..j + 1] == ref.quantities[..j] + [ref.quantities[j]];
  }

  lemma WholeRef(ref: Ref, shared: set<Place>)
    ensures EntriesUpTo(ref, |ref.quantities|, shared) == Entries([ref], shared)
  {
    assert ref.quantities[..|ref.quantities|] == ref.quantities;
  }

  /** The inner loop: one reference's comparable quantities go into the groups. */
  method AddQuantities(ref: Ref, shared: set<Place>, groups: Groups, ghost entries: set<Entry>)
    returns (after: Groups, used: bool)
    requires Holds(groups, entries)
    ensures Holds(after, entries + Entries([ref], shared))
    ensures used <==> Contributes(ref, shared)
  {
    hide ComparisonKey, PlaceOf, Holds, Added;
    after, used := groups, false;
    assert entries + EntriesUpTo(ref, 0, shared) == entries;
    for j := 0 to |ref.quantities|
      invariant Holds(after, entries + EntriesUpTo(ref, j, shared))
      invariant used <==> exists span :: span in ref.quantities[..j] && Used(ref, span, shared)
    {
      var span := ref.quantities[j];
      assert ref.quantities[..j + 1] == ref.quantities[..j] + [span];
      OneMoreSpan(ref, j, shared);
      ghost var before := entries + EntriesUpTo(ref, j, shared);
      if PlaceOf(ref, span) !in shared && ComparisonKey(span).Some? {
        AddedHolds(after, before, EntryOf(ref, span));
        used := true;
        after := Added(after, EntryOf(ref, span));
        assert entries + EntriesUpTo(ref, j + 1, shared) == before + {EntryOf(ref, span)};
      } else {
        assert entries + EntriesUpTo(ref, j + 1, shared) == before;
      }
    }
    WholeRef(ref, shared);
    assert ref.quantities[..|ref.quantities|] == ref.quantities;
  }

  method AxisValues(refs: seq<Ref>, shared: set<Place>)
    returns (groups: Groups, invalid: seq<string>, withheld: seq<string>)
    ensures Holds(groups, Entries(refs, shared))
    ensures invalid != [] <==> AnyInvalid(refs)
    ensures withheld != [] <==> AnyWithheld(refs, shared)
  {
    hide ComparisonKey, PlaceOf, Entries, Used, Holds;
    groups, invalid, withheld := map[], [], [];
    NothingHeld(shared);
    for i := 0 to |refs|
      invariant Holds(groups, Entries(refs[..i], shared))
      invariant invalid != [] <==> AnyInvalid(refs[..i])
      invariant withheld != [] <==> AnyWithheld(refs[..i], shared)
    {
      OneMoreRef(refs, i, shared);
      if refs[i].quantities == [] {
        invalid := invalid + [refs[i].factId];
        UnreadableAddsNothing(refs[i], shared);
        assert Entries(refs[..i], shared) + {} == Entries(refs[..i], shared);
      } else {
        var used;
        groups, used := AddQuantities(refs[i], shared, groups, Entries(refs[..i], shared));
        if !used {
          withheld := withheld + [refs[i].factId];
        }
      }
    }
    assert refs[..|refs|] == refs;
  }

  lemma NothingHeld(shared: set<Place>)
    ensures Holds(map[], Entries([], shared))
  {
  }

  lemma UnreadableAddsNothing(ref: Ref, shared: set<Place>)
    requires ref.quantities == []
    ensures Entries([ref], shared) == {}
  {
  }

  predicate Differs(left: Axes, right: Axes, k: (Axis, Key)) { k in left && k in right && left[k] != right[k] }
  predicate Agrees(left: Axes, right: Axes, k: (Axis, Key)) { k in left && k in right && left[k] == right[k] }
  predicate Lonely(left: Axes, right: Axes, k: (Axis, Key)) { (k in left) != (k in right) }

  /** The axes of one component: groups.get(component, {}) on both sides. */
  method CompareAxes(left: Axes, right: Axes) returns (mismatch: bool, singleSided: bool, agreed: bool)
    ensures mismatch <==> exists k :: Differs(left, right, k)
    ensures singleSided <==> exists k :: Lonely(left, right, k)
    ensures agreed <==> exists k :: Agrees(left, right, k)
  {
    mismatch, singleSided, agreed := false, false, false;
    var axes := left.Keys + right.Keys;
    while axes != {}
      invariant axes <= left.Keys + right.Keys
      invariant mismatch <==> exists k :: k !in axes && Differs(left, right, k)
      invariant singleSided <==> exists k :: k !in axes && Lonely(left, right, k)
      invariant agreed <==> exists k :: k !in axes && Agrees(left, right, k)
    {
      var axis :| axis in axes;
      ghost var rest := axes - {axis};
      assert forall k :: k !in rest <==> k !in axes || k == axis;
      if axis !in left || axis !in right {
        assert Lonely(left, right, axis);
        singleSided := true;
      } else if left[axis] == right[axis] {
        assert Agrees(left, right, axis);
        agreed := true;
      } else {
        assert Differs(left, right, axis);
        mismatch := true;
      }
      axes := axes - {axis};
    }
  }

  ghost predicate AnyDiffers(left: Groups, right: Groups, c: Option<string>) {
    exists k :: Differs(AxesOf(left, c), AxesOf(right, c), k)
  }

  ghost predicate AnyLonely(left: Groups, right: Groups, c: Option<string>) {
    exists k :: Lonely(AxesOf(left, c), AxesOf(right, c), k)
  }

  ghost predicate AnyAgrees(left: Groups, right: Groups, c: Option<string>) {
    exists k :: Agrees(AxesOf(left, c), AxesOf(right, c), k)
  }

  /** The three flags of _fit7 over every component of either side. */
  method CompareGroups(left: Groups, right: Groups) returns (mismatch: bool, singleSided: bool, agreed: bool)
    ensures mismatch <==> exists c :: AnyDiffers(left, right, c)
    ensures singleSided <==> exists c :: AnyLonely(left, right, c)
    ensures agreed <==> exists c :: AnyAgrees(left, right, c)
  {
    hide Differs, Lonely, Agrees;
    mismatch, singleSided, agreed := false, false, false;
    var components := left.Keys + right.Keys;
    forall c | c !in components
      ensures !AnyDiffers(left, right, c) && !AnyLonely(left, right, c) && !AnyAgrees(left, right, c)
    {
      NothingToCompare(left, right, c);
    }
    while components != {}
      invariant components <= left.Keys + right.Keys
      invariant mismatch <==> exists c :: c !in components && AnyDiffers(left, right, c)
      invariant singleSided <==> exists c :: c !in components && AnyLonely(left, right, c)
      invariant agreed <==> exists c :: c !in components && AnyAgrees(left, right, c)
    {
      var component :| component in components;
      ghost var rest := components - {component};
      assert forall c :: c !in rest <==> c !in components || c == component;
      var m, s, a := CompareAxes(AxesOf(left, component), AxesOf(right, component));
      assert m <==> AnyDiffers(left, right, component);
      assert s <==> AnyLonely(left, right, component);
      assert a <==> AnyAgrees(left, right, component);
      mismatch, singleSided, agreed := mismatch || m, singleSided || s, agreed || a;
      components := components - {component};
    }
  }

  lemma NothingToCompare(left: Groups, right: Groups, c: Option<string>)
    requires c !in left && c !in right
    ensures !AnyDiffers(left, right, c) && !AnyLonely(left, right, c) && !AnyAgrees(left, right, c)
  {
  }

  lemma ValuesInGroups(groups: Groups, entries: set<Entry>, c: Option<string>, k: (Axis, Key))
    requires Holds(groups, entries)
    ensures k in AxesOf(groups, c) <==> ValuesAt(entries, Slot(c, k.0, k.1)) != {}
    ensures k in AxesOf(groups, c) ==> AxesOf(groups, c)[k] == ValuesAt(entries, Slot(c, k.0, k.1))
  {
    var slot := Slot(c, k.0, k.1);
    forall v ensures v in ValuesAt(entries, slot) <==> v in At(groups, c, k) {
      EntryIsValue(entries, Entry(slot, v));
    }
    if k in AxesOf(groups, c) {
      var v: int :| v in groups[c][k];
      assert v in At(groups, c, k);
    }
    assert ValuesAt(entries, slot) == At(groups, c, k);
  }

  lemma EntryIsValue(entries: set<Entry>, e: Entry)
    ensures e in entries <==> e.value in ValuesAt(entries, e.slot)
  {
    if e.value in ValuesAt(entries, e.slot) {
      var f :| f in entries && f.slot == e.slot && f.value == e.value;
      assert f == e;
    }
  }

  /** The slot of an entry on one side, seen from the groups of both sides. */
  lemma SlotSeen(left: Groups, right: Groups, l: set<Entry>, r: set<Entry>, slot: Slot)
    requires Holds(left, l) && Holds(right, r)
    ensures var (c, k) := (slot.component, (slot.axis, slot.context));
            var (vl, vr) := (ValuesAt(l, slot), ValuesAt(r, slot));
            && (Differs(AxesOf(left, c), AxesOf(right, c), k) <==> vl != {} && vr != {} && vl != vr)
            && (Lonely(AxesOf(left, c), AxesOf(right, c), k) <==> (vl == {}) != (vr == {}))
            && (Agrees(AxesOf(left, c), AxesOf(right, c), k) <==> vl != {} && vl == vr)
  {
    ValuesInGroups(left, l, slot.component, (slot.axis, slot.context));
    ValuesInGroups(right, r, slot.component, (slot.axis, slot.context));
  }

  lemma DiffersMeansMismatch(left: Groups, right: Groups, l: set<Entry>, r: set<Entry>)
    requires Holds(left, l) && Holds(right, r)
    ensures (exists c :: AnyDiffers(left, right, c)) <==> Mismatch(l, r)
  {
    hide Holds, AxesOf, Differs;
    if c :| AnyDiffers(left, right, c) {
      var k :| Differs(AxesOf(left, c), AxesOf(right, c), k);
      SlotSeen(left, right, l, r, Slot(c, k.0, k.1));
      var v :| v in ValuesAt(l, Slot(c, k.0, k.1));
      var w :| w in ValuesAt(r, Slot(c, k.0, k.1));
      EntryIsValue(l, Entry(Slot(c, k.0, k.1), v));
      EntryIsValue(r, Entry(Slot(c, k.0, k.1), w));
      assert Entry(Slot(c, k.0, k.1), v).slot == Entry(Slot(c, k.0, k.1), w).slot;
    }
    if Mismatch(l, r) {
      var e, f :| e in l && f in r && e.slot == f.slot && ValuesAt(l, e.slot) != ValuesAt(r, f.slot);
      EntryIsValue(l, e);
      EntryIsValue(r, f);
      SlotSeen(left, right, l, r, e.slot);
      assert AnyDiffers(left, right, e.slot.component);
    }
  }

  lemma LonelyMeansDifferent(left: Groups, right: Groups, l: set<Entry>, r: set<Entry>)
    requires Holds(left, l) && Holds(right, r) && !Mismatch(l, r)
    ensures (exists c :: AnyLonely(left, right, c)) <==> l != r
  {
    hide Holds, AxesOf, Lonely;
    if c :| AnyLonely(left, right, c) {
      var k :| Lonely(AxesOf(left, c), AxesOf(right, c), k);
      SlotSeen(left, right, l, r, Slot(c, k.0, k.1));
    }
    if e :| (e in l) != (e in r) {
      EntryIsValue(l, e);
      EntryIsValue(r, e);
      SlotSeen(left, right, l, r, e.slot);
      assert AnyLonely(left, right, e.slot.component);
    } else {
      assert l == r;
    }
  }

  lemma AgreesMeansNonempty(left: Groups, right: Groups, l: set<Entry>)
    requires Holds(left, l) && Holds(right, l)
    ensures (exists c :: AnyAgrees(left, right, c)) <==> l != {}
  {
    hide Holds, AxesOf, Agrees;
    if c :| AnyAgrees(left, right, c) {
      var k :| Agrees(AxesOf(left, c), AxesOf(right, c), k);
      SlotSeen(left, right, l, l, Slot(c, k.0, k.1));
    }
    if e :| e in l {
      EntryIsValue(l, e);
      SlotSeen(left, right, l, l, e.slot);
      assert AnyAgrees(left, right, e.slot.component);
    }
  }

  lemma EmptyGroups(groups: Groups, entries: set<Entry>)
    requires Holds(groups, entries)
    ensures groups == map[] <==> entries == {}
  {
    if e :| e in entries {
      assert e.value in At(groups, e.slot.component, (e.slot.axis, e.slot.context));
    }
    if groups != map[] {
      var c :| c in groups;
      var k :| k in groups[c];
      var v: int :| v in groups[c][k];
      assert v in At(groups, c, k);
      assert Entry(Slot(c, k.0, k.1), v) in entries;
    }
  }

  /** _fit7 after its two sides are selected. */
  method Fit7(left: seq<Ref>, right: seq<Ref>) returns (status: Status, reason: Option<string>)
    ensures (status, reason) == Verdict(left, right)
  {
    hide Holds, Mismatch, Entries, AnyDiffers, AnyLonely, AnyAgrees;
    if left == [] || right == [] {
      return Insufficient, Some(COMPARISON_EVIDENCE_MISSING);
    }
    var shared := SharedSpans(left, right);
    var leftGroups, leftInvalid, leftWithheld := AxisValues(left, shared);
    var rightGroups, rightInvalid, rightWithheld := AxisValues(right, shared);
    ghost var (l, r) := (Entries(left, shared), Entries(right, shared));
    EmptyGroups(leftGroups, l);
    EmptyGroups(rightGroups, r);
    if leftGroups == map[] && rightGroups == map[] {
      var invalid := leftInvalid != [] || rightInvalid != [];
      return Insufficient, Some(if invalid then COMPARISON_VALUE_INVALID else COMPARISON_EVIDENCE_MISSING);
    }
    var mismatch, singleSided, agreed := CompareGroups(leftGroups, rightGroups);
    DiffersMeansMismatch(leftGroups, rightGroups, l, r);
    if mismatch { return NeedsReview, Some(NUMERIC_MISMATCH); }
    LonelyMeansDifferent(leftGroups, rightGroups, l, r);
    if leftWithheld != [] || rightWithheld != [] { return Insufficient, Some(COMPARISON_EVIDENCE_MISSING); }
    if leftInvalid != [] || rightInvalid != [] { return Insufficient, Some(COMPARISON_VALUE_INVALID); }
    if singleSided { return Insufficient, Some(SINGLE_SIDED_NO_CONFLICT); }
    AgreesMeansNonempty(leftGroups, rightGroups, l);
    if agreed { return Fit, None; }
    return Insufficient, Some(COMPARISON_EVIDENCE_MISSING);
  }

  // ---------------------------------------------------------------- what the verdict means

  ghost predicate Complete(refs: seq<Ref>, shared: set<Place>) {
    forall ref :: ref in refs ==> Contributes(ref, shared)
  }

  lemma CompleteMeans(refs: seq<Ref>, shared: set<Place>)
    ensures Complete(refs, shared) <==> !AnyInvalid(refs) && !AnyWithheld(refs, shared)
    ensures refs != [] && Complete(refs, shared) ==> Entries(refs, shared) != {}
  {
    forall ref | ref in refs ensures Contributes(ref, shared) <==> !Invalid(ref) && !Withheld(ref, shared) {}
    if refs != [] && Complete(refs, shared) {
      assert refs[0] in refs;
      var span :| span in refs[0].quantities && Used(refs[0], span, shared);
      assert EntryOf(refs[0], span) in Entries(refs, shared);
    }
  }

  /** FIT-7 is FIT exactly when both sides have facts, every fact contributes at least one
      comparable quantity, and the two sides fill the same slots with the same value sets. */
  lemma FitExactlyWhenEverySlotAgrees(left: seq<Ref>, right: seq<Ref>)
    ensures Verdict(left, right).0 == Fit <==>
              var shared := SharedSpans(left, right);
              && left != [] && right != [] && Complete(left, shared) && Complete(right, shared)
              && forall slot :: ValuesAt(Entries(left, shared), slot) == ValuesAt(Entries(right, shared), slot)
  {
    hide Entries, Complete, ComparisonKey, AnyInvalid, AnyWithheld, SharedSpans;
    var shared := SharedSpans(left, right);
    CompleteMeans(left, shared);
    CompleteMeans(right, shared);
    var (l, r) := (Entries(left, shared), Entries(right, shared));
    if forall slot :: ValuesAt(l, slot) == ValuesAt(r, slot) {
      forall e ensures e in l <==> e in r {
        EntryIsValue(l, e);
        EntryIsValue(r, e);
        assert ValuesAt(l, e.slot) == ValuesAt(r, e.slot);
      }
    }
  }

  lemma NoEntries(shared: set<Place>)
    ensures Entries([], shared) == {}
  {
  }

  /** It is NEEDS_REVIEW exactly when some slot is filled on both sides with different sets,
      whatever was withheld or unreadable beside it. */
  lemma ReviewExactlyWhenASlotDiffers(left: seq<Ref>, right: seq<Ref>)
    ensures Verdict(left, right).0 == NeedsReview <==>
              var shared := SharedSpans(left, right);
              exists slot :: ValuesAt(Entries(left, shared), slot) != {} && ValuesAt(Entries(right, shared), slot) != {}
                && ValuesAt(Entries(left, shared), slot) != ValuesAt(Entries(right, shared), slot)
  {
    hide Entries, ComparisonKey, AnyInvalid, AnyWithheld, SharedSpans;
    NoEntries(SharedSpans(left, right));
    var shared := SharedSpans(left, right);
    var (l, r) := (Entries(left, shared), Entries(right, shared));
    if slot :| ValuesAt(l, slot) != {} && ValuesAt(r, slot) != {} && ValuesAt(l, slot) != ValuesAt(r, slot) {
      var v :| v in ValuesAt(l, slot);
      var w :| w in ValuesAt(r, slot);
      EntryIsValue(l, Entry(slot, v));
      EntryIsValue(r, Entry(slot, w));
      assert Entry(slot, v).slot == Entry(slot, w).slot;
      assert Mismatch(l, r);
    }
    if Mismatch(l, r) {
      var e, f :| e in l && f in r && e.slot == f.slot && ValuesAt(l, e.slot) != ValuesAt(r, f.slot);
      EntryIsValue(l, e);
      EntryIsValue(r, f);
    }
  }

  /** Swapping the sides changes nothing. */
  lemma VerdictIsSymmetric(left: seq<Ref>, right: seq<Ref>)
    ensures Verdict(left, right) == Verdict(right, left)
  {
    hide Entries, AnyInvalid, AnyWithheld, ValuesAt;
    assert SharedSpans(left, right) == SharedSpans(right, left);
    var shared := SharedSpans(left, right);
    assert Mismatch(Entries(left, shared), Entries(right, shared))
           <==> Mismatch(Entries(right, shared), Entries(left, shared));
  }

  ghost predicate SameFacts(a: seq<Ref>, b: seq<Ref>) { forall ref :: ref in a <==> ref in b }

  /** Reordering or repeating facts changes nothing. */
  lemma VerdictIgnoresOrderAndRepeats(left: seq<Ref>, left': seq<Ref>, right: seq<Ref>, right': seq<Ref>)
    requires SameFacts(left, left') && SameFacts(right, right')
    ensures Verdict(left, right) == Verdict(left', right')
  {
    hide Mismatch, ComparisonKey, Contributes;
    SameSide(left, left');
    SameSide(right, right');
    var shared := SharedSpans(left, right);
    SameEntries(left, left', shared);
    SameEntries(right, right', shared);
  }

  lemma SameSide(a: seq<Ref>, b: seq<Ref>)
    requires SameFacts(a, b)
    ensures Places(a) == Places(b) && (a == [] <==> b == []) && (AnyInvalid(a) <==> AnyInvalid(b))
  {
    assert a != [] ==> a[0] in b;
    assert b != [] ==> b[0] in a;
  }

  lemma SameEntries(a: seq<Ref>, b: seq<Ref>, shared: set<Place>)
    requires SameFacts(a, b)
    ensures Entries(a, shared) == Entries(b, shared) && (AnyWithheld(a, shared) <==> AnyWithheld(b, shared))
  {
  }

  /** A side compared with itself is never NEEDS_REVIEW. */
  lemma SelfComparisonIsNeverReview(side: seq<Ref>)
    ensures Verdict(side, side).0 != NeedsReview
  {
  }

  /** Withholding is per fact: a quantity without confirmed context, added to a fact that has a
      usable one, leaves the verdict as it is (the new span must not be quoted by the other side). */
  lemma DroppedSpanBesideAUsedOneIsIgnored(left: seq<Ref>, i: nat, span: Span, right: seq<Ref>)
    requires i < |left| && Contributes(left[i], SharedSpans(left, right))
    requires ComparisonKey(span).None? && PlaceOf(left[i], span) !in Places(right)
    ensures var more := left[i].(quantities := left[i].quantities + [span]);
            Verdict(left[i := more], right) == Verdict(left, right)
  {
    hide ComparisonKey, Mismatch;
    var more := left[i].(quantities := left[i].quantities + [span]);
    var left' := left[i := more];
    MorePlaces(left, i, span);
    var shared := SharedSpans(left, right);
    assert SharedSpans(left', right) == shared;
    MoreEntries(left, i, span, shared);
    assert Contributes(more, shared) by {
      var used :| used in left[i].quantities && Used(left[i], used, shared);
      assert used in more.quantities && Used(more, used, shared);
    }
    forall ref ensures ref in left' ==> ref in left || ref == more {}
    forall ref | ref in left ensures ref in left' || ref == left[i] {
      var j :| 0 <= j < |left| && left[j] == ref;
      assert left'[j] in left';
    }
    assert AnyInvalid(left') <==> AnyInvalid(left);
    assert AnyWithheld(left', shared) <==> AnyWithheld(left, shared);
  }

  lemma MorePlaces(refs: seq<Ref>, i: nat, span: Span)
    requires i < |refs|
    ensures var more := refs[i].(quantities := refs[i].quantities + [span]);
            Places(refs) <= Places(refs[i := more]) <= Places(refs) + {PlaceOf(refs[i], span)}
  {
    var more := refs[i].(quantities := refs[i].quantities + [span]);
    var refs' := refs[i := more];
    forall place | place in Places(refs) ensures place in Places(refs') {
      var ref, s :| ref in refs && s in ref.quantities && ref.block.Some? && ref.block.value != ""
           && PlaceOf(ref, s) == place;
      var j :| 0 <= j < |refs| && refs[j] == ref;
      assert s in refs'[j].quantities && refs'[j] in refs' && PlaceOf(refs'[j], s) == place;
    }
  }

  lemma MoreEntries(refs: seq<Ref>, i: nat, span: Span, shared: set<Place>)
    requires i < |refs| && ComparisonKey(span).None?
    ensures var more := refs[i].(quantities := refs[i].quantities + [span]);
            Entries(refs[i := more], shared) == Entries(refs, shared)
  {
    hide ComparisonKey;
    var more := refs[i].(quantities := refs[i].quantities + [span]);
    var refs' := refs[i := more];
    forall e | e in Entries(refs, shared) ensures e in Entries(refs', shared) {
      var ref, s :| ref in refs && s in ref.quantities && Used(ref, s, shared) && EntryOf(ref, s) == e;
      var j :| 0 <= j < |refs| && refs[j] == ref;
      assert s in refs'[j].quantities && refs'[j] in refs' && Used(refs'[j], s, shared) && EntryOf(refs'[j], s) == e;
    }
    forall e | e in Entries(refs', shared) ensures e in Entries(refs, shared) {
      var ref, s :| ref in refs' && s in ref.quantities && Used(ref, s, shared) && EntryOf(ref, s) == e;
      var j :| 0 <= j < |refs'| && refs'[j] == ref;
      assert s in refs[j].quantities && refs[j] in refs && Used(refs[j], s, shared) && EntryOf(refs[j], s) == e;
    }
  }

  // ---------------------------------------------------------------- FIT-7 on the facts themselves

  ghost predicate Confirmed(span: Span, d: Dimension) {
    LabelOf(span.modifiers, d).Some?
  }

  ghost predicate SameLabel(a: Span, b: Span, d: Dimension) {
    LabelOf(a.modifiers, d) == LabelOf(b.modifiers, d)
  }

  /** The context that a quantity needs before it may be compared. */
  ghost predicate Comparable(span: Span) {
    match span.axis
    case AmountKrw => Confirmed(span, Scope) && Confirmed(span, Nature)
    case Count(_) => Confirmed(span, Period) && Confirmed(span, Scope)
    case TimesUnqualified => Confirmed(span, Period)
    case Times(_) => true
    case OtherAxis(_) => Confirmed(span, Period) && Confirmed(span, Scope) && Confirmed(span, Nature)
  }

  /** Two comparable quantities speak of the same thing: on one axis, in the context of that axis. */
  ghost predicate SameContext(a: Span, b: Span) {
    a.axis == b.axis
    && match a.axis
       case AmountKrw => SameLabel(a, b, Scope) && SameLabel(a, b, Nature) && SameLabel(a, b, Period)
       case Count(_) => SameLabel(a, b, Period) && SameLabel(a, b, Scope)
       case TimesUnqualified => SameLabel(a, b, Period)
       case Times(_) => true
       case OtherAxis(_) => SameLabel(a, b, Period) && SameLabel(a, b, Scope) && SameLabel(a, b, Nature)
  }

  ghost predicate QuotedIn(refs: seq<Ref>, block: Option<string>, start: int, end: int) {
    exists ref, span ::
      ref in refs && span in ref.quantities && ref.block == block && span.start == start && span.end == end
  }

  /** A quantity that takes part: comparable, and not a passage that both sides quote. */
  ghost predicate Counted(ref: Ref, span: Span, left: seq<Ref>, right: seq<Ref>) {
    && span in ref.quantities && Comparable(span)
    && !(&& ref.block.Some? && ref.block.value != ""
         && QuotedIn(left, ref.block, span.start, span.end) && QuotedIn(right, ref.block, span.start, span.end))
  }

  ghost predicate SomeCounted(ref: Ref, left: seq<Ref>, right: seq<Ref>) {
    exists span :: Counted(ref, span, left, right)
  }

  /** The other side has a quantity of the same component in the same context ... */
  ghost predicate Answered(ref: Ref, span: Span, others: seq<Ref>, left: seq<Ref>, right: seq<Ref>) {
    exists other, answer :: other in others && Counted(other, answer, left, right)
                            && other.component == ref.component && SameContext(span, answer)
  }

  /** ... and one of the same value. */
  ghost predicate Matched(ref: Ref, span: Span, others: seq<Ref>, left: seq<Ref>, right: seq<Ref>) {
    exists other, answer :: other in others && Counted(other, answer, left, right)
                            && other.component == ref.component && SameContext(span, answer)
                               && answer.value == span.value
  }

  ghost predicate AllMatched(refs: seq<Ref>, others: seq<Ref>, left: seq<Ref>, right: seq<Ref>) {
    forall ref, span :: ref in refs && Counted(ref, span, left, right) ==> Matched(ref, span, others, left, right)
  }

  ghost predicate SomeContradicted(refs: seq<Ref>, others: seq<Ref>, left: seq<Ref>, right: seq<Ref>) {
    exists ref, span :: ref in refs && Counted(ref, span, left, right)
                        && Answered(ref, span, others, left, right) && !Matched(ref, span, others, left, right)
  }

  ghost predicate NothingCounted(refs: seq<Ref>, left: seq<Ref>, right: seq<Ref>) {
    forall ref :: ref in refs ==> !SomeCounted(ref, left, right)
  }

  /** Quantities were read, and none of them counts. */
  ghost predicate SomeSilent(refs: seq<Ref>, left: seq<Ref>, right: seq<Ref>) {
    exists ref :: ref in refs && ref.quantities != [] && !SomeCounted(ref, left, right)
  }

  ghost predicate SomeUnread(refs: seq<Ref>) {
    exists ref :: ref in refs && ref.quantities == []
  }

  lemma ComparableExactly(span: Span)
    ensures Comparable(span) <==> ComparisonKey(span).Some?
  {
    KeyParts(span);
    hide LabelOf, ComparisonKey;
  }

  lemma SameContextExactly(a: Span, b: Span)
    requires Comparable(a) && Comparable(b)
    ensures ComparisonKey(a).Some? && ComparisonKey(b).Some?
    ensures SameContext(a, b) <==> a.axis == b.axis && ComparisonKey(a) == ComparisonKey(b)
  {
    KeyParts(a);
    KeyParts(b);
    hide LabelOf, ComparisonKey;
  }

  lemma QuotedExactly(refs: seq<Ref>, block: Option<string>, start: int, end: int)
    ensures (block, start, end) in Places(refs)
            <==> block.Some? && block.value != "" && QuotedIn(refs, block, start, end)
  {
  }

  lemma CountedExactly(ref: Ref, span: Span, left: seq<Ref>, right: seq<Ref>)
    ensures Counted(ref, span, left, right) <==> span in ref.quantities && Used(ref, span, SharedSpans(left, right))
  {
    ComparableExactly(span);
    QuotedExactly(left, ref.block, span.start, span.end);
    QuotedExactly(right, ref.block, span.start, span.end);
    hide Comparable, ComparisonKey, QuotedIn, Places;
  }

  /** The entries of a side are its counted quantities. */
  lemma EntriesExactly(refs: seq<Ref>, left: seq<Ref>, right: seq<Ref>, e: Entry)
    ensures e in Entries(refs, SharedSpans(left, right)) <==>
              exists ref, span ::
                ref in refs && Counted(ref, span, left, right) && ComparisonKey(span).Some? && EntryOf(ref, span) == e
  {
    var shared := SharedSpans(left, right);
    hide SharedSpans, Counted, ComparisonKey;
    if e in Entries(refs, shared) {
      var ref, span :| ref in refs && span in ref.quantities && Used(ref, span, shared) && EntryOf(ref, span) == e;
      CountedExactly(ref, span, left, right);
    }
    if ref, span :|
      ref in refs && Counted(ref, span, left, right) && ComparisonKey(span).Some? && EntryOf(ref, span) == e {
      CountedExactly(ref, span, left, right);
    }
  }

  lemma CountedHasEntry(refs: seq<Ref>, ref: Ref, span: Span, left: seq<Ref>, right: seq<Ref>)
    requires ref in refs && Counted(ref, span, left, right)
    ensures ComparisonKey(span).Some? && EntryOf(ref, span) in Entries(refs, SharedSpans(left, right))
  {
    ComparableExactly(span);
    hide SharedSpans, ComparisonKey;
    EntriesExactly(refs, left, right, EntryOf(ref, span));
  }

  /** Matched is membership of the entry on the other side; answered, that its slot is filled there. */
  lemma AnsweredExactly(ref: Ref, span: Span, others: seq<Ref>, left: seq<Ref>, right: seq<Ref>)
    requires Counted(ref, span, left, right)
    ensures ComparisonKey(span).Some?
    ensures var (e, there) := (EntryOf(ref, span), Entries(others, SharedSpans(left, right)));
            && (Matched(ref, span, others, left, right) <==> e in there)
            && (Answered(ref, span, others, left, right) <==> exists f :: f in there && f.slot == e.slot)
  {
    ComparableExactly(span);
    var (e, there) := (EntryOf(ref, span), Entries(others, SharedSpans(left, right)));
    hide SharedSpans, Entries, ComparisonKey, SameContext;
    forall other, answer | other in others && Counted(other, answer, left, right)
      ensures ComparisonKey(answer).Some? && EntryOf(other, answer) in there
      ensures EntryOf(other, answer).slot == e.slot <==> other.component == ref.component && SameContext(span, answer)
    {
      CountedHasEntry(others, other, answer, left, right);
      SameContextExactly(span, answer);
    }
    hide Counted;
    forall f | f in there
      ensures exists other, answer :: other in others && Counted(other, answer, left, right)
                && ComparisonKey(answer).Some? && EntryOf(other, answer) == f
    {
      EntriesExactly(others, left, right, f);
    }
  }

  lemma CountedContributes(ref: Ref, left: seq<Ref>, right: seq<Ref>)
    ensures SomeCounted(ref, left, right) <==> Contributes(ref, SharedSpans(left, right))
  {
    hide SharedSpans, Counted, Used;
    if span :| Counted(ref, span, left, right) {
      CountedExactly(ref, span, left, right);
    }
    if span :| span in ref.quantities && Used(ref, span, SharedSpans(left, right)) {
      CountedExactly(ref, span, left, right);
    }
  }

  lemma SilenceExactly(refs: seq<Ref>, left: seq<Ref>, right: seq<Ref>)
    ensures SomeSilent(refs, left, right) <==> AnyWithheld(refs, SharedSpans(left, right))
    ensures NothingCounted(refs, left, right) <==> Entries(refs, SharedSpans(left, right)) == {}
  {
    var shared := SharedSpans(left, right);
    hide SharedSpans, SomeCounted, Contributes, Used, Entries;
    forall ref ensures SomeCounted(ref, left, right) <==> Contributes(ref, shared) {
      CountedContributes(ref, left, right);
    }
    assert SomeSilent(refs, left, right) <==> AnyWithheld(refs, shared);
    EmptyEntries(refs, shared);
  }

  lemma EmptyEntries(refs: seq<Ref>, shared: set<Place>)
    ensures Entries(refs, shared) == {} <==> forall ref :: ref in refs ==> !Contributes(ref, shared)
  {
    hide ComparisonKey, PlaceOf;
    if ref :| ref in refs && Contributes(ref, shared) {
      var span :| span in ref.quantities && Used(ref, span, shared);
      assert EntryOf(ref, span) in Entries(refs, shared);
    }
  }

  lemma ValueSetsDiffer(l: set<Entry>, r: set<Entry>, slot: Slot)
    ensures ValuesAt(l, slot) != ValuesAt(r, slot) <==>
              (exists e: Entry :: e.slot == slot && (e in l) != (e in r))
  {
    if v :| (v in ValuesAt(l, slot)) != (v in ValuesAt(r, slot)) {
      EntryIsValue(l, Entry(slot, v));
      EntryIsValue(r, Entry(slot, v));
      assert Entry(slot, v).slot == slot;
    }
    if e: Entry :| e.slot == slot && (e in l) != (e in r) {
      EntryIsValue(l, e);
      EntryIsValue(r, e);
    }
  }

  /** An entry that the other side answers otherwise. */
  ghost predicate Otherwise(e: Entry, r: set<Entry>) {
    e !in r && exists f :: f in r && f.slot == e.slot
  }

  lemma MismatchExactly(l: set<Entry>, r: set<Entry>)
    ensures Mismatch(l, r) <==> (exists e :: e in l && Otherwise(e, r)) || exists e :: e in r && Otherwise(e, l)
  {
    if a, b :| a in l && b in r && a.slot == b.slot && ValuesAt(l, a.slot) != ValuesAt(r, b.slot) {
      ValueSetsDiffer(l, r, a.slot);
      var e: Entry :| e.slot == a.slot && (e in l) != (e in r);
      assert Otherwise(e, r) || Otherwise(e, l);
    }
    if e :| e in l && Otherwise(e, r) {
      ValueSetsDiffer(l, r, e.slot);
    }
    if e :| e in r && Otherwise(e, l) {
      ValueSetsDiffer(l, r, e.slot);
    }
  }

  lemma ContradictionExactly(refs: seq<Ref>, others: seq<Ref>, left: seq<Ref>, right: seq<Ref>)
    ensures var (here, there) := (Entries(refs, SharedSpans(left, right)), Entries(others, SharedSpans(left, right)));
            && (SomeContradicted(refs, others, left, right) <==> exists e :: e in here && Otherwise(e, there))
            && (AllMatched(refs, others, left, right) <==> here <= there)
  {
    var (here, there) := (Entries(refs, SharedSpans(left, right)), Entries(others, SharedSpans(left, right)));
    hide SharedSpans, Entries, Counted, Matched, Answered, ComparisonKey;
    forall ref, span | ref in refs && Counted(ref, span, left, right)
      ensures ComparisonKey(span).Some? && EntryOf(ref, span) in here
      ensures Matched(ref, span, others, left, right) <==> EntryOf(ref, span) in there
      ensures Answered(ref, span, others, left, right) && !Matched(ref, span, others, left, right)
              <==> Otherwise(EntryOf(ref, span), there)
    {
      CountedHasEntry(refs, ref, span, left, right);
      AnsweredExactly(ref, span, others, left, right);
    }
    forall e | e in here
      ensures exists ref, span :: ref in refs && Counted(ref, span, left, right)
                && ComparisonKey(span).Some? && EntryOf(ref, span) == e
    {
      EntriesExactly(refs, left, right, e);
    }
    hide EntryOf, Otherwise;
  }

  /** The verdict of FIT-7, said of the facts: which quantities count, which of them the other side
      answers or repeats, and in which order the reasons come. */
  lemma VerdictOnTheFacts(left: seq<Ref>, right: seq<Ref>)
    ensures Verdict(left, right) ==
              if left == [] || right == [] then (Insufficient, Some("COMPARISON_EVIDENCE_MISSING"))
              else if NothingCounted(left, left, right) && NothingCounted(right, left, right) then
                if SomeUnread(left) || SomeUnread(right) then (Insufficient, Some("COMPARISON_VALUE_INVALID"))
                else (Insufficient, Some("COMPARISON_EVIDENCE_MISSING"))
              else if SomeContradicted(left, right, left, right) || SomeContradicted(right, left, left, right) then
                (NeedsReview, Some("NUMERIC_MISMATCH"))
              else if SomeSilent(left, left, right) || SomeSilent(right, left, right) then
                (Insufficient, Some("COMPARISON_EVIDENCE_MISSING"))
              else if SomeUnread(left) || SomeUnread(right) then (Insufficient, Some("COMPARISON_VALUE_INVALID"))
              else if !AllMatched(left, right, left, right) || !AllMatched(right, left, left, right) then
                (Insufficient, Some("SINGLE_SIDED_NO_CONFLICT"))
              else (Fit, None)
  {
    SilenceExactly(left, left, right);
    SilenceExactly(right, left, right);
    ContradictionExactly(left, right, left, right);
    ContradictionExactly(right, left, left, right);
    var (l, r) := (Entries(left, SharedSpans(left, right)), Entries(right, SharedSpans(left, right)));
    MismatchExactly(l, r);
    hide SharedSpans, Entries, SomeContradicted, SomeSilent, NothingCounted, AllMatched, AnyWithheld, Mismatch,
      Otherwise;
  }
}
