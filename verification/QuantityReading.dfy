/** Reading a text's quantities: every digit run must be part of a number, and a modifier counts
    only for the number it is directly attached to (backend/worker/quantities.py). */
module QuantityReading {
  import opened Wrappers
  import opened Sorting
  import Q = FitQuantities

  /** A number and a modifier as the patterns matched them. */
  datatype Number = Number(axis: Q.Axis, value: int, start: nat, end: nat)
  datatype Modifier = Modifier(meaning: Q.Modifier, start: nat, end: nat)
  datatype DigitRun = DigitRun(start: nat, end: nat)

  /** A number with the modifiers attached to it, in text order. */
  datatype Reading = Reading(number: Number, chain: seq<Modifier>)

  /** What the patterns find in a text: the numbers by start, the modifiers pattern by pattern, the
      ends of the clause boundaries between two positions, the digit runs, and the characters that
      do not break a connection. Matching itself is not part of the model. */
  datatype Matches = Matches(text: string, numbers: seq<Number>, modifiers: seq<Modifier>,
                             boundaries: (nat, nat) -> seq<nat>, digitRuns: seq<DigitRun>, glue: char -> bool)

  /** The numbers are sorted by start, and every match lies inside the text. Numbers of different
      patterns may overlap. */
  ghost predicate Proper(m: Matches) {
    && (forall n :: n in m.numbers ==> n.start < n.end <= |m.text|)
    && (forall i, j :: 0 <= i < j < |m.numbers| ==> m.numbers[i].start <= m.numbers[j].start)
    && (forall x :: x in m.modifiers ==> x.start < x.end <= |m.text|)
  }

  predicate Glued(m: Matches, from: nat, to: nat)
    requires from <= to <= |m.text|
  {
    forall c :: c in m.text[from..to] ==> m.glue(c)
  }

  predicate ByStart(x: Modifier, y: Modifier) {
    x.start <= y.start
  }

  // ---------------------------------------------------------------- _attach

  function Furthest(floor: nat, ends: seq<nat>): (furthest: nat)
    ensures furthest >= floor && (forall e :: e in ends ==> e <= furthest)
    ensures furthest == floor || furthest in ends
  {
    if ends == [] then floor
    else
      assert ends == ends[..|ends| - 1] + [ends[|ends| - 1]];
      var init := Furthest(floor, ends[..|ends| - 1]);
      if ends[|ends| - 1] > init then ends[|ends| - 1] else init
  }

  /** Where the number before ends, and the ends of the clause boundaries after it. */
  function Previous(m: Matches, i: nat): (end: nat)
    requires i < |m.numbers|
  {
    if i > 0 then m.numbers[i - 1].end else 0
  }

  function BoundariesBefore(m: Matches, i: nat): (ends: seq<nat>)
    requires i < |m.numbers|
  {
    m.boundaries(Previous(m, i), m.numbers[i].start)
  }

  /** Nothing before this position belongs to the i-th number: the end of the number before it, or
      of the last clause boundary in between. */
  function Floor(m: Matches, i: nat): (floor: nat)
    requires i < |m.numbers|
  {
    Furthest(Previous(m, i), BoundariesBefore(m, i))
  }

  /** The modifiers that reach the cursor from the left, going back over the first k by start. */
  function Chain(m: Matches, found: seq<Modifier>, k: nat, cursor: nat, floor: nat): (chain: seq<Modifier>)
    requires k <= |found| && cursor <= |m.text|
    requires forall x :: x in found ==> x.start < x.end
  {
    if k == 0 then []
    else
      var x := found[k - 1];
      if x.end > cursor || x.start < floor then Chain(m, found, k - 1, cursor, floor)
      else if !Glued(m, x.end, cursor) then []
      else Chain(m, found, k - 1, x.start, floor) + [x]
  }

  function Found(m: Matches): (found: seq<Modifier>)
    ensures forall x :: x in found <==> x in m.modifiers
    ensures Ascending(found, ByStart)
  {
    SortingSorts(m.modifiers, ByStart);
    SortBy(m.modifiers, ByStart)
  }

  function AttachedTo(m: Matches, i: nat): (chain: seq<Modifier>)
    requires Proper(m) && i < |m.numbers|
  {
    Chain(m, Found(m), |Found(m)|, m.numbers[i].start, Floor(m, i))
  }

  method Attach(m: Matches) returns (readings: seq<Reading>)
    requires Proper(m)
    ensures |readings| == |m.numbers|
    ensures forall i :: 0 <= i < |readings| ==> readings[i] == Reading(m.numbers[i], AttachedTo(m, i))
  {
    hide Proper, Furthest, Chain;
    MatchesAreInside(m);
    var found := Found(m);
    readings := [];
    for i := 0 to |m.numbers|
      invariant |readings| == i
      invariant forall j :: 0 <= j < i ==> readings[j] == Reading(m.numbers[j], AttachedTo(m, j))
    {
      var number := m.numbers[i];
      var previous := Previous(m, i);
      var floor := LastBoundary(previous, m.boundaries(previous, number.start));
      assert floor == Floor(m, i) && number.start <= |m.text| by { assert number in m.numbers; }
      var chain := CollectChain(m, found, number.start, floor);
      readings := readings + [Reading(number, chain)];
    }
  }

  lemma MatchesAreInside(m: Matches)
    requires Proper(m)
    ensures forall n :: n in m.numbers ==> n.start < n.end <= |m.text|
    ensures forall x :: x in m.modifiers ==> x.start < x.end
  {
  }

  method LastBoundary(previous: nat, ends: seq<nat>) returns (floor: nat)
    ensures floor == Furthest(previous, ends)
  {
    floor := previous;
    for b := 0 to |ends|
      invariant floor == Furthest(previous, ends[..b])
    {
      assert ends[..b + 1][..b] == ends[..b];
      floor := if ends[b] > floor then ends[b] else floor;
    }
    assert ends[..|ends|] == ends;
  }

  method CollectChain(m: Matches, found: seq<Modifier>, start: nat, floor: nat) returns (chain: seq<Modifier>)
    requires start <= |m.text| && forall x :: x in found ==> x.start < x.end
    ensures chain == Chain(m, found, |found|, start, floor)
  {
    chain := [];
    var cursor: nat, k: nat := start, |found|;
    while k > 0
      invariant cursor <= |m.text| && k <= |found|
      invariant Chain(m, found, |found|, start, floor) == Chain(m, found, k, cursor, floor) + chain
    {
      k := k - 1;
      var x := found[k];
      if x.end > cursor || x.start < floor {
        continue;
      }
      if !Glued(m, x.end, cursor) {
        break;
      }
      chain := [x] + chain;
      cursor := x.start;
    }
  }

  // ---------------------------------------------------------------- what an attachment means

  /** A chain in front of a position: its modifiers do not overlap, nothing but glue lies between
      them and up to the position, and none starts before the floor. */
  ghost predicate Connected(m: Matches, chain: seq<Modifier>, cursor: nat, floor: nat)
    requires cursor <= |m.text|
  {
    && (forall k :: 0 <= k < |chain| ==> floor <= chain[k].start < chain[k].end <= cursor)
    && (forall k :: 0 < k < |chain| ==>
         chain[k - 1].end <= chain[k].start && Glued(m, chain[k - 1].end, chain[k].start))
    && (chain != [] ==> Glued(m, chain[|chain| - 1].end, cursor))
  }

  lemma {:induction false} ChainIsConnected(m: Matches, found: seq<Modifier>, k: nat, cursor: nat, floor: nat)
    requires k <= |found| && cursor <= |m.text|
    requires forall x :: x in found ==> x.start < x.end
    ensures Connected(m, Chain(m, found, k, cursor, floor), cursor, floor)
    ensures forall x :: x in Chain(m, found, k, cursor, floor) ==> x in found
  {
    hide Glued;
    if k > 0 {
      var x := found[k - 1];
      if x.end > cursor || x.start < floor {
        ChainIsConnected(m, found, k - 1, cursor, floor);
      } else {
        ChainIsConnected(m, found, k - 1, x.start, floor);
      }
    }
  }

  /** Every modifier attached to a number lies after the previous number and after the last clause
      boundary, and connects to the number through glue and other modifiers only. */
  lemma AttachedModifiersAreDirect(m: Matches, i: nat)
    requires Proper(m) && i < |m.numbers|
    ensures m.numbers[i].start <= |m.text|
    ensures Connected(m, AttachedTo(m, i), m.numbers[i].start, Floor(m, i))
    ensures Previous(m, i) <= Floor(m, i) && forall e :: e in BoundariesBefore(m, i) ==> e <= Floor(m, i)
    ensures forall x :: x in AttachedTo(m, i) ==> x in m.modifiers
  {
    assert m.numbers[i] in m.numbers;
    ChainIsConnected(m, Found(m), |Found(m)|, m.numbers[i].start, Floor(m, i));
  }

  /** No modifier serves two numbers, not even the same words matched at the same place twice. */
  lemma NoModifierServesTwoNumbers(m: Matches, i: nat, j: nat, x: Modifier, y: Modifier)
    requires Proper(m) && i < j < |m.numbers| && x in AttachedTo(m, i) && y in AttachedTo(m, j)
    ensures x.end <= y.start && x != y
  {
    AttachedModifiersAreDirect(m, i);
    AttachedModifiersAreDirect(m, j);
    hide AttachedTo, Floor, Glued;
    assert m.numbers[j - 1] in m.numbers;
    assert m.numbers[i].start <= m.numbers[j - 1].start;
  }

  /** A modifier that may belong to a number: between the floor and the number. */
  ghost predicate Eligible(m: Matches, i: nat, x: Modifier)
    requires i < |m.numbers|
  {
    x in m.modifiers && Floor(m, i) <= x.start && x.end <= m.numbers[i].start
  }

  /** A number gets a modifier exactly when the eligible modifier that starts last touches it: one
      unknown word in between leaves the number without context. */
  lemma AttachedExactly(m: Matches, i: nat, last: Modifier)
    requires Proper(m) && i < |m.numbers| && Eligible(m, i, last)
    requires forall x :: Eligible(m, i, x) && x != last ==> x.start < last.start
    ensures m.numbers[i].start <= |m.text|
    ensures AttachedTo(m, i) != [] <==> Glued(m, last.end, m.numbers[i].start)
    ensures AttachedTo(m, i) != [] ==> AttachedTo(m, i)[|AttachedTo(m, i)| - 1] == last
  {
    assert m.numbers[i] in m.numbers;
    var (found, cursor, floor) := (Found(m), m.numbers[i].start, Floor(m, i));
    assert found[..|found|] == found;
    LastEligibleDecides(m, found, |found|, cursor, floor, last);
  }

  lemma {:induction false} LastEligibleDecides(m: Matches, found: seq<Modifier>, k: nat, cursor: nat, floor: nat,
                                               last: Modifier)
    requires k <= |found| && cursor <= |m.text| && Ascending(found, ByStart)
    requires forall x :: x in found ==> x.start < x.end
    requires last in found[..k] && floor <= last.start && last.end <= cursor
    requires forall x :: x in found && x != last && floor <= x.start && x.end <= cursor ==> x.start < last.start
    ensures var chain := Chain(m, found, k, cursor, floor);
            if Glued(m, last.end, cursor) then chain != [] && chain[|chain| - 1] == last else chain == []
  {
    var x := found[k - 1];
    if x != last {
      var l :| 0 <= l < k && found[l] == last;
      assert ByStart(found[l], x);
      LastEligibleDecides(m, found, k - 1, cursor, floor, last);
    }
  }

  /** A modifier between the floor and a position. */
  ghost predicate Between(x: Modifier, cursor: nat, floor: nat) {
    floor <= x.start && x.end <= cursor
  }

  /** Of the modifiers in front of a position, one that starts last. */
  ghost predicate Nearest(found: seq<Modifier>, x: Modifier, cursor: nat, floor: nat) {
    x in found && Between(x, cursor, floor) && forall y :: y in found && Between(y, cursor, floor) ==>
      y.start <= x.start
  }

  /** A chain that leaves nothing out: each of its modifiers is the nearest one to what follows and
      touches it, and it ends where no modifier is left or the nearest one does not touch. */
  ghost predicate Complete(m: Matches, found: seq<Modifier>, chain: seq<Modifier>, cursor: nat, floor: nat)
    requires cursor <= |m.text| && forall x :: x in found ==> x.start < x.end
    decreases |chain|
  {
    if chain == [] then
      || (forall x :: x in found ==> !Between(x, cursor, floor))
      || (exists x :: Nearest(found, x, cursor, floor) && !Glued(m, x.end, cursor))
    else
      var last := chain[|chain| - 1];
      && Nearest(found, last, cursor, floor) && Glued(m, last.end, cursor)
      && Complete(m, found, chain[..|chain| - 1], last.start, floor)
  }

  lemma {:induction false} ChainIsComplete(m: Matches, found: seq<Modifier>, k: nat, cursor: nat, floor: nat)
    requires k <= |found| && cursor <= |m.text| && Ascending(found, ByStart)
    requires forall x :: x in found ==> x.start < x.end
    requires forall j :: k <= j < |found| ==> !Between(found[j], cursor, floor)
    ensures Complete(m, found, Chain(m, found, k, cursor, floor), cursor, floor)
  {
    hide Glued;
    if k > 0 {
      var x := found[k - 1];
      if x.end > cursor || x.start < floor {
        ChainIsComplete(m, found, k - 1, cursor, floor);
      } else {
        assert forall j :: 0 <= j < k - 1 ==> ByStart(found[j], x);
        assert Nearest(found, x, cursor, floor);
        if Glued(m, x.end, cursor) {
          ChainIsComplete(m, found, k - 1, x.start, floor);
          var (rest, chain) := (Chain(m, found, k - 1, x.start, floor), Chain(m, found, k, cursor, floor));
          assert chain[..|chain| - 1] == rest && chain[|chain| - 1] == x;
        }
      }
    }
  }

  /** Where the reach of a number ends on the left: the end of the number before it, or of the last
      clause boundary between them, whichever is further right. */
  ghost predicate IsFloor(m: Matches, i: nat, floor: nat)
    requires i < |m.numbers|
  {
    var previous := if i == 0 then 0 else m.numbers[i - 1].end;
    && previous <= floor && (forall e :: e in m.boundaries(previous, m.numbers[i].start) ==> e <= floor)
    && (floor == previous || floor in m.boundaries(previous, m.numbers[i].start))
  }

  /** Every modifier that reaches the number through glue is attached: the chain of each number is
      connected and complete, and its order is that of the text. */
  lemma AttachedCompletely(m: Matches, i: nat) returns (floor: nat)
    requires Proper(m) && i < |m.numbers|
    ensures m.numbers[i].start <= |m.text| && (forall x :: x in m.modifiers ==> x.start < x.end)
    ensures IsFloor(m, i, floor)
    ensures Connected(m, AttachedTo(m, i), m.numbers[i].start, floor)
    ensures Complete(m, m.modifiers, AttachedTo(m, i), m.numbers[i].start, floor)
  {
    floor := Floor(m, i);
    AttachedModifiersAreDirect(m, i);
    ChainIsComplete(m, Found(m), |Found(m)|, m.numbers[i].start, floor);
    SameModifiers(m, Found(m), m.modifiers, AttachedTo(m, i), m.numbers[i].start, floor);
  }

  lemma {:induction false} SameModifiers(m: Matches, found: seq<Modifier>, others: seq<Modifier>, chain: seq<Modifier>,
                                         cursor: nat, floor: nat)
    requires cursor <= |m.text| && (forall x :: x in found ==> x.start < x.end)
    requires forall x :: x in found <==> x in others
    requires Complete(m, found, chain, cursor, floor)
    ensures Complete(m, others, chain, cursor, floor)
    decreases |chain|
  {
    hide Glued;
    if chain != [] {
      SameModifiers(m, found, others, chain[..|chain| - 1], chain[|chain| - 1].start, floor);
    } else if x :| Nearest(found, x, cursor, floor) && !Glued(m, x.end, cursor) {
      assert Nearest(others, x, cursor, floor);
    }
  }

  // ---------------------------------------------------------------- read_quantities

  predicate Covered(m: Matches, digits: DigitRun) {
    exists n :: n in m.numbers && n.start <= digits.start && digits.end <= n.end
  }

  /** The value as a whole is dropped when a single digit run is not part of a number. */
  method ReadQuantities(m: Matches) returns (readings: seq<Reading>)
    requires Proper(m)
    ensures if m.text != "" && forall d :: d in m.digitRuns ==>
                 exists n :: n in m.numbers && n.start <= d.start && d.end <= n.end then
              |readings| == |m.numbers|
              && forall i :: 0 <= i < |readings| ==> readings[i] == Reading(m.numbers[i], AttachedTo(m, i))
            else readings == []
  {
    if m.text == "" { return []; }
    for i := 0 to |m.digitRuns|
      invariant forall k :: 0 <= k < i ==> Covered(m, m.digitRuns[k])
    {
      assert m.digitRuns[i] in m.digitRuns;
      if !Covered(m, m.digitRuns[i]) {
        return [];
      }
    }
    readings := Attach(m);
  }

  /** What FIT-7 compares: the number with the meanings of its modifiers. */
  function Quantity(r: Reading): (span: Q.Span) {
    Q.Span(r.number.axis, r.number.value, r.number.start, r.number.end, Meanings(r.chain))
  }

  function Meanings(chain: seq<Modifier>): (meanings: seq<Q.Modifier>)
    ensures |meanings| == |chain| && forall i :: 0 <= i < |chain| ==> meanings[i] == chain[i].meaning
  {
    seq(|chain|, i requires 0 <= i < |chain| => chain[i].meaning)
  }

  /** A dimension that FIT-7 takes as confirmed was said by a modifier attached to this number. */
  lemma ConfirmedContextIsAttached(m: Matches, i: nat, dimension: Q.Dimension)
    requires Proper(m) && i < |m.numbers|
    requires Q.LabelOf(Quantity(Reading(m.numbers[i], AttachedTo(m, i))).modifiers, dimension).Some?
    ensures var tag := Q.LabelOf(Quantity(Reading(m.numbers[i], AttachedTo(m, i))).modifiers, dimension).value;
            exists x :: x in m.modifiers && x in AttachedTo(m, i) && x.meaning == Q.Modifier(dimension, tag)
  {
    AttachedModifiersAreDirect(m, i);
    var chain := AttachedTo(m, i);
    hide AttachedTo, Floor;
    var tag := Q.LabelOf(Meanings(chain), dimension).value;
    assert tag in Q.Labels(Meanings(chain), dimension);
    var said :| said in Meanings(chain) && said.dimension == dimension && said.tag == tag;
    var k :| 0 <= k < |chain| && Meanings(chain)[k] == said;
    assert chain[k] in chain;
  }
}
