/** Python's view of a text: slices with negative and oversize bounds, and find(). */
module PyText {
  import opened Wrappers

  /** A slice bound as an index into a text of length n. */
  function Bound(i: int, n: nat): (k: nat)
    ensures k <= n
  {
    if i < 0 then (if n + i < 0 then 0 else n + i) else if i <= n then i else n
  }

  /** text[start:end] */
  function Slice(text: string, start: int, end: int): (s: string) {
    var (lo, hi) := (Bound(start, |text|), Bound(end, |text|));
    if lo <= hi then text[lo..hi] else ""
  }

  /** Bounds inside the text cut as they say, those below zero count from the end, and those beyond
      either end stand for that end. */
  lemma SliceLaws(text: string, start: int, end: int)
    ensures 0 <= start <= end <= |text| ==> Slice(text, start, end) == text[start..end]
    ensures 0 <= end < start <= |text| ==> Slice(text, start, end) == ""
    ensures 0 <= start < |text| ==> Slice(text, start - |text|, end) == Slice(text, start, end)
    ensures 0 <= end < |text| ==> Slice(text, start, end - |text|) == Slice(text, start, end)
    ensures start < -|text| ==> Slice(text, start, end) == Slice(text, 0, end)
    ensures end < -|text| ==> Slice(text, start, end) == ""
    ensures start > |text| ==> Slice(text, start, end) == ""
    ensures end > |text| ==> Slice(text, start, end) == Slice(text, start, |text|)
  {
  }

  predicate At(text: string, needle: string, k: nat) {
    k + |needle| <= |text| && text[k..k + |needle|] == needle
  }

  /** text.find(needle, from) */
  function Find(text: string, needle: string, from: nat): (k: int)
    ensures k >= 0 ==> from <= k && At(text, needle, k) && forall j :: from <= j < k ==> !At(text, needle, j)
    ensures k < 0 ==> forall j :: from <= j ==> !At(text, needle, j)
    decreases |text| - from
  {
    if from + |needle| > |text| then -1
    else if text[from..from + |needle|] == needle then from
    else Find(text, needle, from + 1)
  }

  ghost predicate OnlyAt(text: string, needle: string, k: nat) {
    At(text, needle, k) && forall j: nat :: At(text, needle, j) ==> j == k
  }

  /** _unique_index: the position of a text that occurs once, overlapping occurrences included. */
  function UniqueIndex(text: string, needle: string): (k: Option<nat>)
    ensures k.Some? ==> needle != "" && OnlyAt(text, needle, k.value)
    ensures k.None? ==> needle == "" || forall j: nat :: !OnlyAt(text, needle, j)
  {
    if needle == "" then None
    else
      var first := Find(text, needle, 0);
      if first < 0 then None
      else
        var second := Find(text, needle, first + 1);
        if second >= 0 then None else Some(first)
  }

  /** dict.fromkeys: the first occurrence of each value. */
  function FirstOnly(values: seq<string>): (firsts: seq<string>)
    ensures forall v :: v in firsts <==> v in values
    ensures forall i, j :: 0 <= i < j < |firsts| ==> firsts[i] != firsts[j]
  {
    if values == [] then []
    else
      var (init, last) := (FirstOnly(values[..|values| - 1]), values[|values| - 1]);
      if last in values[..|values| - 1] then init else init + [last]
  }

  ghost predicate ComesBefore(values: seq<string>, a: string, b: string) {
    exists i :: 0 <= i < |values| && values[i] == a && b !in values[..i + 1]
  }

  /** The values stay in the order in which they first come up. */
  lemma {:induction false} FirstOnlyKeepsOrder(values: seq<string>, p: nat, q: nat)
    requires p < q < |FirstOnly(values)|
    ensures ComesBefore(values, FirstOnly(values)[p], FirstOnly(values)[q])
  {
    var (init, last) := (values[..|values| - 1], values[|values| - 1]);
    var firsts := FirstOnly(init);
    if q < |firsts| {
      FirstOnlyKeepsOrder(init, p, q);
      var i :| 0 <= i < |init| && init[i] == firsts[p] && firsts[q] !in init[..i + 1];
      assert values[..i + 1] == init[..i + 1] && values[i] == firsts[p];
    } else {
      assert firsts[p] in firsts && firsts[p] in init;
      var i :| 0 <= i < |init| && init[i] == firsts[p];
      assert values[..i + 1] == init[..i + 1] && values[i] == firsts[p];
    }
  }
}
