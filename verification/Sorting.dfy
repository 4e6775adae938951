/** Python's sorted(): ascending and stable, for any total preorder of the elements. */
module Sorting {
  ghost predicate TotalPreorder<T(!new)>(le: (T, T) -> bool) {
    && (forall a, b :: le(a, b) || le(b, a))
    && (forall a, b, c :: le(a, b) && le(b, c) ==> le(a, c))
  }

  function InsertBy<T>(ordered: seq<T>, t: T, le: (T, T) -> bool): (more: seq<T>)
    ensures forall e :: e in more ==> e in ordered || e == t
    ensures |more| == |ordered| + 1
  {
    if ordered == [] || le(ordered[|ordered| - 1], t) then ordered + [t]
    else InsertBy(ordered[..|ordered| - 1], t, le) + [ordered[|ordered| - 1]]
  }

  function SortBy<T>(s: seq<T>, le: (T, T) -> bool): (ordered: seq<T>) {
    if s == [] then [] else InsertBy(SortBy(s[..|s| - 1], le), s[|s| - 1], le)
  }

  ghost predicate Ascending<T>(s: seq<T>, le: (T, T) -> bool) {
    forall i, j :: 0 <= i < j < |s| ==> le(s[i], s[j])
  }

  lemma {:induction false} InsertKeepsOrder<T(!new)>(ordered: seq<T>, t: T, le: (T, T) -> bool)
    requires TotalPreorder(le) && Ascending(ordered, le)
    ensures Ascending(InsertBy(ordered, t, le), le)
    ensures multiset(InsertBy(ordered, t, le)) == multiset(ordered) + multiset{t}
  {
    if ordered != [] {
      var (init, last) := (ordered[..|ordered| - 1], ordered[|ordered| - 1]);
      assert ordered == init + [last];
      assert forall e :: e in init ==> le(e, last);
      if le(last, t) {
        assert forall e :: e in init ==> le(e, t);
      } else {
        InsertKeepsOrder(init, t, le);
        assert le(t, last);
        assert forall k :: 0 <= k < |ordered| ==> InsertBy(init, t, le)[k] in InsertBy(init, t, le);
      }
    }
  }

  /** The result is the input in ascending order, each element as often as it was there. */
  lemma {:induction false} SortingSorts<T(!new)>(s: seq<T>, le: (T, T) -> bool)
    requires TotalPreorder(le)
    ensures Ascending(SortBy(s, le), le)
    ensures multiset(SortBy(s, le)) == multiset(s) && |SortBy(s, le)| == |s|
    ensures forall t :: t in SortBy(s, le) <==> t in s
  {
    hide TotalPreorder, Ascending;
    if s == [] {
      Singleton(s, le);
    } else {
      var (init, last) := (s[..|s| - 1], s[|s| - 1]);
      SortingSorts(init, le);
      InsertKeepsOrder(SortBy(init, le), last, le);
      assert s == init + [last];
    }
    SameMembers(SortBy(s, le), s);
  }

  lemma Singleton<T>(s: seq<T>, le: (T, T) -> bool)
    requires |s| <= 1
    ensures Ascending(s, le)
  {
  }

  lemma SameMembers<T>(a: seq<T>, b: seq<T>)
    requires multiset(a) == multiset(b)
    ensures forall t :: t in a <==> t in b
  {
    forall t ensures t in a <==> t in b {
      assert t in a <==> t in multiset(a);
      assert t in b <==> t in multiset(b);
    }
  }

  ghost predicate Distinct<T>(s: seq<T>) {
    forall i, j :: 0 <= i < j < |s| ==> s[i] != s[j]
  }

  ghost predicate DistinctKeys<T, K>(s: seq<T>, key: T -> K) {
    forall i, j :: 0 <= i < j < |s| ==> key(s[i]) != key(s[j])
  }

  /** Keys that are pairwise distinct stay so under any rearrangement. */
  lemma RearrangedKeysStayDistinct<T, K>(a: seq<T>, b: seq<T>, key: T -> K)
    requires multiset(a) == multiset(b) && DistinctKeys(a, key)
    ensures DistinctKeys(b, key)
  {
    SameMembers(a, b);
    forall i, j | 0 <= i < j < |b| ensures key(b[i]) != key(b[j]) {
      assert b[i] in b && b[j] in b;
      var k :| 0 <= k < |a| && a[k] == b[i];
      var l :| 0 <= l < |a| && a[l] == b[j];
      if b[i] == b[j] {
        assert b == b[..i] + [b[i]] + b[i + 1..j] + [b[j]] + b[j + 1..];
        OnlyOnce(a, k, key);
      }
    }
  }

  lemma OnlyOnce<T, K>(a: seq<T>, k: nat, key: T -> K)
    requires DistinctKeys(a, key) && k < |a|
    ensures multiset(a)[a[k]] == 1
  {
    var (before, after) := (a[..k], a[k + 1..]);
    assert a == before + [a[k]] + after;
    assert a[k] !in before && a[k] !in after;
  }

  /** Where the order tells all elements apart, the order in which they came does not show. */
  lemma {:induction false} SortedIsUnique<T(!new)>(a: seq<T>, b: seq<T>, le: (T, T) -> bool)
    requires Ascending(a, le) && Ascending(b, le) && Distinct(a) && Distinct(b)
    requires forall t :: t in a <==> t in b
    requires forall s, t :: s in a && t in a && le(s, t) && le(t, s) ==> s == t
    ensures a == b
  {
    hide Ascending, Distinct;
    assert |b| > 0 ==> b[0] in b;
    if a != [] {
      var (m, n) := (|a| - 1, |b| - 1);
      assert a[m] in a && b[n] in b;
      EarlierIsNotAfter(a, b[n], le);
      EarlierIsNotAfter(b, a[m], le);
      WithoutLast(a, le);
      WithoutLast(b, le);
      var (s, t) := (a[m], b[n]);
      assert s == t;
      var (c, d) := (a[..|a| - 1], b[..|b| - 1]);
      forall e ensures e in c <==> e in d {
        assert e in c <==> e in a && e != s;
        assert e in d <==> e in b && e != t;
      }
      assert a == c + [s] && b == d + [t];
      SortedIsUnique(c, d, le);
    }
  }

  lemma EarlierIsNotAfter<T(!new)>(s: seq<T>, t: T, le: (T, T) -> bool)
    requires t in s && Ascending(s, le)
    ensures le(t, s[|s| - 1]) || t == s[|s| - 1]
  {
  }

  lemma WithoutLast<T(!new)>(s: seq<T>, le: (T, T) -> bool)
    requires s != [] && Distinct(s) && Ascending(s, le)
    ensures Distinct(s[..|s| - 1]) && Ascending(s[..|s| - 1], le)
    ensures forall t :: t in s[..|s| - 1] <==> t in s && t != s[|s| - 1]
  {
    assert s == s[..|s| - 1] + [s[|s| - 1]];
  }
}
