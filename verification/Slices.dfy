/** Facts about cutting sequences that the proofs use by name. */
module Slices {
  lemma SliceOfSlice<T>(s: seq<T>, a: nat, b: nat, c: nat, d: nat)
    requires a <= b <= |s| && c <= d <= b - a
    ensures s[a..b][c..d] == s[a + c..a + d]
  {
    var (t, u) := (s[a..b][c..d], s[a + c..a + d]);
    assert forall k :: 0 <= k < d - c ==> t[k] == u[k];
  }

  lemma TwoParts<T>(s: seq<T>, k: nat)
    requires k <= |s|
    ensures s == s[..k] + s[k..]
  {
  }

  lemma ThreeParts<T>(s: seq<T>, i: nat, j: nat)
    requires i <= j <= |s|
    ensures s == s[..i] + s[i..j] + s[j..]
  {
  }

  lemma TakeOfTake<T>(s: seq<T>, i: nat, j: nat)
    requires i <= j <= |s|
    ensures s[..j][..i] == s[..i]
  {
  }

  /** A list that goes on with a and then with b: a stretch of a prefix that reaches past a. */
  lemma StretchPast<T>(s: seq<T>, skip: nat, a: seq<T>, b: seq<T>, prefix: seq<T>)
    requires skip <= |s| && s[skip..] == a + b && prefix <= s && skip + |a| < |prefix|
    ensures b != [] && prefix[skip..skip + |a| + 1] == a + [b[0]]
  {
    var rest := s[skip..];
    assert |rest| == |a| + |b|;
    assert prefix[skip..skip + |a| + 1] == rest[..|a| + 1];
    assert rest[..|a|] == a && rest[|a|] == b[0];
    assert rest[..|a| + 1] == rest[..|a|] + [rest[|a|]];
  }

  lemma RegroupFive<T>(s: seq<T>, a: seq<T>, b: seq<T>, c: seq<T>, d: seq<T>, e: seq<T>)
    ensures s + a + b + c + d + e == s + (a + b + c + d + e)
  {
  }
}
