/** The ignore patterns that the exclusion test of the build context mirrors
    (backend/scripts/build_context_digest.py). */
module ContextRules {
  import opened Wrappers
  import opened Sorting
  import opened ContextDigest

  /** The shapes of pattern in use: a name, or a name with a star before or after. */
  datatype Rule = Named(text: string) | Ending(text: string) | Starting(text: string)

  /** A pattern with its leading two stars, which also reach the root, or without: the root only. */
  datatype Pattern = Anywhere(rule: Rule) | AtRoot(rule: Rule)

  predicate RuleMatches(rule: Rule, name: Bytes) {
    IsAscii(rule.text)
    && match rule
       case Named(s) => name == Ascii(s)
       case Ending(s) => |s| <= |name| && name[|name| - |s|..] == Ascii(s)
       case Starting(s) => Ascii(s) <= name
  }

  predicate Matches(pattern: Pattern, path: Path)
    requires path != []
  {
    RuleMatches(pattern.rule, path[|path| - 1]) && (pattern.AtRoot? ==> |path| == 1)
  }

  /** What DOCKER_CONTEXT_EXCLUSIONS declares twice, for the root and with two stars; "*.py[cod]" is
      three of these. */
  const EVERYWHERE: seq<Rule> := [
    Named(".git"), Named(".pytest_cache"), Named("__pycache__"), Ending(".pyc"), Ending(".pyo"), Ending(".pyd"),
    Named(".venv"), Named("venv"), Named(".env"), Starting(".env."), Named(".prereview-build-id"), Ending(".pem"),
    Ending(".key"), Named("secrets"), Named(".eggs"), Ending(".egg-info"), Named("dist"), Named("build"),
    Named("sdist"), Ending(".so"), Named(".ipynb_checkpoints")]

  predicate IsExclusion(p: Pattern) {
    p.rule in EVERYWHERE || p == AtRoot(Named("handover"))
  }

  /** DOCKER_CONTEXT_EXCEPTIONS. */
  predicate IsException(p: Pattern) {
    p.rule == Named(".env.example")
  }

  /** What the ignore file leaves out: a path that matches an exclusion and no exception. */
  ghost predicate Ignored(path: Path)
    requires path != []
  {
    (exists p :: IsExclusion(p) && Matches(p, path)) && !exists e :: IsException(e) && Matches(e, path)
  }

  lemma NamedEverywhere(s: string)
    ensures Named(s) in EVERYWHERE <==> s in EXCLUDED_NAMES || s == ".env"
  {
  }

  lemma EndingEverywhere(s: string)
    ensures Ending(s) in EVERYWHERE <==> s in EXCLUDED_SUFFIXES
  {
  }

  lemma EndingMatches(s: string, name: Bytes)
    ensures RuleMatches(Ending(s), name) <==> IsAscii(s) && EndsWith(name, Ascii(s))
  {
  }

  lemma StartingEverywhere(s: string)
    ensures Starting(s) in EVERYWHERE <==> s == ".env."
  {
  }

  /** No excluded name and no excluded suffix fits ".env.example". */
  lemma ExampleIsNamedByNothingElse(s: string)
    requires IsAscii(s)
    ensures s in EXCLUDED_NAMES ==> Ascii(s) != Ascii(".env.example")
    ensures s in EXCLUDED_SUFFIXES ==> !EndsWith(Ascii(".env.example"), Ascii(s))
  {
    var example := Ascii(".env.example");
    assert |example| == 12 && example[11] as int == 'e' as int;
    if s in EXCLUDED_NAMES {
      assert |s| != 12;
    }
    if s in EXCLUDED_SUFFIXES {
      assert |s| > 0 && s[|s| - 1] != 'e';
      assert Ascii(s)[|s| - 1] != example[11];
    }
  }

  /** _is_excluded is in step with the declared patterns: it leaves out exactly what they do. */
  lemma RulesAgree(path: Path)
    requires path != []
    ensures Excluded(path) <==> Ignored(path)
  {
    var name := path[|path| - 1];
    hide Ignored, Excluded, Ascii, EndsWith;
    ExceptionExactly(path);
    if Excluded(path) {
      ExcludedIsIgnored(path);
    }
    if Ignored(path) {
      IgnoredIsExcluded(path);
    }
  }

  lemma ExceptionExactly(path: Path)
    requires path != []
    ensures (exists e :: IsException(e) && Matches(e, path)) <==> path[|path| - 1] == Ascii(".env.example")
  {
    hide Ascii, EndsWith;
    if path[|path| - 1] == Ascii(".env.example") {
      assert IsException(Anywhere(Named(".env.example"))) && Matches(Anywhere(Named(".env.example")), path);
    }
  }

  lemma LeftOut(path: Path, p: Pattern)
    requires path != [] && (p.rule in EVERYWHERE || p == AtRoot(Named("handover")))
    requires Matches(p, path) && path[|path| - 1] != Ascii(".env.example")
    ensures Ignored(path)
  {
    hide EndsWith, Ascii, Matches;
    ExceptionExactly(path);
    assert IsExclusion(p) && Matches(p, path);
  }

  lemma NameIsIgnored(path: Path, s: string)
    requires path != [] && s in EXCLUDED_NAMES && IsAscii(s) && path[|path| - 1] == Ascii(s)
    ensures Ignored(path)
  {
    hide EndsWith, IsExclusion, Ignored, Ascii;
    NamedEverywhere(s);
    ExampleIsNamedByNothingElse(s);
    LeftOut(path, Anywhere(Named(s)));
  }

  lemma SuffixIsIgnored(path: Path, s: string)
    requires path != [] && s in EXCLUDED_SUFFIXES && IsAscii(s) && EndsWith(path[|path| - 1], Ascii(s))
    ensures Ignored(path)
  {
    hide EndsWith, IsExclusion, Ignored, Ascii;
    hide RuleMatches;
    EndingEverywhere(s);
    EndingMatches(s, path[|path| - 1]);
    ExampleIsNamedByNothingElse(s);
    LeftOut(path, Anywhere(Ending(s)));
  }

  lemma EnvFileIsIgnored(path: Path)
    requires path != [] && IsEnvFile(path[|path| - 1]) && path[|path| - 1] != Ascii(".env.example")
    ensures Ignored(path)
  {
    hide EndsWith, IsExclusion, Ignored, Ascii;
    NamedEverywhere(".env");
    StartingEverywhere(".env.");
    LeftOut(path, Anywhere(if path[|path| - 1] == Ascii(".env") then Named(".env") else Starting(".env.")));
  }

  lemma HandoverIsNoExample()
    ensures Ascii("handover") != Ascii(".env.example")
  {
    assert |Ascii("handover")| != |Ascii(".env.example")|;
  }

  lemma HandoverIsIgnored(path: Path)
    requires |path| == 1 && path[0] == Ascii("handover")
    ensures Ignored(path)
  {
    HandoverIsNoExample();
    ExceptionExactly(path);
    hide EndsWith, IsExclusion, Ascii, IsException;
    var p := AtRoot(Named("handover"));
    RootOnly(p);
    assert Matches(p, path);
  }

  lemma RootOnly(p: Pattern)
    requires p == AtRoot(Named("handover"))
    ensures IsExclusion(p)
  {
  }

  lemma ExcludedIsIgnored(path: Path)
    requires path != [] && Excluded(path)
    ensures Ignored(path)
  {
    hide EndsWith, Ascii, IsEnvFile, Ignored;
    var name := path[|path| - 1];
    if s :| s in EXCLUDED_NAMES && IsAscii(s) && name == Ascii(s) {
      NameIsIgnored(path, s);
    } else if s :| s in EXCLUDED_SUFFIXES && IsAscii(s) && EndsWith(name, Ascii(s)) {
      SuffixIsIgnored(path, s);
    } else if IsEnvFile(name) && name != Ascii(".env.example") {
      EnvFileIsIgnored(path);
    } else {
      HandoverIsIgnored(path);
    }
  }

  lemma IgnoredIsExcluded(path: Path)
    requires path != [] && Ignored(path)
    ensures Excluded(path)
  {
    hide EndsWith, Ascii;
    ExceptionExactly(path);
    var p :| IsExclusion(p) && Matches(p, path);
    match p.rule {
      case Named(s) => NamedEverywhere(s);
      case Ending(s) =>
        EndingEverywhere(s);
        EndingMatches(s, path[|path| - 1]);
      case Starting(s) => StartingEverywhere(s);
    }
  }

  // ---------------------------------------------------------------- the bytes that are hashed

  lemma {:induction false} BigEndianDigit(n: nat, width: nat, i: nat)
    requires i < width
    ensures Pow256(width - 1 - i) > 0
    ensures BigEndian(n, width)[i] as int == n / Pow256(width - 1 - i) % 256
  {
    if i < width - 1 {
      BigEndianDigit(n / 256, width - 1, i);
      DivideTwice(n, Pow256(width - 2 - i));
    }
  }

  lemma DivideTwice(n: nat, k: nat)
    requires k > 0
    ensures n / 256 / k == n / (256 * k)
  {
    var q := n / 256 / k;
    var r := n / 256 % k;
    assert n / 256 == q * k + r;
    assert n == 256 * (q * k + r) + n % 256;
    assert n == q * (256 * k) + (256 * r + n % 256);
    QuotientIs(n, 256 * k, q, 256 * r + n % 256);
  }

  lemma QuotientIs(n: nat, d: nat, q: nat, r: nat)
    requires r < d && n == q * d + r
    ensures n / d == q
  {
    var k := n / d;
    assert k * d <= n < (k + 1) * d;
    assert k < q ==> (k + 1) * d <= q * d;
    assert k > q ==> (q + 1) * d <= k * d;
  }

  /** as_posix: the names, each but the first after a slash. */
  lemma {:induction false} PathIsJoined(path: Path, name: Bytes)
    ensures PathBytes([name]) == name
    ensures path != [] ==> PathBytes(path + [name]) == PathBytes(path) + [47] + name
  {
    if |path| > 1 {
      PathIsJoined(path[1..], name);
      assert (path + [name])[1..] == path[1..] + [name];
      assert path[0] + [47] + (PathBytes(path[1..]) + [47] + name)
             == path[0] + [47] + PathBytes(path[1..]) + [47] + name;
    } else if |path| == 1 {
      assert (path + [name])[1..] == [name];
    }
  }

  ghost predicate SmallerAt(a: Bytes, b: Bytes, k: nat) {
    k < |a| && k < |b| && a[..k] == b[..k] && a[k] < b[k]
  }

  /** The order of the paths: by the first byte that differs, a prefix first. */
  lemma {:induction false} LexExactly(a: Bytes, b: Bytes)
    ensures LexLeq(a, b) <==> a <= b || exists k: nat :: SmallerAt(a, b, k)
  {
    if a != [] && b != [] {
      if a[0] == b[0] {
        LexExactly(a[1..], b[1..]);
        SmallerBehind(a, b);
      } else if a[0] < b[0] {
        assert SmallerAt(a, b, 0);
      } else {
        assert forall k: nat :: 0 < k <= |a| && k <= |b| ==> a[..k][0] != b[..k][0];
      }
    }
  }

  lemma SmallerBehind(a: Bytes, b: Bytes)
    requires a != [] && b != [] && a[0] == b[0]
    ensures (exists k: nat :: SmallerAt(a, b, k)) <==> exists k: nat :: SmallerAt(a[1..], b[1..], k)
    ensures a <= b <==> a[1..] <= b[1..]
  {
    if k: nat :| SmallerAt(a[1..], b[1..], k) {
      assert a[..k + 1] == [a[0]] + a[1..][..k] && b[..k + 1] == [b[0]] + b[1..][..k];
      assert SmallerAt(a, b, k + 1);
    }
    if k: nat :| SmallerAt(a, b, k) {
      assert a[1..][..k - 1] == a[..k][1..] && b[1..][..k - 1] == b[..k][1..];
      assert SmallerAt(a[1..], b[1..], k - 1);
    }
    assert a == [a[0]] + a[1..] && b == [b[0]] + b[1..];
  }

  /** A marker, the length of the value in eight bytes, the value. */
  function Framed(marker: string, value: Bytes): (bytes: Bytes)
    requires IsAscii(marker)
  {
    Ascii(marker) + BigEndian(|value|, 8) + value
  }

  /** The file bytes, or the text of the link; nothing for a directory. */
  function Payload(tree: Tree): (bytes: Bytes)
    requires !tree.Special?
  {
    match tree
    case Regular(_, content) => content
    case Symlink(_, target, _) => target
    case Directory(_, _) => []
  }

  function KindText(tree: Tree): (kind: string) {
    match tree
    case Regular(_, _) => "regular"
    case Symlink(_, _, _) => "symlink"
    case _ => "directory"
  }

  predicate Hashable(item: Item) {
    !item.tree.Special? && |PathBytes(item.path)| < 0x1_0000_0000_0000_0000
      && |Payload(item.tree)| < 0x1_0000_0000_0000_0000
  }

  /** What is hashed for one item. */
  function Hashed(item: Item): (bytes: Bytes)
    requires Hashable(item)
  {
    Framed("path\0", PathBytes(item.path)) + Framed("kind\0", Ascii(KindText(item.tree)))
    + Framed("mode\0", Octal(item.tree.mode)) + Framed("payload\0", Payload(item.tree))
  }

  predicate AllHashable(items: seq<Item>) {
    forall item :: item in items ==> Hashable(item)
  }

  function HashedAll(items: seq<Item>): (bytes: Bytes)
    requires AllHashable(items)
  {
    if items == [] then [] else HashedAll(items[..|items| - 1]) + Hashed(items[|items| - 1])
  }

  function Domain(): (bytes: Bytes) { Ascii("prereview-backend-docker-context-v1\0") }

  lemma RecordIsHashed(item: Item)
    ensures EntryOf(item).Ok? && Record(EntryOf(item).value).Ok? <==> Hashable(item)
    ensures Hashable(item) ==> Record(EntryOf(item).value).value == Hashed(item)
  {
    if Hashable(item) {
      var e := EntryOf(item).value;
      assert KindName(e.kind) == Ascii(KindText(item.tree));
      var (path, kind, mode, payload) := (Frame(PATH, e.path).value, Frame(KIND, KindName(e.kind)).value,
                                          Frame(MODE, Octal(e.mode)).value, Frame(PAYLOAD, e.payload).value);
      assert path + (kind + (mode + payload)) == path + kind + mode + payload;
    }
  }

  lemma {:induction false} HashedAllFrom(items: seq<Item>)
    requires items != [] && AllHashable(items)
    ensures HashedAll(items) == Hashed(items[0]) + HashedAll(items[1..])
  {
    hide Hashed, Hashable;
    if |items| > 1 {
      var (front, last) := (items[..|items| - 1], Hashed(items[|items| - 1]));
      HashedAllFrom(front);
      assert front[1..] == items[1..][..|items| - 2] && front[0] == items[0];
      assert Hashed(items[0]) + HashedAll(front[1..]) + last == Hashed(items[0]) + (HashedAll(front[1..]) + last);
    } else {
      assert items == [items[0]] && items[1..] == [] && items[..0] == [];
    }
  }

  lemma {:induction false} ContentsExactly(items: seq<Item>)
    ensures Contents(items).Ok? <==> AllHashable(items)
    ensures Contents(items).Ok? ==> Contents(items).value == HashedAll(items)
  {
    hide EntryOf, Record, Hashed, Hashable, HashedAll;
    if items != [] {
      RecordIsHashed(items[0]);
      ContentsExactly(items[1..]);
      assert items == [items[0]] + items[1..];
      if AllHashable(items) {
        HashedAllFrom(items);
      }
    } else {
      NothingHashed();
    }
  }

  lemma NothingHashed()
    ensures HashedAll([]) == []
  {
  }

  /** The digest: of the domain and, in the order of their paths, the four frames of every entry
      that is below the root and retained; refused exactly where one of them is neither a file nor a
      link nor a directory, or has a path or payload whose length does not fit its eight bytes. */
  lemma DigestExactly(children: seq<Child>) returns (items: seq<Item>)
    requires WellFormed(children)
    ensures forall item :: item in items <==> Below(children, item)
    ensures forall i, j :: 0 <= i < j < |items| ==>
              items[i].path != items[j].path && LexLeq(PathBytes(items[i].path), PathBytes(items[j].path))
    ensures DigestOf(children).Ok? <==> AllHashable(items)
    ensures DigestOf(children).Ok? ==>
              DigestOf(children).value == Sha256(Domain() + HashedAll(items))
  {
    items := SortBy(Walk([], children), ByPath);
    hide Walk, SortBy, WellFormed, Below, LexLeq, PathBytes, Hashable, HashedAll, Contents;
    HashedItems(children);
    ContentsExactly(items);
    forall i, j | 0 <= i < j < |items|
      ensures items[i].path != items[j].path && LexLeq(PathBytes(items[i].path), PathBytes(items[j].path))
    {
      assert ByPath(items[i], items[j]) && PathOf(items[i]) != PathOf(items[j]);
    }
  }
}
