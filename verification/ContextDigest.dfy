/** The identity of a Docker build context: the walk over the directory tree, the framed byte
    stream, and what its hash says about the context (backend/scripts/build_context_digest.py). */
module ContextDigest {
  import opened Wrappers
  import opened Sorting

  newtype byte = b: int | 0 <= b < 256
  type Bytes = seq<byte>

  /** SHA-256, taken to be injective. */
  datatype Digest = Sha256(stream: Bytes)

  function Ascii(s: string): (bytes: Bytes)
    requires forall c :: c in s ==> c as int < 128
    ensures |bytes| == |s| && forall i :: 0 <= i < |s| ==> bytes[i] as int == s[i] as int
  {
    seq(|s|, i requires 0 <= i < |s| => assert s[i] in s; s[i] as int as byte)
  }

  const SLASH := '/' as int as byte
  const TWO_TO_THE_64 := 0x1_0000_0000_0000_0000

  // ---------------------------------------------------------------- framing

  /** n.to_bytes(width, "big"), for an n that fits. */
  function BigEndian(n: nat, width: nat): (bytes: Bytes)
    ensures |bytes| == width
  {
    if width == 0 then [] else BigEndian(n / 256, width - 1) + [(n % 256) as byte]
  }

  function Pow256(k: nat): (p: nat) {
    if k == 0 then 1 else 256 * Pow256(k - 1)
  }

  lemma {:induction false} BigEndianIsInjective(m: nat, n: nat, width: nat)
    requires m < Pow256(width) && n < Pow256(width) && BigEndian(m, width) == BigEndian(n, width)
    ensures m == n
  {
    if width > 0 {
      var (a, b) := (BigEndian(m, width), BigEndian(n, width));
      assert a[..width - 1] == BigEndian(m / 256, width - 1) && b[..width - 1] == BigEndian(n / 256, width - 1);
      assert a[width - 1] == (m % 256) as byte && b[width - 1] == (n % 256) as byte;
      BigEndianIsInjective(m / 256, n / 256, width - 1);
    }
  }

  lemma EightBytesAreEnough()
    ensures Pow256(8) == TWO_TO_THE_64
  {
    assert Pow256(4) == 256 * 256 * 256 * 256;
    assert Pow256(8) == 256 * 256 * 256 * 256 * Pow256(4);
  }

  /** _framed_update: marker, eight-byte length, value; a longer value does not fit the frame. */
  function Frame(marker: Bytes, value: Bytes): (r: Result<Bytes>) {
    if |value| >= TWO_TO_THE_64 then Err("int too big to convert") else Ok(marker + BigEndian(|value|, 8) + value)
  }

  /** A frame ends where its length says: what follows cannot be mistaken for part of the value. */
  lemma FrameIsPrefixFree(marker: Bytes, v: Bytes, w: Bytes, s: Bytes, t: Bytes)
    requires Frame(marker, v).Ok? && Frame(marker, w).Ok?
    requires Frame(marker, v).value + s == Frame(marker, w).value + t
    ensures v == w && s == t
  {
    var (one, other) := (Frame(marker, v).value + s, Frame(marker, w).value + t);
    var head := |marker| + 8;
    assert one[|marker|..head] == BigEndian(|v|, 8) && other[|marker|..head] == BigEndian(|w|, 8);
    EightBytesAreEnough();
    BigEndianIsInjective(|v|, |w|, 8);
    assert one[head..head + |v|] == v && other[head..head + |w|] == w;
    assert one[head + |v|..] == s && other[head + |w|..] == t;
  }

  // ---------------------------------------------------------------- entries

  datatype Kind = RegularFile | SymbolicLink | DirectoryEntry
  type Mode = m: nat | m < 0x1000

  datatype Entry = Entry(path: Bytes, kind: Kind, mode: Mode, payload: Bytes)

  function KindName(kind: Kind): (name: Bytes) {
    match kind
    case RegularFile => Ascii("regular")
    case SymbolicLink => Ascii("symlink")
    case DirectoryEntry => Ascii("directory")
  }

  /** f"{mode:04o}": the permission bits fill exactly four octal digits. */
  function Octal(mode: Mode): (digits: Bytes)
    ensures |digits| == 4
  {
    [OctalDigit(mode / 512), OctalDigit(mode / 64 % 8), OctalDigit(mode / 8 % 8), OctalDigit(mode % 8)]
  }

  function OctalDigit(d: nat): (b: byte)
    requires d < 8
    ensures b as int == '0' as int + d
  {
    ('0' as int + d) as byte
  }

  const PATH := Ascii("path\0")
  const KIND := Ascii("kind\0")
  const MODE := Ascii("mode\0")
  const PAYLOAD := Ascii("payload\0")

  /** The four frames of one entry. */
  function Record(e: Entry): (r: Result<Bytes>) {
    match Frame(PATH, e.path)
    case Err(message) => Err(message)
    case Ok(path) =>
      match Frame(PAYLOAD, e.payload)
      case Err(message) => Err(message)
      case Ok(payload) =>
        Ok(path + (Frame(KIND, KindName(e.kind)).value + (Frame(MODE, Octal(e.mode)).value + payload)))
  }

  /** All records one after the other: what the hash object is fed after the domain prefix. */
  function Stream(entries: seq<Entry>): (r: Result<Bytes>) {
    if entries == [] then Ok([])
    else
      match Record(entries[0])
      case Err(message) => Err(message)
      case Ok(record) =>
        match Stream(entries[1..])
        case Err(message) => Err(message)
        case Ok(rest) => Ok(record + rest)
  }

  lemma KindNamesDiffer(k: Kind, l: Kind)
    requires KindName(k) == KindName(l)
    ensures k == l
  {
    assert |KindName(RegularFile)| == 7 && |KindName(SymbolicLink)| == 7 && |KindName(DirectoryEntry)| == 9;
    assert KindName(RegularFile)[0] as int == 'r' as int && KindName(SymbolicLink)[0] as int == 's' as int;
  }

  lemma OctalIsInjective(m: Mode, n: Mode)
    requires Octal(m) == Octal(n)
    ensures m == n
  {
    OctalValue(m);
    OctalValue(n);
  }

  lemma OctalValue(m: Mode)
    ensures var d := Octal(m);
            m == 512 * (d[0] as int - 48) + 64 * (d[1] as int - 48) + 8 * (d[2] as int - 48) + (d[3] as int - 48)
  {
    assert m / 8 / 8 == m / 64 && m / 64 / 8 == m / 512;
  }

  lemma Reassociate(a: Bytes, b: Bytes, c: Bytes, d: Bytes, s: Bytes)
    ensures a + (b + (c + d)) + s == a + (b + (c + (d + s)))
  {
  }

  /** The record of an entry tells path, kind, mode and payload, and where it ends. */
  lemma RecordIsPrefixFree(e: Entry, f: Entry, s: Bytes, t: Bytes)
    requires Record(e).Ok? && Record(f).Ok? && Record(e).value + s == Record(f).value + t
    ensures e == f && s == t
  {
    var (ek, em, ep) := (Frame(KIND, KindName(e.kind)).value, Frame(MODE, Octal(e.mode)).value,
                         Frame(PAYLOAD, e.payload).value);
    var (fk, fm, fp) := (Frame(KIND, KindName(f.kind)).value, Frame(MODE, Octal(f.mode)).value,
                         Frame(PAYLOAD, f.payload).value);
    var (ePath, fPath) := (Frame(PATH, e.path).value, Frame(PATH, f.path).value);
    Reassociate(ePath, ek, em, ep, s);
    Reassociate(fPath, fk, fm, fp, t);
    hide Frame, KindName, Octal;
    FrameIsPrefixFree(PATH, e.path, f.path, ek + (em + (ep + s)), fk + (fm + (fp + t)));
    FrameIsPrefixFree(KIND, KindName(e.kind), KindName(f.kind), em + (ep + s), fm + (fp + t));
    KindNamesDiffer(e.kind, f.kind);
    FrameIsPrefixFree(MODE, Octal(e.mode), Octal(f.mode), ep + s, fp + t);
    OctalIsInjective(e.mode, f.mode);
    FrameIsPrefixFree(PAYLOAD, e.payload, f.payload, s, t);
  }

  /** Equal streams come from equal lists of entries. */
  lemma {:induction false} StreamIsInjective(a: seq<Entry>, b: seq<Entry>)
    requires Stream(a).Ok? && Stream(a) == Stream(b)
    ensures a == b
  {
    hide Record;
    if a != [] {
      RecordsAreNotEmpty(a);
    }
    if b != [] {
      RecordsAreNotEmpty(b);
    }
    if a != [] && b != [] {
      RecordIsPrefixFree(a[0], b[0], Stream(a[1..]).value, Stream(b[1..]).value);
      StreamIsInjective(a[1..], b[1..]);
      assert a == [a[0]] + a[1..] && b == [b[0]] + b[1..];
    }
  }

  lemma RecordsAreNotEmpty(entries: seq<Entry>)
    requires entries != [] && Stream(entries).Ok?
    ensures Stream(entries).value != []
  {
    assert |Record(entries[0]).value| > 0;
  }

  // ---------------------------------------------------------------- the tree

  /** What lies at a path. A symbolic link knows whether it leads to a directory, as os.walk does;
      sockets, devices and the like are special. */
  datatype Tree =
    | Regular(mode: Mode, content: Bytes)
    | Symlink(mode: Mode, target: Bytes, toDirectory: bool)
    | Directory(mode: Mode, children: seq<Child>)
    | Special

  datatype Child = Child(name: Bytes, tree: Tree)

  /** A path relative to the root, by its names. */
  type Path = seq<Bytes>

  datatype Item = Item(path: Path, tree: Tree)

  /** Names are unique in their directory and contain no slash. */
  ghost predicate WellFormed(children: seq<Child>) {
    && (forall i, j :: 0 <= i < j < |children| ==> children[i].name != children[j].name)
    && (forall child :: child in children ==>
         SLASH !in child.name && (child.tree.Directory? ==> WellFormed(child.tree.children)))
  }

  predicate EndsWith(name: Bytes, suffix: Bytes) {
    |suffix| <= |name| && name[|name| - |suffix|..] == suffix
  }

  const EXCLUDED_NAMES: seq<string> := [
    ".prereview-build-id", "secrets", ".eggs", "dist", "build", "sdist", ".ipynb_checkpoints",
    ".git", ".pytest_cache", "__pycache__", ".venv", "venv"]

  const EXCLUDED_SUFFIXES: seq<string> := [".pyc", ".pyo", ".pyd", ".pem", ".key", ".so", ".egg-info"]

  predicate IsAscii(s: string) {
    forall c :: c in s ==> c as int < 128
  }

  predicate IsEnvFile(name: Bytes) {
    name == Ascii(".env") || Ascii(".env.") <= name
  }

  /** _is_excluded: by the last name, except that "handover" counts only at the root. */
  predicate Excluded(path: Path)
    requires path != []
  {
    var name := path[|path| - 1];
    || (exists s :: s in EXCLUDED_NAMES && IsAscii(s) && name == Ascii(s))
    || (name == Ascii("handover") && |path| == 1)
    || (IsEnvFile(name) && name != Ascii(".env.example"))
    || (exists s :: s in EXCLUDED_SUFFIXES && IsAscii(s) && EndsWith(name, Ascii(s)))
  }

  // ---------------------------------------------------------------- the walk

  /** os.walk lists a link to a directory among the directories, though it does not enter it. */
  predicate ListedAsDirectory(tree: Tree) {
    tree.Directory? || (tree.Symlink? && tree.toDirectory)
  }

  /** The retained names of one directory: its directory names, or its file names. */
  function Level(prefix: Path, children: seq<Child>, directories: bool): (items: seq<Item>) {
    if children == [] then []
    else
      var (init, last) := (Level(prefix, children[..|children| - 1], directories), children[|children| - 1]);
      if ListedAsDirectory(last.tree) == directories && !Excluded(prefix + [last.name]) then
        init + [Item(prefix + [last.name], last.tree)]
      else init
  }

  /** Top-down: the names of a directory first, then what lies in the directories it retains. */
  function Walk(prefix: Path, children: seq<Child>): (items: seq<Item>)
    decreases children, 1
  {
    Level(prefix, children, true) + Level(prefix, children, false) + Descend(prefix, children)
  }

  function Descend(prefix: Path, children: seq<Child>): (items: seq<Item>)
    decreases children, 0
  {
    if children == [] then []
    else
      var (first, rest) := (children[0], Descend(prefix, children[1..]));
      if first.tree.Directory? && !Excluded(prefix + [first.name]) then
        Walk(prefix + [first.name], first.tree.children) + rest
      else rest
  }

  /** The tree has something at a path. */
  ghost predicate Reaches(children: seq<Child>, path: Path, tree: Tree) {
    && path != []
    && exists child :: child in children && child.name == path[0]
         && (if |path| == 1 then child.tree == tree
             else child.tree.Directory? && Reaches(child.tree.children, path[1..], tree))
  }

  /** Neither the entry nor any directory above it is excluded. */
  ghost predicate Retained(prefix: Path, path: Path) {
    forall k :: 0 < k <= |path| ==> !Excluded(prefix + path[..k])
  }

  lemma {:induction false} LevelExactly(prefix: Path, children: seq<Child>, directories: bool, item: Item)
    ensures item in Level(prefix, children, directories)
            <==> exists child :: child in children && ListedAsDirectory(child.tree) == directories
                   && item == Item(prefix + [child.name], child.tree) && !Excluded(prefix + [child.name])
  {
    hide Excluded;
    if children != [] {
      LevelExactly(prefix, children[..|children| - 1], directories, item);
      assert children == children[..|children| - 1] + [children[|children| - 1]];
    }
  }

  lemma {:induction false} DescendExactly(prefix: Path, children: seq<Child>, item: Item)
    ensures item in Descend(prefix, children)
            <==> exists child :: child in children && child.tree.Directory? && !Excluded(prefix + [child.name])
                   && item in Walk(prefix + [child.name], child.tree.children)
    decreases children, 0
  {
    hide Excluded, Walk;
    if children != [] {
      DescendExactly(prefix, children[1..], item);
      assert children == [children[0]] + children[1..];
    }
  }

  /** What the walk lists from a directory lies strictly below it. */
  lemma {:induction false} WalkGoesDown(prefix: Path, children: seq<Child>, item: Item)
    requires item in Walk(prefix, children)
    ensures prefix < item.path
    decreases children
  {
    hide Excluded;
    LevelExactly(prefix, children, true, item);
    LevelExactly(prefix, children, false, item);
    DescendExactly(prefix, children, item);
    if child :| child in children && child.tree.Directory? && !Excluded(prefix + [child.name])
                && item in Walk(prefix + [child.name], child.tree.children) {
      WalkGoesDown(prefix + [child.name], child.tree.children, item);
    }
  }

  lemma RetainedBelow(prefix: Path, path: Path)
    requires path != []
    ensures Retained(prefix, path) <==> !Excluded(prefix + [path[0]]) && Retained(prefix + [path[0]], path[1..])
  {
    hide Excluded;
    assert path[..1] == [path[0]];
    forall k | 1 < k <= |path| ensures prefix + path[..k] == prefix + [path[0]] + path[1..][..k - 1] {
    }
    if Retained(prefix, path) {
      forall k | 0 < k <= |path[1..]| ensures !Excluded(prefix + [path[0]] + path[1..][..k]) {
        assert prefix + path[..k + 1] == prefix + [path[0]] + path[1..][..k];
      }
    }
  }

  /** The walk lists an entry exactly when the tree has it and neither it nor any directory above it
      is excluded. */
  lemma {:induction false} WalkExactly(prefix: Path, children: seq<Child>, path: Path, tree: Tree)
    requires path != []
    ensures Item(prefix + path, tree) in Walk(prefix, children)
            <==> Reaches(children, path, tree) && Retained(prefix, path)
    decreases children
  {
    hide Excluded, Retained, Reaches;
    RetainedBelow(prefix, path);
    if |path| == 1 {
      NameExactly(prefix, children, path[0], tree);
      assert path == [path[0]];
    } else {
      var item := Item(prefix + path, tree);
      var below := prefix + [path[0]];
      assert below + path[1..] == prefix + path;
      forall child | child in children && child.tree.Directory?
        ensures item in Walk(below, child.tree.children)
                <==> Reaches(child.tree.children, path[1..], tree) && Retained(below, path[1..])
      {
        WalkExactly(below, child.tree.children, path[1..], tree);
      }
      DeeperExactly(prefix, children, path, tree);
      ReachesDeeper(children, path, tree);
    }
  }

  lemma NameExactly(prefix: Path, children: seq<Child>, name: Bytes, tree: Tree)
    ensures Item(prefix + [name], tree) in Walk(prefix, children)
            <==> Reaches(children, [name], tree) && Retained(prefix, [name])
  {
    hide Excluded;
    var item := Item(prefix + [name], tree);
    LevelExactly(prefix, children, true, item);
    LevelExactly(prefix, children, false, item);
    DescendExactly(prefix, children, item);
    if child :| child in children && child.tree.Directory? && !Excluded(prefix + [child.name])
                && item in Walk(prefix + [child.name], child.tree.children) {
      WalkGoesDown(prefix + [child.name], child.tree.children, item);
    }
    assert forall other :: prefix + [other] == prefix + [name] ==> other == name by {
      forall other | prefix + [other] == prefix + [name] ensures other == name {
        assert (prefix + [other])[|prefix|] == (prefix + [name])[|prefix|];
      }
    }
    RetainedBelow(prefix, [name]);
    assert Retained(prefix + [name], []);
    assert [name][1..] == [];
  }

  lemma DeeperExactly(prefix: Path, children: seq<Child>, path: Path, tree: Tree)
    requires |path| > 1
    ensures var (item, below) := (Item(prefix + path, tree), prefix + [path[0]]);
            item in Walk(prefix, children)
            <==> (!Excluded(below)
                  && exists child ::
                       child in children && child.name == path[0] && child.tree.Directory?
                         && item in Walk(below, child.tree.children))
  {
    hide Excluded;
    var item := Item(prefix + path, tree);
    LevelExactly(prefix, children, true, item);
    LevelExactly(prefix, children, false, item);
    DescendExactly(prefix, children, item);
    forall child | child in children && child.tree.Directory?
       && item in Walk(prefix + [child.name], child.tree.children)
      ensures child.name == path[0]
    {
      WalkGoesDown(prefix + [child.name], child.tree.children, item);
      assert (prefix + [child.name])[|prefix|] == item.path[|prefix|];
    }
  }

  lemma ReachesDeeper(children: seq<Child>, path: Path, tree: Tree)
    requires |path| > 1
    ensures Reaches(children, path, tree)
            <==> exists child :: child in children && child.name == path[0] && child.tree.Directory?
                   && Reaches(child.tree.children, path[1..], tree)
  {
  }

  // ---------------------------------------------------------------- no entry is listed twice

  ghost predicate DistinctPaths(items: seq<Item>) {
    forall i, j :: 0 <= i < j < |items| ==> items[i].path != items[j].path
  }

  lemma DistinctTogether(a: seq<Item>, b: seq<Item>)
    requires DistinctPaths(a) && DistinctPaths(b)
    requires forall x, y :: x in a && y in b ==> x.path != y.path
    ensures DistinctPaths(a + b)
  {
    forall i, j | 0 <= i < j < |a + b| ensures (a + b)[i].path != (a + b)[j].path {
      if i < |a| <= j {
        assert a[i] in a && b[j - |a|] in b;
      }
    }
  }

  lemma SameNameSameChild(children: seq<Child>, x: Child, y: Child, prefix: Path)
    requires WellFormed(children) && x in children && y in children && prefix + [x.name] == prefix + [y.name]
    ensures x == y
  {
    assert (prefix + [x.name])[|prefix|] == (prefix + [y.name])[|prefix|];
  }

  lemma StillWellFormed(children: seq<Child>, from: nat, to: nat)
    requires WellFormed(children) && from <= to <= |children|
    ensures WellFormed(children[from..to])
  {
  }

  lemma {:induction false} LevelIsDistinct(prefix: Path, children: seq<Child>, directories: bool)
    requires WellFormed(children)
    ensures DistinctPaths(Level(prefix, children, directories))
  {
    hide Excluded, WellFormed;
    if children != [] {
      var (init, last) := (children[..|children| - 1], children[|children| - 1]);
      StillWellFormed(children, 0, |children| - 1);
      LevelIsDistinct(prefix, init, directories);
      var items := Level(prefix, init, directories);
      forall x | x in items ensures x.path != prefix + [last.name] {
        LevelExactly(prefix, init, directories, x);
        var child :| child in init && x == Item(prefix + [child.name], child.tree);
        if x.path == prefix + [last.name] {
          LastIsNew(children);
          SameNameSameChild(children, child, last, prefix);
        }
      }
      DistinctTogether(items, [Item(prefix + [last.name], last.tree)]);
    }
  }

  lemma LastIsNew(children: seq<Child>)
    requires WellFormed(children) && children != []
    ensures children[|children| - 1] !in children[..|children| - 1]
  {
  }

  lemma {:induction false} LevelsAreApart(prefix: Path, children: seq<Child>, x: Item, y: Item)
    requires WellFormed(children) && x in Level(prefix, children, true) && y in Level(prefix, children, false)
    ensures x.path != y.path
  {
    hide Excluded, WellFormed;
    LevelExactly(prefix, children, true, x);
    LevelExactly(prefix, children, false, y);
    var c :| c in children && ListedAsDirectory(c.tree) && x == Item(prefix + [c.name], c.tree);
    var d :| d in children && !ListedAsDirectory(d.tree) && y == Item(prefix + [d.name], d.tree);
    if x.path == y.path {
      SameNameSameChild(children, c, d, prefix);
    }
  }

  lemma {:induction false} DescendIsDistinct(prefix: Path, children: seq<Child>)
    requires WellFormed(children)
    ensures DistinctPaths(Descend(prefix, children))
    decreases children, 0
  {
    hide Excluded, WellFormed, Walk;
    if children != [] {
      var (first, rest) := (children[0], children[1..]);
      StillWellFormed(children, 1, |children|);
      assert children[1..|children|] == rest;
      DescendIsDistinct(prefix, rest);
      if first.tree.Directory? && !Excluded(prefix + [first.name]) {
        ChildIsWellFormed(children, first);
        WalkIsDistinct(prefix + [first.name], first.tree.children);
        var (own, others) := (Walk(prefix + [first.name], first.tree.children), Descend(prefix, rest));
        forall x, y | x in own && y in others ensures x.path != y.path {
          BranchesAreApart(prefix, children, x, y);
        }
        DistinctTogether(own, others);
      }
    }
  }

  lemma ChildIsWellFormed(children: seq<Child>, child: Child)
    requires WellFormed(children) && child in children && child.tree.Directory?
    ensures WellFormed(child.tree.children)
  {
  }

  lemma BranchesAreApart(prefix: Path, children: seq<Child>, x: Item, y: Item)
    requires WellFormed(children) && children != [] && children[0].tree.Directory?
    requires x in Walk(prefix + [children[0].name], children[0].tree.children) && y in Descend(prefix, children[1..])
    ensures x.path != y.path
  {
    hide Excluded, Walk, Descend;
    var first := children[0];
    WalkGoesDown(prefix + [first.name], first.tree.children, x);
    DescendExactly(prefix, children[1..], y);
    var child :| child in children[1..] && child.tree.Directory?
         && y in Walk(prefix + [child.name], child.tree.children);
    WalkGoesDown(prefix + [child.name], child.tree.children, y);
    assert x.path[|prefix|] == (prefix + [first.name])[|prefix|]
           && y.path[|prefix|] == (prefix + [child.name])[|prefix|];
  }

  lemma {:induction false} WalkIsDistinct(prefix: Path, children: seq<Child>)
    requires WellFormed(children)
    ensures DistinctPaths(Walk(prefix, children))
    decreases children, 1
  {
    hide Excluded, WellFormed, Level, Descend, DistinctPaths;
    var (directories, files, below) := (Level(prefix, children, true), Level(prefix, children, false),
         Descend(prefix, children));
    LevelIsDistinct(prefix, children, true);
    LevelIsDistinct(prefix, children, false);
    DescendIsDistinct(prefix, children);
    forall x, y | x in directories && y in files ensures x.path != y.path {
      LevelsAreApart(prefix, children, x, y);
    }
    DistinctTogether(directories, files);
    forall x, y | x in directories + files && y in below ensures x.path != y.path {
      LevelIsAboveTheRest(prefix, children, x, y);
    }
    DistinctTogether(directories + files, below);
  }

  lemma {:induction false} LevelIsAboveTheRest(prefix: Path, children: seq<Child>, x: Item, y: Item)
    requires x in Level(prefix, children, true) + Level(prefix, children, false) && y in Descend(prefix, children)
    ensures |x.path| < |y.path|
  {
    hide Excluded, Walk, Descend, Level;
    LevelExactly(prefix, children, true, x);
    LevelExactly(prefix, children, false, x);
    DescendExactly(prefix, children, y);
    var child :| child in children && child.tree.Directory? && y in Walk(prefix + [child.name], child.tree.children);
    WalkGoesDown(prefix + [child.name], child.tree.children, y);
  }

  // ---------------------------------------------------------------- the digest

  /** relative.as_posix(), encoded */
  function PathBytes(path: Path): (bytes: Bytes) {
    if path == [] then [] else if |path| == 1 then path[0] else path[0] + [SLASH] + PathBytes(path[1..])
  }

  lemma {:induction false} PathBytesTellPathsApart(p: Path, q: Path)
    requires p != [] && q != [] && PathBytes(p) == PathBytes(q)
    requires (forall name :: name in p ==> SLASH !in name) && (forall name :: name in q ==> SLASH !in name)
    ensures p == q
  {
    SlashesJoinNames(p);
    SlashesJoinNames(q);
    if |p| > 1 {
      FirstSlash(p[0], PathBytes(p[1..]), q[0], PathBytes(q[1..]));
      PathBytesTellPathsApart(p[1..], q[1..]);
      assert p == [p[0]] + p[1..] && q == [q[0]] + q[1..];
    }
  }

  lemma SlashesJoinNames(p: Path)
    requires p != [] && SLASH !in p[0]
    ensures SLASH in PathBytes(p) <==> |p| > 1
  {
    if |p| > 1 {
      assert PathBytes(p)[|p[0]|] == SLASH;
    }
  }

  lemma FirstSlash(a: Bytes, x: Bytes, b: Bytes, y: Bytes)
    requires a + [SLASH] + x == b + [SLASH] + y && SLASH !in a && SLASH !in b
    ensures a == b && x == y
  {
    var s := a + [SLASH] + x;
    assert s[|a|] == SLASH && s[|b|] == SLASH;
    assert forall k :: 0 <= k < |a| ==> s[k] == a[k] && s[k] in a;
    assert forall k :: 0 <= k < |b| ==> s[k] == b[k] && s[k] in b;
    assert s[..|a|] == a && s[..|b|] == b && s[|a| + 1..] == x && s[|b| + 1..] == y;
  }

  predicate LexLeq(a: Bytes, b: Bytes) {
    if a == [] then true
    else if b == [] then false
    else a[0] < b[0] || (a[0] == b[0] && LexLeq(a[1..], b[1..]))
  }

  lemma {:induction false} LexIsTotal(a: Bytes, b: Bytes)
    ensures LexLeq(a, b) || LexLeq(b, a)
    ensures LexLeq(a, b) && LexLeq(b, a) ==> a == b
  {
    if a != [] && b != [] {
      LexIsTotal(a[1..], b[1..]);
      assert a == [a[0]] + a[1..] && b == [b[0]] + b[1..];
    }
  }

  lemma {:induction false} LexIsTransitive(a: Bytes, b: Bytes, c: Bytes)
    requires LexLeq(a, b) && LexLeq(b, c)
    ensures LexLeq(a, c)
  {
    if a != [] {
      if a[0] == b[0] && b[0] == c[0] {
        LexIsTransitive(a[1..], b[1..], c[1..]);
      }
    }
  }

  predicate ByPath(a: Item, b: Item) {
    LexLeq(PathBytes(a.path), PathBytes(b.path))
  }

  predicate ByEntryPath(e: Entry, f: Entry) {
    LexLeq(e.path, f.path)
  }

  lemma PathOrder()
    ensures TotalPreorder(ByPath)
  {
    hide LexLeq, PathBytes;
    forall a, b ensures ByPath(a, b) || ByPath(b, a) {
      LexIsTotal(PathBytes(a.path), PathBytes(b.path));
    }
    forall a, b, c | ByPath(a, b) && ByPath(b, c) ensures ByPath(a, c) {
      LexIsTransitive(PathBytes(a.path), PathBytes(b.path), PathBytes(c.path));
    }
  }

  /** What an item contributes; special files are refused. */
  function EntryOf(item: Item): (r: Result<Entry>) {
    match item.tree
    case Regular(mode, content) => Ok(Entry(PathBytes(item.path), RegularFile, mode, content))
    case Symlink(mode, target, _) => Ok(Entry(PathBytes(item.path), SymbolicLink, mode, target))
    case Directory(mode, _) => Ok(Entry(PathBytes(item.path), DirectoryEntry, mode, []))
    case Special => Err("unsupported Docker context entry")
  }

  /** The hashing loop from an item on. */
  function Contents(items: seq<Item>): (r: Result<Bytes>) {
    if items == [] then Ok([])
    else
      match EntryOf(items[0])
      case Err(message) => Err(message)
      case Ok(entry) =>
        match Record(entry)
        case Err(message) => Err(message)
        case Ok(record) =>
          match Contents(items[1..])
          case Err(message) => Err(message)
          case Ok(rest) => Ok(record + rest)
  }

  ghost function After(stream: Bytes, rest: Result<Bytes>): (r: Result<Bytes>) {
    match rest
    case Err(message) => Err(message)
    case Ok(more) => Ok(stream + more)
  }

  lemma NothingBefore(rest: Result<Bytes>)
    ensures After([], rest) == rest
  {
    if rest.Ok? {
      assert [] + rest.value == rest.value;
    }
  }

  lemma NextItem(items: seq<Item>, i: nat, stream: Bytes)
    requires i < |items|
    ensures After(stream, Contents(items[i..]))
            == match EntryOf(items[i])
               case Err(message) => Err(message)
               case Ok(entry) =>
                 match Record(entry)
                 case Err(message) => Err(message)
                 case Ok(record) => After(stream + record, Contents(items[i + 1..]))
  {
    hide EntryOf, Record;
    assert items[i..][0] == items[i] && items[i..][1..] == items[i + 1..];
    if EntryOf(items[i]).Ok? && Record(EntryOf(items[i]).value).Ok? && Contents(items[i + 1..]).Ok? {
      var (record, rest) := (Record(EntryOf(items[i]).value).value, Contents(items[i + 1..]).value);
      assert stream + record + rest == stream + (record + rest);
    }
  }

  const DOMAIN := Ascii("prereview-backend-docker-context-v1\0")

  function DigestOf(children: seq<Child>): (r: Result<Digest>) {
    match Contents(SortBy(Walk([], children), ByPath))
    case Err(message) => Err(message)
    case Ok(stream) => Ok(Sha256(DOMAIN + stream))
  }

  /** backend_build_context_digest */
  method BackendBuildContextDigest(children: seq<Child>) returns (r: Result<Digest>)
    ensures r == DigestOf(children)
  {
    hide Walk, EntryOf, Record;
    var entries := Walk([], children);
    var ordered := SortBy(entries, ByPath);
    var hashed := DOMAIN;
    ghost var stream: Bytes := [];
    NothingBefore(Contents(ordered));
    assert ordered[0..] == ordered;
    for i := 0 to |ordered|
      invariant hashed == DOMAIN + stream
      invariant Contents(ordered) == After(stream, Contents(ordered[i..]))
    {
      hide Contents;
      NextItem(ordered, i, stream);
      var entry := EntryOf(ordered[i]);
      if entry.Err? {
        return Err(entry.message);
      }
      var record := Record(entry.value);
      if record.Err? {
        return Err(record.message);
      }
      hashed := hashed + record.value;
      stream := stream + record.value;
    }
    assert ordered[|ordered|..] == [] && stream + [] == stream;
    assert Contents(ordered) == Ok(stream);
    r := Ok(Sha256(hashed));
  }

  // ---------------------------------------------------------------- what the digest says

  /** The entries of a list of items that all contribute one. */
  ghost function Entries(items: seq<Item>): (entries: seq<Entry>)
    requires forall item :: item in items ==> EntryOf(item).Ok?
    ensures |entries| == |items| && forall i :: 0 <= i < |items| ==> EntryOf(items[i]) == Ok(entries[i])
  {
    seq(|items|, i requires 0 <= i < |items| => assert items[i] in items; EntryOf(items[i]).value)
  }

  lemma {:induction false} ContentsAreTheStream(items: seq<Item>)
    requires Contents(items).Ok?
    ensures forall item :: item in items ==> EntryOf(item).Ok?
    ensures Contents(items) == Stream(Entries(items))
  {
    hide EntryOf, Record;
    if items != [] {
      ContentsAreTheStream(items[1..]);
      assert items == [items[0]] + items[1..];
      assert Entries(items)[1..] == Entries(items[1..]);
    }
  }

  /** The context has this entry: something in the tree, itself and all above it retained. */
  ghost predicate Contributes(children: seq<Child>, e: Entry) {
    exists item: Item :: Below(children, item) && EntryOf(item) == Ok(e)
  }

  ghost predicate Below(children: seq<Child>, item: Item) {
    item.path != [] && Reaches(children, item.path, item.tree) && Retained([], item.path)
  }

  lemma WalkedExactly(children: seq<Child>, item: Item)
    ensures item in Walk([], children) <==> Below(children, item)
  {
    hide Walk, Reaches, Retained;
    if item.path == [] {
      if item in Walk([], children) {
        WalkGoesDown([], children, item);
      }
    } else {
      WalkExactly([], children, item.path, item.tree);
      assert [] + item.path == item.path;
    }
  }

  lemma {:induction false} ReachedNamesHaveNoSlash(children: seq<Child>, path: Path, tree: Tree)
    requires WellFormed(children) && Reaches(children, path, tree)
    ensures forall name :: name in path ==> SLASH !in name
    decreases path
  {
    assert path == [path[0]] + path[1..];
    if |path| > 1 {
      ReachesDeeper(children, path, tree);
      var child :| child in children && child.name == path[0] && child.tree.Directory?
           && Reaches(child.tree.children, path[1..], tree);
      ReachedNamesHaveNoSlash(child.tree.children, path[1..], tree);
    }
  }

  function PathOf(item: Item): (path: Path) {
    item.path
  }

  /** The items that are hashed: in ascending order of their paths, no path twice, and exactly those
      that are below the root and retained. */
  lemma HashedItems(children: seq<Child>)
    requires WellFormed(children)
    ensures var items := SortBy(Walk([], children), ByPath);
            && Ascending(items, ByPath) && DistinctKeys(items, PathOf)
            && forall item :: item in items <==> Below(children, item)
  {
    var walked := Walk([], children);
    PathOrder();
    SortingSorts(walked, ByPath);
    WalkIsDistinct([], children);
    RearrangedKeysStayDistinct(walked, SortBy(walked, ByPath), PathOf);
    hide Walk, SortBy, WellFormed, Below, ByPath;
    forall item ensures item in SortBy(walked, ByPath) <==> Below(children, item) {
      WalkedExactly(children, item);
    }
  }

  /** The entries that are hashed: those that the context contributes, sorted, no path twice. */
  lemma HashedEntries(children: seq<Child>) returns (entries: seq<Entry>)
    requires WellFormed(children) && DigestOf(children).Ok?
    ensures Stream(entries).Ok? && DigestOf(children) == Ok(Sha256(DOMAIN + Stream(entries).value))
    ensures forall e :: e in entries <==> Contributes(children, e)
    ensures Ascending(entries, ByEntryPath) && DistinctKeys(entries, PathBytesOf)
  {
    var items := SortBy(Walk([], children), ByPath);
    ContentsAreTheStream(items);
    HashedItems(children);
    entries := Entries(items);
    hide Walk, SortBy, Contents, Stream, WellFormed, Below, LexLeq, EntryOf;
    EntriesAreSorted(children, items);
    EntriesAreContributed(children, items);
  }

  lemma {:induction false} EntriesAreSorted(children: seq<Child>, items: seq<Item>)
    requires WellFormed(children) && (forall item :: item in items ==> EntryOf(item).Ok? && Below(children, item))
    requires Ascending(items, ByPath) && DistinctKeys(items, PathOf)
    ensures Ascending(Entries(items), ByEntryPath) && DistinctKeys(Entries(items), PathBytesOf)
  {
    var entries := Entries(items);
    assert forall i :: 0 <= i < |items| ==> items[i] in items && EntryOf(items[i]) == Ok(entries[i]);
    assert forall i :: 0 <= i < |items| ==> entries[i].path == PathBytes(items[i].path);
    hide EntryOf, WellFormed, Below, LexLeq, PathBytes;
    forall i, j | 0 <= i < j < |items|
      ensures ByEntryPath(entries[i], entries[j]) && PathBytesOf(entries[i]) != PathBytesOf(entries[j])
    {
      assert ByPath(items[i], items[j]) && PathOf(items[i]) != PathOf(items[j]);
      BelowHasNoSlashes(children, items[i]);
      BelowHasNoSlashes(children, items[j]);
      if entries[i].path == entries[j].path {
        PathBytesTellPathsApart(items[i].path, items[j].path);
      }
    }
  }

  lemma EntriesAreContributed(children: seq<Child>, items: seq<Item>)
    requires forall item :: item in items <==> Below(children, item)
    requires forall item :: item in items ==> EntryOf(item).Ok?
    ensures forall e :: e in Entries(items) <==> Contributes(children, e)
  {
    hide EntryOf, Below;
    var entries := Entries(items);
    forall e ensures e in entries <==> Contributes(children, e) {
      if e in entries {
        var i :| 0 <= i < |entries| && entries[i] == e;
        assert items[i] in items && EntryOf(items[i]) == Ok(e);
      }
      if item :| Below(children, item) && EntryOf(item) == Ok(e) {
        var i :| 0 <= i < |items| && items[i] == item;
        assert entries[i] == e;
      }
    }
  }

  function PathBytesOf(e: Entry): (bytes: Bytes) {
    e.path
  }

  lemma BelowHasNoSlashes(children: seq<Child>, item: Item)
    requires WellFormed(children) && Below(children, item)
    ensures item.path != [] && forall name :: name in item.path ==> SLASH !in name
  {
    ReachedNamesHaveNoSlash(children, item.path, item.tree);
  }

  /** Two contexts have the same digest exactly when they contribute the same entries: path, kind,
      mode and content. The order in which the directories were read does not show, nor does
      anything excluded, nor anything below an excluded directory. */
  lemma {:induction false} DigestIdentifiesTheContext(one: seq<Child>, other: seq<Child>)
    requires WellFormed(one) && WellFormed(other) && DigestOf(one).Ok? && DigestOf(other).Ok?
    ensures DigestOf(one) == DigestOf(other) <==> forall e :: Contributes(one, e) <==> Contributes(other, e)
  {
    var a := HashedEntries(one);
    var b := HashedEntries(other);
    hide DigestOf, Contributes, WellFormed, Stream;
    if DigestOf(one) == DigestOf(other) {
      assert (DOMAIN + Stream(a).value)[|DOMAIN|..] == Stream(a).value;
      assert (DOMAIN + Stream(b).value)[|DOMAIN|..] == Stream(b).value;
      StreamIsInjective(a, b);
    } else if forall e :: Contributes(one, e) <==> Contributes(other, e) {
      forall s, t | s in a && t in a && ByEntryPath(s, t) && ByEntryPath(t, s) ensures s == t {
        LexIsTotal(s.path, t.path);
        assert PathBytesOf(s) == PathBytesOf(t);
      }
      SortedIsUnique(a, b, ByEntryPath);
    }
  }
}
