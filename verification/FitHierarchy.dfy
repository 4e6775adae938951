/** The two sides of FIT-4: one adjacent level of the explicit programme hierarchy
    (backend/worker/fit.py). */
module FitHierarchy {
  import opened Wrappers
  import opened FitFacts
  import J = FitJudging
  import PyText

  datatype Edge = Edge(parent: Fact, child: Fact)

  predicate Allowed(path: Path) {
    path in {PurposeGoal, SupportTarget, Beneficiary, SupportActivities, SupportMethods, SupportItems, SupportContent}
  }

  // ---------------------------------------------------------------- nodes and edges

  predicate HasNode(nodes: seq<Fact>, id: string) {
    exists n :: n in nodes && n.node == id
  }

  /** node_by_id: of the readable nodes that share an id, the first. */
  function NodesById(facts: seq<Fact>): (nodes: seq<Fact>)
    ensures forall n :: n in nodes ==> n in facts && n.path == HierarchyNodes && n.node != "" && n.readable
    ensures forall i, j :: 0 <= i < j < |nodes| ==> nodes[i].node != nodes[j].node
  {
    if facts == [] then []
    else
      var (init, last) := (NodesById(facts[..|facts| - 1]), facts[|facts| - 1]);
      if last.path == HierarchyNodes && last.node != "" && last.readable && !HasNode(init, last.node) then
        init + [last]
      else init
  }

  function NodeOf(nodes: seq<Fact>, id: string): (node: Option<Fact>)
    ensures node.Some? <==> HasNode(nodes, id)
    ensures node.Some? ==> node.value in nodes && node.value.node == id
  {
    if nodes == [] then None
    else
      assert nodes == nodes[..|nodes| - 1] + [nodes[|nodes| - 1]];
      if nodes[|nodes| - 1].node == id then Some(nodes[|nodes| - 1]) else NodeOf(nodes[..|nodes| - 1], id)
  }

  /** The explicit edges, in the order of the children. */
  function Edges(nodes: seq<Fact>, children: seq<Fact>): (edges: seq<Edge>)
    ensures forall e :: e in edges ==> e.parent in nodes && e.child in children && e.child.parent == e.parent.node
    ensures forall c :: c in children && HasNode(nodes, c.parent) ==> exists e :: e in edges && e.child == c
  {
    if children == [] then []
    else
      var (init, last) := (Edges(nodes, children[..|children| - 1]), children[|children| - 1]);
      assert children == children[..|children| - 1] + [last];
      match NodeOf(nodes, last.parent)
      case None => init
      case Some(parent) =>
        var more := init + [Edge(parent, last)];
        assert more[|init|] in more;
        more
  }

  /** The highest known level of a parent. */
  function TopLevel(edges: seq<Edge>): (level: Option<nat>)
    ensures level.None? <==> forall e :: e in edges ==> e.parent.level.None?
    ensures level.Some? ==> (exists e :: e in edges && e.parent.level == level)
                            && forall e :: e in edges && e.parent.level.Some? ==> level.value <= e.parent.level.value
  {
    if edges == [] then None
    else
      var (init, last) := (TopLevel(edges[..|edges| - 1]), edges[|edges| - 1].parent.level);
      assert edges == edges[..|edges| - 1] + [edges[|edges| - 1]];
      if init.None? || (last.Some? && last.value < init.value) then last else init
  }

  function AtLevel(edges: seq<Edge>, level: nat): (chosen: seq<Edge>)
    ensures forall e :: e in chosen <==> e in edges && e.parent.level == Some(level)
  {
    if edges == [] then []
    else
      var (init, last) := (AtLevel(edges[..|edges| - 1], level), edges[|edges| - 1]);
      assert edges == edges[..|edges| - 1] + [last];
      if last.parent.level == Some(level) then init + [last] else init
  }

  /** One adjacent level where levels are known; all edges where no parent's level is. */
  function Selected(edges: seq<Edge>): (chosen: seq<Edge>)
    ensures forall e :: e in chosen ==> e in edges
    ensures edges != [] ==> chosen != []
  {
    match TopLevel(edges)
    case None => edges
    case Some(level) =>
      var e :| e in edges && e.parent.level == Some(level);
      assert e in AtLevel(edges, level);
      AtLevel(edges, level)
  }

  // ---------------------------------------------------------------- the sides

  /** The parents, or the children, of the edges, each node once. */
  function Ends(edges: seq<Edge>, parents: bool): (nodes: seq<Fact>)
    ensures forall n :: n in nodes ==> exists e :: e in edges && n == (if parents then e.parent else e.child)
    ensures forall e :: e in edges ==> HasNode(nodes, (if parents then e.parent else e.child).node)
  {
    if edges == [] then []
    else
      var (init, last) := (Ends(edges[..|edges| - 1], parents), edges[|edges| - 1]);
      assert edges == edges[..|edges| - 1] + [last];
      var node := if parents then last.parent else last.child;
      if HasNode(init, node.node) then init
      else
        var more := init + [node];
        assert more[|init|] in more && forall n :: n in init ==> n in more;
        more
  }

  function AttachedIds(facts: seq<Fact>, node: string): (ids: seq<string>)
    ensures "" !in ids
  {
    if facts == [] then []
    else
      var (init, last) := (AttachedIds(facts[..|facts| - 1], node), facts[|facts| - 1]);
      if last.node == node && Allowed(last.path) && FitFactId(last) != "" && last.readable then
        init + [FitFactId(last)]
      else init
  }

  /** For each node its own id and those of the facts attached to it. */
  function IdsOf(nodes: seq<Fact>, facts: seq<Fact>): (ids: seq<string>)
    ensures "" !in ids
    ensures forall n :: n in nodes && FitFactId(n) != "" ==> FitFactId(n) in ids
  {
    if nodes == [] then []
    else
      var last := nodes[|nodes| - 1];
      assert nodes == nodes[..|nodes| - 1] + [last];
      IdsOf(nodes[..|nodes| - 1], facts) + (if FitFactId(last) != "" then [FitFactId(last)] else [])
        + AttachedIds(facts, last.node)
  }

  function InputEdges(facts: seq<Fact>): (edges: seq<Edge>) {
    Edges(NodesById(facts), NodesById(facts))
  }

  function SelectedEdges(facts: seq<Fact>): (edges: seq<Edge>) {
    Selected(InputEdges(facts))
  }

  /** _hierarchy_sides */
  function HierarchySides(facts: seq<Fact>): (sides: Option<J.Sides>) {
    var edges := SelectedEdges(facts);
    if edges == [] then None
    else Some(J.Sides(PyText.FirstOnly(IdsOf(Ends(edges, true), facts)),
         PyText.FirstOnly(IdsOf(Ends(edges, false), facts))))
  }

  method CollectNodes(facts: seq<Fact>) returns (nodes: seq<Fact>)
    ensures nodes == NodesById(facts)
  {
    nodes := [];
    for i := 0 to |facts|
      invariant nodes == NodesById(facts[..i])
    {
      assert facts[..i + 1][..i] == facts[..i];
      var f := facts[i];
      if f.path == HierarchyNodes && f.node != "" && f.readable && !HasNode(nodes, f.node) {
        nodes := nodes + [f];
      }
    }
    assert facts[..|facts|] == facts;
  }

  method CollectEnds(edges: seq<Edge>) returns (parents: seq<Fact>, children: seq<Fact>)
    ensures parents == Ends(edges, true) && children == Ends(edges, false)
  {
    hide HasNode;
    parents, children := [], [];
    for i := 0 to |edges|
      invariant parents == Ends(edges[..i], true) && children == Ends(edges[..i], false)
    {
      assert edges[..i + 1][..i] == edges[..i];
      if !HasNode(parents, edges[i].parent.node) {
        parents := parents + [edges[i].parent];
      }
      if !HasNode(children, edges[i].child.node) {
        children := children + [edges[i].child];
      }
    }
    assert edges[..|edges|] == edges;
  }

  method FindHierarchySides(facts: seq<Fact>) returns (sides: Option<J.Sides>)
    ensures sides == HierarchySides(facts)
  {
    hide HasNode, Selected, IdsOf, FitFactId, PyText.FirstOnly, NodesById, Ends;
    var nodes := CollectNodes(facts);
    var edges: seq<Edge> := [];
    for i := 0 to |nodes|
      invariant edges == Edges(nodes, nodes[..i])
    {
      assert nodes[..i + 1][..i] == nodes[..i];
      var parent := NodeOf(nodes, nodes[i].parent);
      if parent.Some? {
        edges := edges + [Edge(parent.value, nodes[i])];
      }
    }
    assert nodes[..|nodes|] == nodes;
    edges := Selected(edges);
    if edges == [] { return None; }
    var parents, children := CollectEnds(edges);
    sides := Some(J.Sides(PyText.FirstOnly(IdsOf(parents, facts)), PyText.FirstOnly(IdsOf(children, facts))));
  }

  // ---------------------------------------------------------------- when the sides are apart

  ghost predicate Readable(facts: seq<Fact>, f: Fact) {
    f in facts && f.path == HierarchyNodes && f.node != "" && f.readable
  }

  lemma {:induction false} EveryReadableNodeIsThere(facts: seq<Fact>, f: Fact)
    requires Readable(facts, f)
    ensures HasNode(NodesById(facts), f.node)
  {
    var init := facts[..|facts| - 1];
    assert facts == init + [facts[|facts| - 1]];
    var nodes := NodesById(facts);
    if f in init {
      EveryReadableNodeIsThere(init, f);
      var n :| n in NodesById(init) && n.node == f.node;
      assert n in nodes;
    } else if !HasNode(NodesById(init), f.node) {
      assert nodes[|nodes| - 1] in nodes;
    }
  }

  /** There are sides exactly when a node that counts names one that counts as its parent. */
  lemma SidesNeedAnEdge(facts: seq<Fact>)
    ensures var nodes := NodesById(facts);
            HierarchySides(facts).Some? <==> exists c :: c in nodes && HasNode(nodes, c.parent)
  {
    var nodes := NodesById(facts);
    var edges := Edges(nodes, nodes);
    if e :| e in edges {
      assert e.child in nodes && HasNode(nodes, e.child.parent);
    }
    if edges != [] {
      assert edges[0] in edges;
    }
  }

  /** A node stands on both sides. */
  ghost predicate OnBothSides(facts: seq<Fact>, id: string) {
    var edges := SelectedEdges(facts);
    HasNode(Ends(edges, true), id) && HasNode(Ends(edges, false), id)
  }

  lemma EndsExactly(edges: seq<Edge>, parents: bool, id: string)
    ensures HasNode(Ends(edges, parents), id)
            <==> exists e :: e in edges && (if parents then e.parent else e.child).node == id
  {
    var nodes := Ends(edges, parents);
    hide Ends;
    if n :| n in nodes && n.node == id {
      var e :| e in edges && n == (if parents then e.parent else e.child);
    }
    if e :| e in edges && (if parents then e.parent else e.child).node == id {
      assert HasNode(nodes, (if parents then e.parent else e.child).node);
    }
  }

  lemma {:induction false} SelectedExactly(edges: seq<Edge>, e: Edge)
    ensures e in Selected(edges) <==> e in edges && (TopLevel(edges).None? || e.parent.level == TopLevel(edges))
  {
  }

  /** An edge above a node and one below it, both of the level that is compared. */
  ghost predicate AboveAndBelow(facts: seq<Fact>, id: string, above: Edge, below: Edge) {
    var top := TopLevel(InputEdges(facts));
    && above in InputEdges(facts) && below in InputEdges(facts)
    && above.child.node == id && below.parent.node == id
    && (top.None? || above.parent.level == below.parent.level == top)
  }

  /** A node stands on both sides exactly when it is a child and a parent, each under a parent of
      the highest known level, or with no level known. */
  lemma OnBothSidesExactly(facts: seq<Fact>, id: string)
    ensures OnBothSides(facts, id) <==> exists above, below :: AboveAndBelow(facts, id, above, below)
  {
    var (edges, top) := (InputEdges(facts), TopLevel(InputEdges(facts)));
    EndsExactly(SelectedEdges(facts), true, id);
    EndsExactly(SelectedEdges(facts), false, id);
    hide NodesById, Edges, Ends, HasNode;
    forall e ensures e in SelectedEdges(facts) <==> e in edges && (top.None? || e.parent.level == top) {
      SelectedExactly(edges, e);
    }
    hide SelectedEdges;
    if OnBothSides(facts, id) {
      var below :| below in SelectedEdges(facts) && below.parent.node == id;
      var above :| above in SelectedEdges(facts) && above.child.node == id;
      assert AboveAndBelow(facts, id, above, below);
    }
  }

  lemma {:induction false} SameIdSameNode(facts: seq<Fact>, a: Fact, b: Fact)
    requires a in NodesById(facts) && b in NodesById(facts) && a.node == b.node
    ensures a == b
  {
  }

  /** An edge of the compared level into a node of that level which has children of its own. */
  ghost predicate LevelRepeats(facts: seq<Fact>, e: Edge) {
    var top := TopLevel(InputEdges(facts));
    && e in InputEdges(facts) && (top.None? || e.parent.level == e.child.level == top)
    && exists c :: c in NodesById(facts) && c.parent == e.child.node
  }

  /** Choosing one level keeps the sides apart exactly where no edge of that level leads to a node of
      the same level with children; where no level is known, exactly where no child has children. */
  lemma SidesAreApartExactly(facts: seq<Fact>)
    ensures (forall id :: !OnBothSides(facts, id)) <==> (forall e :: !LevelRepeats(facts, e))
  {
    hide OnBothSides, TopLevel, NodesById, Edges;
    if id :| OnBothSides(facts, id) {
      OnBothSidesExactly(facts, id);
      var above, below :| AboveAndBelow(facts, id, above, below);
      assert above.child in NodesById(facts) && below.parent in NodesById(facts) && below.child in NodesById(facts);
      SameIdSameNode(facts, above.child, below.parent);
      assert LevelRepeats(facts, above);
    }
    if e :| LevelRepeats(facts, e) {
      var c :| c in NodesById(facts) && c.parent == e.child.node;
      assert e.child in NodesById(facts) && HasNode(NodesById(facts), c.parent);
      var below := EdgeTo(NodesById(facts), c);
      SameIdSameNode(facts, below.parent, e.child);
      assert AboveAndBelow(facts, e.child.node, e, below);
      OnBothSidesExactly(facts, e.child.node);
    }
  }

  /** A node on both sides puts its id on both. */
  lemma SharedNodeHasItsIdOnBoth(facts: seq<Fact>, id: string, n: Fact)
    requires n.node == id && FitFactId(n) != ""
    ensures OnBothSides(facts, id) && n in NodesById(facts) ==>
              && HierarchySides(facts).Some?
              && FitFactId(n) in HierarchySides(facts).value.left && FitFactId(n) in HierarchySides(facts).value.right
  {
    hide *;
    BothSidesHaveIt(facts, id);
    SharedNodeIsAnEnd(facts, n, true);
    SharedNodeIsAnEnd(facts, n, false);
    var edges := SelectedEdges(facts);
    assert n in Ends(edges, true) ==> FitFactId(n) in IdsOf(Ends(edges, true), facts);
    assert n in Ends(edges, false) ==> FitFactId(n) in IdsOf(Ends(edges, false), facts);
  }

  lemma {:induction false} BothSidesHaveIt(facts: seq<Fact>, id: string)
    ensures var edges := SelectedEdges(facts);
            OnBothSides(facts, id) ==>
            && HasNode(Ends(edges, true), id) && HasNode(Ends(edges, false), id)
            && HierarchySides(facts)
               == Some(J.Sides(PyText.FirstOnly(IdsOf(Ends(edges, true), facts)),
                 PyText.FirstOnly(IdsOf(Ends(edges, false), facts))))
  {
    hide SelectedEdges, IdsOf, PyText.FirstOnly;
  }

  lemma {:induction false} SharedNodeIsAnEnd(facts: seq<Fact>, n: Fact, parents: bool)
    ensures n in NodesById(facts) && HasNode(Ends(SelectedEdges(facts), parents), n.node) ==>
              n in Ends(SelectedEdges(facts), parents)
  {
    var edges := SelectedEdges(facts);
    var nodes := NodesById(facts);
    if n in nodes && HasNode(Ends(edges, parents), n.node) {
      var m :| m in Ends(edges, parents) && m.node == n.node;
      var e :| e in edges && m == (if parents then e.parent else e.child);
      assert e in Edges(nodes, nodes);
      SameIdSameNode(facts, m, n);
    }
  }

  function Unlevelled(id: string, parent: string): (f: Fact) {
    Fact(HierarchyNodes, id, "", NoMember, "", None, None, None, [], id, parent, None, true)
  }

  /** Without levels a chain of three nodes puts the middle one on both sides. */
  lemma UnlevelledChainSharesItsMiddle()
    ensures OnBothSides([Unlevelled("a", ""), Unlevelled("b", "a"), Unlevelled("c", "b")], "b")
  {
    assert "a" != "b" && "b" != "c" && "a" != "c";
    ChainIsOnBothSides(Unlevelled("a", ""), Unlevelled("b", "a"), Unlevelled("c", "b"));
  }

  ghost predicate Chain(a: Fact, b: Fact, c: Fact) {
    && a.path == b.path == c.path == HierarchyNodes && a.readable && b.readable && c.readable
    && a.level.None? && b.level.None? && c.level.None?
    && a.node != "" && b.node != "" && c.node != "" && a.node != b.node && b.node != c.node && a.node != c.node
    && b.parent == a.node && c.parent == b.node
  }

  lemma ChainIsOnBothSides(a: Fact, b: Fact, c: Fact)
    requires Chain(a, b, c)
    ensures OnBothSides([a, b, c], b.node)
  {
    ChainNodes(a, b, c);
    var facts := [a, b, c];
    assert a in facts && b in facts && c in facts;
    assert HasNode(facts, b.parent) && HasNode(facts, c.parent) && c.parent == b.node;
    AllEdgesWithoutLevels(facts);
    hide *;
    var one := EdgeTo(facts, b);
    var two := EdgeTo(facts, c);
    OnBothSidesExactly(facts, b.node);
  }

  lemma EdgeTo(nodes: seq<Fact>, child: Fact) returns (e: Edge)
    requires child in nodes && HasNode(nodes, child.parent)
    ensures e in Edges(nodes, nodes) && e.child == child && e.parent.node == child.parent
  {
    var edges := Edges(nodes, nodes);
    assert exists e :: e in edges && e.child == child;
    e :| e in edges && e.child == child;
  }

  lemma NodesStep(facts: seq<Fact>, f: Fact)
    requires f.path == HierarchyNodes && f.node != "" && f.readable && !HasNode(NodesById(facts), f.node)
    ensures NodesById(facts + [f]) == NodesById(facts) + [f]
  {
    assert (facts + [f])[..|facts|] == facts;
  }

  lemma ChainNodes(a: Fact, b: Fact, c: Fact)
    requires Chain(a, b, c)
    ensures NodesById([a, b, c]) == [a, b, c]
  {
    assert NodesById([]) == [];
    hide NodesById;
    NodesStep([], a);
    assert [] + [a] == [a];
    OtherNode([a], b);
    OtherNode([a, b], c);
    hide *;
    NodesStep([a], b);
    assert [a] + [b] == [a, b];
    NodesStep([a, b], c);
    assert [a, b] + [c] == [a, b, c];
  }

  lemma OtherNode(facts: seq<Fact>, f: Fact)
    requires forall i :: 0 <= i < |facts| ==> facts[i].node != f.node
    ensures !HasNode(facts, f.node)
  {
  }

  lemma AllEdgesWithoutLevels(facts: seq<Fact>)
    requires forall n :: n in NodesById(facts) ==> n.level.None?
    ensures SelectedEdges(facts) == Edges(NodesById(facts), NodesById(facts))
  {
  }
}
