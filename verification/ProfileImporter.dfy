/** The importer at work: insert_profile_children and upsert_delivery_roles on the row tables
    (backend/scripts/ingest_existing_profile.py). */
module ProfileImporter {
  import opened Wrappers
  import opened ProfilePack
  import opened ProfileImport
  import opened DeliveryRoles
  import Slices

  // ---------------------------------------------------------------- what is imported

  /** The keys that an import into these rows hands out. */
  function KeysFor(rows: seq<Row>, profile: nat, p: Profile): (keys: Keys) {
    Keys(profile, ComponentIds(p.components), Count(rows, SupportComponent), FactIds(AllFacts(p)),
      Count(rows, FactOccurrence))
  }

  /** Every fact and component id that the importer looks up has a row. */
  ghost predicate Resolves(keys: Keys, p: Profile) {
    && AllLinked(keys, AllFacts(p))
    && (forall q :: q in p.projections ==> ProjectionResolves(keys, q))
  }

  /** Which ids resolve does not depend on the rows that are there already. */
  ghost predicate References(p: Profile) {
    Resolves(KeysFor([], 0, p), p)
  }

  lemma ReferencesResolve(rows: seq<Row>, profile: nat, p: Profile)
    ensures References(p) <==> Resolves(KeysFor(rows, profile, p), p)
  {
    var (a, b) := (KeysFor([], 0, p), KeysFor(rows, profile, p));
    assert forall f :: LinksResolve(a, f) <==> LinksResolve(b, f);
    assert forall q :: ProjectionResolves(a, q) <==> ProjectionResolves(b, q);
  }

  /** Components, facts and links, before the projections. */
  ghost function WithFacts(rows: seq<Row>, profile: nat, p: Profile): (more: seq<Row>)
    requires Resolves(KeysFor(rows, profile, p), p)
  {
    var keys := KeysFor(rows, profile, p);
    rows + ComponentRows(profile, p.components) + FactRows(keys, AllFacts(p)) + LinkRows(keys, AllFacts(p))
  }

  ghost function WithProjections(rows: seq<Row>, profile: nat, p: Profile): (more: seq<Row>)
    requires Resolves(KeysFor(rows, profile, p), p)
  {
    var before := WithFacts(rows, profile, p);
    before + ProjectionRows(KeysFor(rows, profile, p), p.projections, before)
  }

  ghost function Imported(rows: seq<Row>, profile: nat, p: Profile): (all: seq<Row>)
    requires Resolves(KeysFor(rows, profile, p), p)
  {
    UpsertAll(WithProjections(rows, profile, p), DeliveryRows(KeysFor(rows, profile, p), AllFacts(p)))
  }

  // ---------------------------------------------------------------- looking facts up

  /** database.one("fact_occurrence", profile_version_pk, fact_id) */
  function FactLookup(rows: seq<Row>, profile: nat, id: string): (pk: Option<nat>) {
    if rows == [] then None
    else
      var (init, last) := (rows[..|rows| - 1], rows[|rows| - 1]);
      var earlier := FactLookup(init, profile, id);
      if earlier.Some? then earlier
      else if last.FactRow? && last.profile == profile && last.id == id then Some(Count(init, FactOccurrence))
      else None
  }

  lemma {:induction false} LookupAppend(a: seq<Row>, b: seq<Row>, profile: nat, id: string)
    ensures FactLookup(a + b, profile, id)
            == if FactLookup(a, profile, id).Some? then FactLookup(a, profile, id)
               else if FactLookup(b, profile, id).Some? then
                 Some(Count(a, FactOccurrence) + FactLookup(b, profile, id).value)
               else None
  {
    if b == [] {
      assert a + b == a;
    } else {
      var init := b[..|b| - 1];
      LookupAppend(a, init, profile, id);
      CountAppend(a, init, FactOccurrence);
      assert (a + b)[..|a + b| - 1] == a + init;
    }
  }

  ghost predicate NoFacts(rows: seq<Row>, profile: nat) {
    forall r :: r in rows && r.FactRow? ==> r.profile != profile
  }

  lemma {:induction false} NothingToFind(rows: seq<Row>, profile: nat, id: string)
    requires NoFacts(rows, profile)
    ensures FactLookup(rows, profile, id).None?
  {
    if rows != [] {
      NothingToFind(rows[..|rows| - 1], profile, id);
      assert rows[|rows| - 1] in rows;
    }
  }

  lemma OwnRowsLookup(keys: Keys, f: Fact, i: nat, id: string)
    ensures FactLookup(OwnRows(keys, f, i), keys.profile, id) == if f.id == id then Some(0) else None
  {
    var component := if f.component.Some? then ComponentPk(keys, f.component.value) else None;
    var head := [FactRow(keys.profile, f.id, f.field, component, i)];
    var rest := EvidenceRows(keys.factBase + i, f.evidence) + ContextRows(keys.factBase + i, f.context);
    assert OwnRows(keys, f, i) == head + rest;
    assert head[..0] == [];
    assert NoFacts(rest, keys.profile) by {
      forall r | r in rest ensures !r.FactRow? {
        assert TableOf(r) == FactEvidence || TableOf(r) == FactContext;
      }
    }
    hide OwnRows, EvidenceRows, ContextRows;
    NothingToFind(rest, keys.profile, id);
    LookupAppend(head, rest, keys.profile, id);
  }

  /** A fact that was just inserted is found under the key it got. */
  lemma {:induction false} InsertedFactIsFound(keys: Keys, facts: seq<Fact>, id: string)
    requires Distinct(FactIds(facts))
    ensures FactLookup(FactRows(keys, facts), keys.profile, id) == LastIndex(FactIds(facts), id)
  {
    if facts != [] {
      var (n, init, last) := (|facts| - 1, facts[..|facts| - 1], facts[|facts| - 1]);
      assert FactIds(init) == FactIds(facts)[..n] && FactIds(facts)[n] == last.id;
      InsertedFactIsFound(keys, init, id);
      CountFactOccurrences(keys, init);
      OwnRowsLookup(keys, last, n, id);
      LookupAppend(FactRows(keys, init), OwnRows(keys, last, n), keys.profile, id);
      assert id == last.id ==> id !in FactIds(init);
    }
  }

  /** Upserts of delivery rows move no fact. */
  lemma {:induction false} UpsertKeepsFacts(rows: seq<Row>, row: Row, profile: nat, id: string)
    requires row.RoleRow? || row.OrganizationRow?
    ensures FactLookup(Upsert(rows, row), profile, id) == FactLookup(rows, profile, id)
  {
    if Holds(rows, row) {
      PatchKeepsFacts(rows, row, profile, id);
    } else {
      assert (rows + [row])[..|rows|] == rows;
    }
  }

  lemma {:induction false} PatchKeepsFacts(rows: seq<Row>, row: Row, profile: nat, id: string)
    requires row.RoleRow? || row.OrganizationRow?
    ensures FactLookup(Patch(rows, row), profile, id) == FactLookup(rows, profile, id)
  {
    if rows != [] {
      var n := |rows| - 1;
      PatchKeepsFacts(rows[..n], row, profile, id);
      assert Patch(rows, row)[..n] == Patch(rows[..n], row);
      CountPatched(rows[..n], row, FactOccurrence);
    }
  }

  lemma {:induction false} UpsertsKeepFacts(rows: seq<Row>, more: seq<Row>, profile: nat, id: string)
    requires Keyed(more)
    ensures FactLookup(UpsertAll(rows, more), profile, id) == FactLookup(rows, profile, id)
  {
    if more != [] {
      var init := more[..|more| - 1];
      assert more == init + [more[|more| - 1]];
      UpsertsKeepFacts(rows, init, profile, id);
      UpsertKeepsFacts(UpsertAll(rows, init), more[|more| - 1], profile, id);
    }
  }

  // ---------------------------------------------------------------- the delivery rows found

  /** upsert_delivery_roles looks every delivery fact up and stops at one that has no row. */
  function FoundRows(rows: seq<Row>, profile: nat, facts: seq<Fact>): (found: Option<seq<Row>>)
    ensures found.Some? ==> Keyed(found.value)
  {
    if facts == [] then Some([])
    else
      var (init, last) := (FoundRows(rows, profile, facts[..|facts| - 1]), facts[|facts| - 1]);
      if init.None? then None
      else if !IsDelivery(last) then init
      else
        match FactLookup(rows, profile, last.id)
        case None => None
        case Some(pk) => Some(init.value + RowsOf(pk, last))
  }

  /** The repair of old rows is idempotent: a second run finds the same facts and changes no row. */
  lemma {:induction false} RepairTwice(rows: seq<Row>, profile: nat, facts: seq<Fact>)
    requires FoundRows(rows, profile, facts).Some?
    ensures var once := UpsertAll(rows, FoundRows(rows, profile, facts).value);
            && FoundRows(once, profile, facts) == FoundRows(rows, profile, facts)
            && UpsertAll(once, FoundRows(once, profile, facts).value) == once
  {
    var found := FoundRows(rows, profile, facts).value;
    SameFactsFound(rows, UpsertAll(rows, found), profile, facts, found);
    RepeatingChangesNothing(rows, found);
  }

  lemma {:induction false} SameFactsFound(rows: seq<Row>, after: seq<Row>, profile: nat, facts: seq<Fact>,
                                          more: seq<Row>)
    requires Keyed(more) && after == UpsertAll(rows, more)
    ensures FoundRows(after, profile, facts) == FoundRows(rows, profile, facts)
  {
    hide UpsertAll, FactLookup, RowsOf;
    if facts != [] {
      SameFactsFound(rows, after, profile, facts[..|facts| - 1], more);
      UpsertsKeepFacts(rows, more, profile, facts[|facts| - 1].id);
    }
  }

  // ---------------------------------------------------------------- the importer

  /** A dictionary from ids to the keys the database handed out. */
  ghost predicate KeyMap(pks: map<string, nat>, ids: seq<string>, base: nat) {
    && (forall id :: id in pks <==> id in ids)
    && (forall id :: id in pks ==> LastIndex(ids, id).Some? && pks[id] == base + LastIndex(ids, id).value)
  }

  lemma KeyMapGrows(pks: map<string, nat>, ids: seq<string>, base: nat, id: string)
    requires KeyMap(pks, ids, base)
    ensures KeyMap(pks[id := base + |ids|], ids + [id], base)
  {
    assert (ids + [id])[..|ids|] == ids;
  }

  class RowStore {
    var rows: seq<Row>

    constructor ()
      ensures rows == []
    {
      rows := [];
    }

    /** The new row's key is its rank in its table. */
    method Insert(row: Row) returns (pk: nat)
      modifies this
      ensures rows == old(rows) + [row] && pk == Count(old(rows), TableOf(row))
    {
      pk := Count(rows, TableOf(row));
      rows := rows + [row];
    }

    method InsertAll(more: seq<Row>)
      modifies this
      ensures rows == old(rows) + more
    {
      for i := 0 to |more|
        invariant rows == old(rows) + more[..i]
      {
        var _ := Insert(more[i]);
      }
    }

    method InsertComponents(profile: nat, components: seq<Component>) returns (pks: map<string, nat>)
      modifies this
      ensures rows == old(rows) + ComponentRows(profile, components)
      ensures KeyMap(pks, ComponentIds(components), Count(old(rows), SupportComponent))
    {
      hide KeyMap, Count;
      pks := map[];
      assert KeyMap(pks, [], Count(old(rows), SupportComponent)) by { EmptyKeyMap(Count(old(rows), SupportComponent)); }
      for i := 0 to |components|
        invariant rows == old(rows) + ComponentRows(profile, components[..i])
        invariant KeyMap(pks, ComponentIds(components[..i]), Count(old(rows), SupportComponent))
      {
        assert components[..i + 1][..i] == components[..i];
        assert ComponentIds(components[..i + 1]) == ComponentIds(components[..i]) + [components[i].id];
        CountAppend(old(rows), ComponentRows(profile, components[..i]), SupportComponent);
        CountUniform(ComponentRows(profile, components[..i]), SupportComponent, SupportComponent);
        KeyMapGrows(pks, ComponentIds(components[..i]), Count(old(rows), SupportComponent), components[i].id);
        var pk := Insert(ComponentRow(profile, components[i].id, i));
        pks := pks[components[i].id := pk];
      }
      assert components[..|components|] == components;
    }

    /** One fact with its evidence and its context. */
    method InsertFact(ghost keys: Keys, f: Fact, ordinal: nat, profile: nat, componentPks: map<string, nat>)
      returns (pk: nat)
      requires KeyMap(componentPks, keys.componentIds, keys.componentBase) && profile == keys.profile
      requires keys.factBase + ordinal == Count(rows, FactOccurrence)
      modifies this
      ensures rows == old(rows) + OwnRows(keys, f, ordinal) && pk == keys.factBase + ordinal
    {
      var component := if f.component.Some? && f.component.value in componentPks then
        Some(componentPks[f.component.value]) else None;
      var row := FactRow(profile, f.id, f.field, component, ordinal);
      OwnRowsAre(keys, f, ordinal, componentPks, row);
      hide *;
      pk := Insert(row);
      InsertEvidence(pk, f.evidence);
      InsertContext(pk, f.context);
    }

    method InsertEvidence(fact: nat, evidence: seq<string>)
      modifies this
      ensures rows == old(rows) + EvidenceRows(fact, evidence)
    {
      for k := 0 to |evidence|
        invariant rows == old(rows) + EvidenceRows(fact, evidence[..k])
      {
        assert evidence[..k + 1][..k] == evidence[..k];
        var _ := Insert(EvidenceRow(fact, evidence[k], k));
      }
      assert evidence[..|evidence|] == evidence;
    }

    method InsertContext(fact: nat, context: seq<string>)
      modifies this
      ensures rows == old(rows) + ContextRows(fact, context)
    {
      for k := 0 to |context|
        invariant rows == old(rows) + ContextRows(fact, context[..k])
      {
        assert context[..k + 1][..k] == context[..k];
        var _ := Insert(ContextRow(fact, context[k], k));
      }
      assert context[..|context|] == context;
    }

    method InsertFacts(ghost keys: Keys, facts: seq<Fact>, profile: nat, componentPks: map<string, nat>)
      returns (pks: map<string, nat>)
      requires KeyMap(componentPks, keys.componentIds, keys.componentBase) && profile == keys.profile
      requires keys.factBase == Count(rows, FactOccurrence)
      modifies this
      ensures rows == old(rows) + FactRows(keys, facts)
      ensures KeyMap(pks, FactIds(facts), keys.factBase)
    {
      hide KeyMap, Count, OwnRows;
      pks := map[];
      assert KeyMap(pks, [], keys.factBase) by { EmptyKeyMap(keys.factBase); }
      for i := 0 to |facts|
        invariant rows == old(rows) + FactRows(keys, facts[..i])
        invariant KeyMap(pks, FactIds(facts[..i]), keys.factBase)
      {
        assert facts[..i + 1][..i] == facts[..i];
        assert FactIds(facts[..i + 1]) == FactIds(facts[..i]) + [facts[i].id];
        CountAppend(old(rows), FactRows(keys, facts[..i]), FactOccurrence);
        CountFactOccurrences(keys, facts[..i]);
        KeyMapGrows(pks, FactIds(facts[..i]), keys.factBase, facts[i].id);
        var pk := InsertFact(keys, facts[i], i, profile, componentPks);
        pks := pks[facts[i].id := pk];
      }
      assert facts[..|facts|] == facts;
    }

    /** A missing target is the KeyError that aborts the import. */
    method InsertRelations(ghost keys: Keys, factPks: map<string, nat>, source: nat, targets: seq<string>,
                           relation: string) returns (ok: bool)
      requires KeyMap(factPks, keys.factIds, keys.factBase)
      modifies this
      ensures ok <==> AllFactsKnown(keys, targets)
      ensures ok ==> rows == old(rows) + RelationRows(keys, source, targets, relation)
    {
      NoRelations(keys, source, relation);
      hide *;
      ghost var before := rows;
      for i := 0 to |targets|
        invariant AllFactsKnown(keys, targets[..i])
        invariant rows == before + RelationRows(keys, source, targets[..i], relation)
      {
        OneMoreRelation(keys, source, targets, i, relation);
        FactKeyIsPk(factPks, keys, targets[i]);
        if targets[i] !in factPks { return false; }
        var _ := Insert(RelationRow(source, factPks[targets[i]], relation));
      }
      assert targets[..|targets|] == targets;
      ok := true;
    }

    method InsertApplicability(ghost keys: Keys, componentPks: map<string, nat>, source: nat, components: seq<string>)
      returns (ok: bool)
      requires KeyMap(componentPks, keys.componentIds, keys.componentBase)
      modifies this
      ensures ok <==> AllComponentsKnown(keys, components)
      ensures ok ==> rows == old(rows) + ApplicabilityRows(keys, source, components)
    {
      NoApplicability(keys, source);
      hide *;
      ghost var before := rows;
      for i := 0 to |components|
        invariant AllComponentsKnown(keys, components[..i])
        invariant rows == before + ApplicabilityRows(keys, source, components[..i])
      {
        OneMoreApplicability(keys, source, components, i);
        ComponentKeyIsPk(componentPks, keys, components[i]);
        if components[i] !in componentPks { return false; }
        var _ := Insert(ApplicabilityRow(source, componentPks[components[i]]));
      }
      assert components[..|components|] == components;
      ok := true;
    }

    method InsertLinks(ghost keys: Keys, facts: seq<Fact>, factPks: map<string, nat>, componentPks: map<string, nat>)
      returns (ok: bool)
      requires KeyMap(factPks, keys.factIds, keys.factBase)
               && KeyMap(componentPks, keys.componentIds, keys.componentBase)
      requires forall f :: f in facts ==> f.id in factPks
      modifies this
      ensures ok <==> AllLinked(keys, facts)
      ensures ok ==> rows == old(rows) + LinkRows(keys, facts)
    {
      NothingLinked(keys);
      hide *;
      ghost var before := rows;
      for i := 0 to |facts|
        invariant AllLinked(keys, facts[..i])
        invariant rows == before + LinkRows(keys, facts[..i])
      {
        assert facts[i] in facts;
        var linked := InsertLinksOf(keys, facts[i], factPks, componentPks);
        OneMoreLinked(keys, facts, i);
        if !linked { return false; }
      }
      assert facts[..|facts|] == facts;
      ok := true;
    }

    method InsertLinksOf(ghost keys: Keys, f: Fact, factPks: map<string, nat>, componentPks: map<string, nat>)
      returns (ok: bool)
      requires KeyMap(factPks, keys.factIds, keys.factBase)
               && KeyMap(componentPks, keys.componentIds, keys.componentBase)
      requires f.id in factPks
      modifies this
      ensures ok <==> LinksResolve(keys, f)
      ensures ok ==> rows == old(rows) + LinksOf(keys, f)
    {
      hide RelationRows, ApplicabilityRows, AllFactsKnown, AllComponentsKnown;
      var source := factPks[f.id];
      assert FactPk(keys, f.id) == Some(source);
      ok := InsertRelations(keys, factPks, source, f.modified, "modifies");
      if !ok { return; }
      ok := InsertRelations(keys, factPks, source, f.recipients, "recipient");
      if !ok { return; }
      ok := InsertRelations(keys, factPks, source, f.basis, "basis");
      if !ok { return; }
      ok := InsertApplicability(keys, componentPks, source, f.applicability);
    }

    /** The head of a projection first, then its children under the head's key. */
    method InsertProjections(keys: Keys, projections: seq<Projection>) returns (ok: bool)
      modifies this
      ensures ok <==> forall q :: q in projections ==> ProjectionResolves(keys, q)
      ensures ok ==> rows == old(rows) + ProjectionRows(keys, projections, old(rows))
    {
      var facets := 0;
      NothingProjected(keys, rows);
      hide *;
      for i := 0 to |projections|
        invariant forall q :: q in projections[..i] ==> ProjectionResolves(keys, q)
        invariant rows == old(rows) + ProjectionRows(keys, projections[..i], old(rows))
        invariant facets == ProjectionsRowCount(projections[..i], SupportFacet)
      {
        var q := projections[i];
        assert q in projections;
        if !ProjectionResolves(keys, q) { return false; }
        OneMoreProjected(keys, projections, i, old(rows));
        FacetsCounted(q);
        InsertProjection(keys, q, facets);
        facets := facets + (if q.SupportFacets? then 1 else 0);
      }
      assert projections[..|projections|] == projections;
      ok := true;
    }

    method InsertProjection(keys: Keys, q: Projection, facets: nat)
      requires ProjectionResolves(keys, q)
      modifies this
      ensures rows == old(rows) + RowsOfProjection(keys, q, Count(old(rows), HeadTable(q)), facets)
    {
      HeadRowTables(keys, facets, q);
      ResolvedIds(keys, q);
      ghost var pk := Count(rows, HeadTable(q));
      match q {
        case TargetConstraints(_, _, _, _, _) =>
          InsertTarget(keys, q);
          TargetRowsAre(keys, q, pk, facets);
        case SupportFacets(_, _, _, _) =>
          InsertFacet(keys, q, facets);
          FacetRowsAre(keys, q, pk, facets);
        case SupportScale(measures) =>
          var scale := Insert(ScaleRow(keys.profile));
          InsertAll(MeasureRows(keys, scale, measures));
      }
    }

    method InsertTarget(keys: Keys, q: Projection)
      requires q.TargetConstraints? && AllFactsKnown(keys, q.positive) && AllFactsKnown(keys, q.exclusions)
      modifies this
      ensures rows == old(rows) + TargetPieces(keys, q, Count(old(rows), TableOf(TargetRow(keys.profile))))
    {
      hide Count, TableOf, TargetSources, Dimensions;
      var pk := Insert(TargetRow(keys.profile));
      var positive, exclusions := TargetSources(keys, pk, q.positive, "positive", 0),
           TargetSources(keys, pk, q.exclusions, "exclusion", |q.positive|);
      InsertAll(positive + exclusions);
      var a, b, c := Dimensions(pk, q.entityTypes, "entity_types", 0),
           Dimensions(pk, q.regions, "regions", |q.entityTypes|),
                     Dimensions(pk, q.industries, "industries", |q.entityTypes| + |q.regions|);
      InsertAll(a);
      InsertAll(b);
      InsertAll(c);
      hide *;
      Slices.RegroupFive(old(rows), [TargetRow(keys.profile)], positive + exclusions, a, b, c);
    }

    method InsertFacet(keys: Keys, q: Projection, facets: nat)
      requires q.SupportFacets? && AllFactsKnown(keys, q.sources)
      modifies this
      ensures rows
              == old(rows) + FacetPieces(keys, q, Count(old(rows), TableOf(FacetRow(keys.profile, facets))), facets)
    {
      hide Count, TableOf, FacetSources, FacetValues;
      var pk := Insert(FacetRow(keys.profile, facets));
      var a, b, c, d := FacetSources(keys, pk, q.sources), FacetValues(pk, q.activities, "activity"),
                        FacetValues(pk, q.methods, "method"), FacetValues(pk, q.items, "item");
      InsertAll(a);
      InsertAll(b);
      InsertAll(c);
      InsertAll(d);
      hide *;
      Slices.RegroupFive(old(rows), [FacetRow(keys.profile, facets)], a, b, c, d);
    }

    /** Patch the row with the natural key if there is one, insert the row otherwise. */
    method UpsertRow(row: Row)
      modifies this
      ensures rows == Upsert(old(rows), row)
    {
      if Holds(rows, row) {
        rows := Patch(rows, row);
      } else {
        var _ := Insert(row);
      }
    }

    method UpsertDeliveryRoles(profile: nat, facts: seq<Fact>) returns (ok: bool)
      modifies this
      ensures ok <==> FoundRows(old(rows), profile, facts).Some?
      ensures ok ==> rows == UpsertAll(old(rows), FoundRows(old(rows), profile, facts).value)
    {
      hide Upsert, FactLookup, RowsOf;
      for i := 0 to |facts|
        invariant FoundRows(old(rows), profile, facts[..i]).Some?
        invariant rows == UpsertAll(old(rows), FoundRows(old(rows), profile, facts[..i]).value)
      {
        hide UpsertAll;
        assert facts[..i + 1][..i] == facts[..i];
        var f := facts[i];
        ghost var found := FoundRows(old(rows), profile, facts[..i]).value;
        if !IsDelivery(f) { continue; }
        UpsertsKeepFacts(old(rows), found, profile, f.id);
        var pk := FactLookup(rows, profile, f.id);
        if pk.None? {
          NotFoundStays(old(rows), profile, facts, i + 1);
          return false;
        }
        ghost var before := rows;
        UpsertFact(pk.value, f);
        UpsertAppend(old(rows), found, RowsOf(pk.value, f));
      }
      assert facts[..|facts|] == facts;
      ok := true;
    }

    method UpsertFact(pk: nat, f: Fact)
      modifies this
      ensures rows == UpsertAll(old(rows), RowsOf(pk, f))
    {
      hide Upsert;
      UpsertRow(RoleRow(pk, f.role));
      var organizations := f.organizations;
      assert rows == UpsertAll(old(rows), [RoleRow(pk, f.role)]) by { UpsertOne(old(rows), RoleRow(pk, f.role)); }
      for k := 0 to |organizations|
        invariant rows == UpsertAll(old(rows), [RoleRow(pk, f.role)] + OrganizationRows(pk, organizations[..k]))
      {
        hide UpsertAll;
        var o := organizations[k];
        var row := OrganizationRow(pk, o.block, o.start, o.end, o.value, k);
        assert organizations[..k + 1][..k] == organizations[..k];
        ghost var done := [RoleRow(pk, f.role)] + OrganizationRows(pk, organizations[..k]);
        assert [RoleRow(pk, f.role)] + OrganizationRows(pk, organizations[..k + 1]) == done + [row];
        UpsertOneMore(old(rows), done, row);
        UpsertRow(row);
      }
      assert organizations[..|organizations|] == organizations;
    }

    /** insert_profile_children: fails exactly when an id has no row; otherwise the rows are those
        of the profile, with every reference resolved to the key of the right row. */
    method InsertProfileChildren(profile: nat, p: Profile) returns (ok: bool)
      requires NoFacts(rows, profile)
      modifies this
      ensures ok <==> References(p)
      ensures ok ==> Resolves(KeysFor(old(rows), profile, p), p) && rows == Imported(old(rows), profile, p)
    {
      ghost var keys := KeysFor(rows, profile, p);
      var facts := AllFacts(p);
      ReferencesResolve(rows, profile, p);
      var factBase := Count(rows, FactOccurrence);
      var componentBase := Count(rows, SupportComponent);
      var componentPks := InsertComponents(profile, p.components);
      CountAppend(old(rows), ComponentRows(profile, p.components), FactOccurrence);
      CountUniform(ComponentRows(profile, p.components), SupportComponent, FactOccurrence);
      var factPks := InsertFacts(keys, facts, profile, componentPks);
      FactsHaveKeys(keys, facts, factPks);
      ok := InsertLinks(keys, facts, factPks, componentPks);
      if !ok { return; }
      ok := InsertProjections(Keys(profile, ComponentIds(p.components), componentBase, FactIds(facts), factBase),
        p.projections);
      if !ok { return; }
      ImportedFactsAreFound(old(rows), profile, p);
      ok := UpsertDeliveryRoles(profile, facts);
    }
  }

  ghost function TargetPieces(keys: Keys, q: Projection, pk: nat): (rows: seq<Row>)
    requires q.TargetConstraints? && AllFactsKnown(keys, q.positive) && AllFactsKnown(keys, q.exclusions)
  {
    [TargetRow(keys.profile)]
    + (TargetSources(keys, pk, q.positive, "positive", 0)
      + TargetSources(keys, pk, q.exclusions, "exclusion", |q.positive|))
    + Dimensions(pk, q.entityTypes, "entity_types", 0) + Dimensions(pk, q.regions, "regions", |q.entityTypes|)
    + Dimensions(pk, q.industries, "industries", |q.entityTypes| + |q.regions|)
  }

  lemma TargetRowsAre(keys: Keys, q: Projection, pk: nat, facets: nat)
    requires q.TargetConstraints? && ProjectionResolves(keys, q)
    ensures RowsOfProjection(keys, q, pk, facets) == TargetPieces(keys, q, pk)
  {
    hide TargetSources, Dimensions;
  }

  ghost function FacetPieces(keys: Keys, q: Projection, pk: nat, facets: nat): (rows: seq<Row>)
    requires q.SupportFacets? && AllFactsKnown(keys, q.sources)
  {
    [FacetRow(keys.profile, facets)] + FacetSources(keys, pk, q.sources)
    + FacetValues(pk, q.activities, "activity") + FacetValues(pk, q.methods, "method")
      + FacetValues(pk, q.items, "item")
  }

  lemma FacetRowsAre(keys: Keys, q: Projection, pk: nat, facets: nat)
    requires q.SupportFacets? && ProjectionResolves(keys, q)
    ensures RowsOfProjection(keys, q, pk, facets) == FacetPieces(keys, q, pk, facets)
  {
  }

  lemma HeadRowTables(keys: Keys, facets: nat, q: Projection)
    ensures q.TargetConstraints? ==> HeadTable(q) == TableOf(TargetRow(keys.profile))
    ensures q.SupportFacets? ==> HeadTable(q) == TableOf(FacetRow(keys.profile, facets))
    ensures q.SupportScale? ==> HeadTable(q) == TableOf(ScaleRow(keys.profile))
  {
  }

  lemma OwnRowsAre(keys: Keys, f: Fact, i: nat, componentPks: map<string, nat>, row: Row)
    requires KeyMap(componentPks, keys.componentIds, keys.componentBase)
    requires var component := if f.component.Some? && f.component.value in componentPks then
      Some(componentPks[f.component.value]) else None;
             row == FactRow(keys.profile, f.id, f.field, component, i)
    ensures TableOf(row) == FactOccurrence
    ensures OwnRows(keys, f, i)
            == [row] + EvidenceRows(keys.factBase + i, f.evidence) + ContextRows(keys.factBase + i, f.context)
  {
    hide EvidenceRows, ContextRows;
    if f.component.Some? {
      ComponentKeyIsPk(componentPks, keys, f.component.value);
    }
  }

  lemma FactKeyIsPk(pks: map<string, nat>, keys: Keys, id: string)
    requires KeyMap(pks, keys.factIds, keys.factBase)
    ensures id in pks <==> id in keys.factIds
    ensures id in pks ==> FactPk(keys, id) == Some(pks[id])
  {
  }

  lemma ComponentKeyIsPk(pks: map<string, nat>, keys: Keys, id: string)
    requires KeyMap(pks, keys.componentIds, keys.componentBase)
    ensures id in pks <==> id in keys.componentIds
    ensures if id in pks then ComponentPk(keys, id) == Some(pks[id]) else ComponentPk(keys, id) == None
  {
  }

  lemma NoRelations(keys: Keys, source: nat, relation: string)
    ensures AllFactsKnown(keys, []) && RelationRows(keys, source, [], relation) == []
  {
  }

  lemma OneMoreRelation(keys: Keys, source: nat, targets: seq<string>, i: nat, relation: string)
    requires i < |targets| && AllFactsKnown(keys, targets[..i])
    ensures targets[i] !in keys.factIds ==> !AllFactsKnown(keys, targets)
    ensures targets[i] in keys.factIds ==>
              && AllFactsKnown(keys, targets[..i + 1])
              && RelationRows(keys, source, targets[..i + 1], relation)
                 == RelationRows(keys, source, targets[..i], relation)
                   + [RelationRow(source, FactPk(keys, targets[i]).value, relation)]
  {
    assert targets[i] in targets;
    assert targets[..i + 1] == targets[..i] + [targets[i]];
    Slices.TakeOfTake(targets, i, i + 1);
  }

  lemma NoApplicability(keys: Keys, source: nat)
    ensures AllComponentsKnown(keys, []) && ApplicabilityRows(keys, source, []) == []
  {
  }

  lemma OneMoreApplicability(keys: Keys, source: nat, components: seq<string>, i: nat)
    requires i < |components| && AllComponentsKnown(keys, components[..i])
    ensures components[i] !in keys.componentIds ==> !AllComponentsKnown(keys, components)
    ensures components[i] in keys.componentIds ==>
              && AllComponentsKnown(keys, components[..i + 1])
              && ApplicabilityRows(keys, source, components[..i + 1])
                 == ApplicabilityRows(keys, source, components[..i])
                   + [ApplicabilityRow(source, ComponentPk(keys, components[i]).value)]
  {
    assert components[i] in components;
    assert components[..i + 1] == components[..i] + [components[i]];
    Slices.TakeOfTake(components, i, i + 1);
  }

  lemma ResolvedIds(keys: Keys, q: Projection)
    requires ProjectionResolves(keys, q)
    ensures q.TargetConstraints? ==> AllFactsKnown(keys, q.positive) && AllFactsKnown(keys, q.exclusions)
    ensures q.SupportFacets? ==> AllFactsKnown(keys, q.sources)
    ensures q.SupportScale? ==> forall m :: m in q.measures ==> m.source in keys.factIds
  {
  }

  lemma FacetsCounted(q: Projection)
    ensures ProjectionRowCount(q, SupportFacet) == if q.SupportFacets? then 1 else 0
  {
  }

  lemma NothingLinked(keys: Keys)
    ensures AllLinked(keys, []) && LinkRows(keys, []) == []
  {
  }

  lemma FactsHaveKeys(keys: Keys, facts: seq<Fact>, factPks: map<string, nat>)
    requires KeyMap(factPks, keys.factIds, keys.factBase) && keys.factIds == FactIds(facts)
    ensures forall f :: f in facts ==> f.id in factPks
  {
    forall f | f in facts ensures f.id in factPks {
      var i :| 0 <= i < |facts| && facts[i] == f;
      assert keys.factIds[i] == f.id;
    }
  }

  lemma NothingProjected(keys: Keys, before: seq<Row>)
    ensures ProjectionRows(keys, [], before) == [] && ProjectionsRowCount([], SupportFacet) == 0
  {
  }

  lemma OneMoreLinked(keys: Keys, facts: seq<Fact>, i: nat)
    requires i < |facts| && AllLinked(keys, facts[..i])
    ensures !LinksResolve(keys, facts[i]) ==> !AllLinked(keys, facts)
    ensures LinksResolve(keys, facts[i]) ==>
              AllLinked(keys, facts[..i + 1])
                && LinkRows(keys, facts[..i + 1]) == LinkRows(keys, facts[..i]) + LinksOf(keys, facts[i])
  {
    hide LinksResolve, LinksOf;
    assert facts[i] in facts;
    assert facts[..i + 1] == facts[..i] + [facts[i]];
    assert facts[..i + 1][..i] == facts[..i];
  }

  lemma OneMoreProjected(keys: Keys, projections: seq<Projection>, i: nat, before: seq<Row>)
    requires i < |projections| && (forall q :: q in projections[..i] ==> ProjectionResolves(keys, q))
             && ProjectionResolves(keys, projections[i])
    ensures forall q :: q in projections[..i + 1] ==> ProjectionResolves(keys, q)
    ensures var (init, q) := (ProjectionRows(keys, projections[..i], before), projections[i]);
            var facets := ProjectionsRowCount(projections[..i], SupportFacet);
            && ProjectionRows(keys, projections[..i + 1], before)
               == init + RowsOfProjection(keys, q, Count(before + init, HeadTable(q)), facets)
            && ProjectionsRowCount(projections[..i + 1], SupportFacet) == facets + ProjectionRowCount(q, SupportFacet)
  {
    hide ProjectionResolves, RowsOfProjection, Count, HeadTable, ProjectionRowCount;
    assert projections[..i + 1] == projections[..i] + [projections[i]];
    assert projections[..i + 1][..i] == projections[..i];
  }

  lemma EmptyKeyMap(base: nat)
    ensures KeyMap(map[], [], base)
  {
  }

  lemma UpsertOne(rows: seq<Row>, row: Row)
    ensures UpsertAll(rows, [row]) == Upsert(rows, row)
  {
    assert [row][..0] == [];
    assert UpsertAll(rows, []) == rows;
  }

  lemma {:induction false} NotFoundStays(rows: seq<Row>, profile: nat, facts: seq<Fact>, k: nat)
    requires k <= |facts| && FoundRows(rows, profile, facts[..k]).None?
    ensures FoundRows(rows, profile, facts).None?
    decreases |facts|
  {
    if k < |facts| {
      assert facts[..|facts| - 1][..k] == facts[..k];
      NotFoundStays(rows, profile, facts[..|facts| - 1], k);
    } else {
      assert facts[..k] == facts;
    }
  }

  lemma {:induction false} FoldedIdsAreDistinct(facts: seq<Fact>)
    ensures Distinct(FactIds(FirstById(facts)))
    ensures forall id :: id in FactIds(FirstById(facts)) <==> id in FactIds(facts)
  {
    if facts != [] {
      var (init, last) := (facts[..|facts| - 1], facts[|facts| - 1]);
      FoldedIdsAreDistinct(init);
      assert FactIds(facts) == FactIds(init) + [last.id];
      if last.id !in FactIds(init) {
        assert FactIds(FirstById(init) + [last]) == FactIds(FirstById(init)) + [last.id];
      }
    }
  }

  /** After the inserts every fact of the profile is found under its own key. */
  lemma ImportedFactsAreFound(rows: seq<Row>, profile: nat, p: Profile)
    requires NoFacts(rows, profile) && Resolves(KeysFor(rows, profile, p), p)
    ensures FoundRows(WithProjections(rows, profile, p), profile, AllFacts(p))
            == Some(DeliveryRows(KeysFor(rows, profile, p), AllFacts(p)))
  {
    var (keys, facts) := (KeysFor(rows, profile, p), AllFacts(p));
    FoldedIdsAreDistinct(EveryFact(p));
    forall f | f in facts ensures FactLookup(WithProjections(rows, profile, p), profile, f.id) == FactPk(keys, f.id) {
      FactIsFound(rows, profile, p, f.id);
    }
    FoundAsDelivered(WithProjections(rows, profile, p), keys, facts);
  }

  /** Ingesting the record again finds the version it made and runs the repair on it: no child row
      changes. */
  lemma SecondIngestChangesNoChildRow(rows: seq<Row>, profile: nat, p: Profile)
    requires NoFacts(rows, profile) && Resolves(KeysFor(rows, profile, p), p)
    ensures var once := Imported(rows, profile, p);
            var found := FoundRows(once, profile, AllFacts(p));
            found.Some? && UpsertAll(once, found.value) == once
  {
    hide WithProjections, DeliveryRows, UpsertAll, FoundRows;
    ImportedFactsAreFound(rows, profile, p);
    RepairTwice(WithProjections(rows, profile, p), profile, AllFacts(p));
  }

  lemma {:induction false} FoundAsDelivered(rows: seq<Row>, keys: Keys, facts: seq<Fact>)
    requires forall f :: f in facts ==>
               f.id in keys.factIds && FactLookup(rows, keys.profile, f.id) == FactPk(keys, f.id)
    ensures FoundRows(rows, keys.profile, facts) == Some(DeliveryRows(keys, facts))
  {
    hide FactLookup, FactPk, RowsOf;
    if facts != [] {
      FoundAsDelivered(rows, keys, facts[..|facts| - 1]);
      assert facts[|facts| - 1] in facts;
      assert DeliveryRows(keys, facts[..|facts| - 1]) + [] == DeliveryRows(keys, facts[..|facts| - 1]);
    }
  }

  lemma FactIsFound(rows: seq<Row>, profile: nat, p: Profile, id: string)
    requires NoFacts(rows, profile) && Resolves(KeysFor(rows, profile, p), p) && Distinct(FactIds(AllFacts(p)))
    requires id in FactIds(AllFacts(p))
    ensures FactLookup(WithProjections(rows, profile, p), profile, id) == FactPk(KeysFor(rows, profile, p), id)
  {
    hide *;
    var (keys, facts) := (KeysFor(rows, profile, p), AllFacts(p));
    KeysAre(rows, profile, p, id);
    var (components, own, links, projected) := Layers(rows, profile, p);
    ComponentsAreNoFacts(rows, profile, p.components);
    InsertedFactIsFound(keys, facts, id);
    FoundInTheMiddle(rows + components, own, links, projected, profile, id);
  }

  lemma KeysAre(rows: seq<Row>, profile: nat, p: Profile, id: string)
    ensures var keys := KeysFor(rows, profile, p);
            && keys.profile == profile && keys.factBase == Count(rows, FactOccurrence)
            && (id in FactIds(AllFacts(p)) ==>
                 FactPk(keys, id) == Some(keys.factBase + LastIndex(FactIds(AllFacts(p)), id).value))
  {
  }

  ghost function Layers(rows: seq<Row>, profile: nat, p: Profile): (layers: (seq<Row>, seq<Row>, seq<Row>, seq<Row>))
    requires Resolves(KeysFor(rows, profile, p), p)
    ensures WithProjections(rows, profile, p) == rows + layers.0 + layers.1 + layers.2 + layers.3
    ensures layers.0 == ComponentRows(profile, p.components)
            && layers.1 == FactRows(KeysFor(rows, profile, p), AllFacts(p))
  {
    var keys := KeysFor(rows, profile, p);
    (ComponentRows(profile, p.components), FactRows(keys, AllFacts(p)), LinkRows(keys, AllFacts(p)),
     ProjectionRows(keys, p.projections, WithFacts(rows, profile, p)))
  }

  lemma ComponentsAreNoFacts(rows: seq<Row>, profile: nat, components: seq<Component>)
    requires NoFacts(rows, profile)
    ensures NoFacts(rows + ComponentRows(profile, components), profile)
    ensures Count(rows + ComponentRows(profile, components), FactOccurrence) == Count(rows, FactOccurrence)
  {
    var more := ComponentRows(profile, components);
    forall r | r in more ensures !r.FactRow? {
      assert TableOf(r) == SupportComponent;
    }
    CountUniform(more, SupportComponent, FactOccurrence);
    CountAppend(rows, more, FactOccurrence);
  }

  lemma FoundInTheMiddle(before: seq<Row>, own: seq<Row>, links: seq<Row>, projected: seq<Row>, profile: nat,
                         id: string)
    requires NoFacts(before, profile) && FactLookup(own, profile, id).Some?
    ensures FactLookup(before + own + links + projected, profile, id)
            == Some(Count(before, FactOccurrence) + FactLookup(own, profile, id).value)
  {
    hide FactLookup, Count, NoFacts;
    NothingToFind(before, profile, id);
    LookupAppend(before, own, profile, id);
    LookupAppend(before + own, links, profile, id);
    LookupAppend(before + own + links, projected, profile, id);
  }

  // ---------------------------------------------------------------- the counts agree

  /** Delivery rows refer to facts that exist: the foreign key of both tables. */
  ghost predicate FactsExist(rows: seq<Row>) {
    forall r :: r in rows && (r.RoleRow? || r.OrganizationRow?) ==> r.fact < Count(rows, FactOccurrence)
  }

  lemma AcceptedResolves(p: Profile)
    requires Accepted(p)
    ensures References(p)
  {
    DistinctIdsNeedNoFolding(EveryFact(p));
    var keys := KeysFor([], 0, p);
    var facts := EveryFact(p);
    forall f | f in facts ensures LinksResolve(keys, f) {
      assert FactAccepted(f, IdSet(ComponentIds(p.components))) && RelationsAccepted(f, IdSet(FactIds(facts)));
      var i :| 0 <= i < |facts| && facts[i] == f;
      assert FactIds(facts)[i] == f.id;
    }
    forall q | q in p.projections ensures ProjectionResolves(keys, q) {
      assert ProjectionAccepted(q, facts, IdSet(FactIds(facts)));
    }
  }

  /** For every profile the validator accepts: the importer meets no unknown id, and table by table
      it inserts exactly the rows that validator and verifier count. Organization rows are the one
      exception: there the counts agree exactly when no exact span repeats within a delivery fact,
      and otherwise the importer inserts fewer. */
  lemma {:induction false} AcceptedProfilesAreImportedAsCounted(rows: seq<Row>, profile: nat, p: Profile, t: Table)
    requires Accepted(p) && NoFacts(rows, profile) && FactsExist(rows)
    ensures References(p) && Resolves(KeysFor(rows, profile, p), p)
    ensures var inserted := Count(Imported(rows, profile, p), t) - Count(rows, t);
            && PackCount(p, t) == ExpectedCount(p, t)
            && inserted <= PackCount(p, t)
            && (inserted == PackCount(p, t)
                <==> t == DeliveryRoleOrganization ==> forall f :: f in AllFacts(p) && IsDelivery(f) ==>
                  DistinctSpans(f.organizations))
  {
    AcceptedResolves(p);
    ReferencesResolve(rows, profile, p);
    BothCountsAgree(p, t);
    var (keys, facts) := (KeysFor(rows, profile, p), AllFacts(p));
    WithoutDeliveries(rows, profile, p, t);
    NewFactsAreFresh(rows, profile, p);
    OrganizationsAreCountedExactly(facts);
    FoldedIdsAreDistinct(EveryFact(p));
    FactsHaveIds(keys, facts);
    ProjectionsDeliverNothing(p.projections, t);
    DeliveriesAreInserted(WithProjections(rows, profile, p), keys, facts, t);
  }

  lemma FactsHaveIds(keys: Keys, facts: seq<Fact>)
    requires keys.factIds == FactIds(facts)
    ensures forall f :: f in facts ==> f.id in keys.factIds
  {
    forall f | f in facts ensures f.id in keys.factIds {
      var i :| 0 <= i < |facts| && facts[i] == f;
      assert keys.factIds[i] == f.id;
    }
  }

  lemma {:induction false} ProjectionsDeliverNothing(projections: seq<Projection>, t: Table)
    ensures Delivers(t) ==> ProjectionsRowCount(projections, t) == 0
  {
    if projections != [] {
      ProjectionsDeliverNothing(projections[..|projections| - 1], t);
    }
  }

  /** Up to the projections. */
  lemma WithoutDeliveries(rows: seq<Row>, profile: nat, p: Profile, t: Table)
    requires Resolves(KeysFor(rows, profile, p), p)
    ensures Count(WithProjections(rows, profile, p), t) - Count(rows, t)
            == if Delivers(t) then ProjectionsRowCount(p.projections, t) else RowCount(AllFacts(p), p, t)
  {
    var (keys, facts) := (KeysFor(rows, profile, p), AllFacts(p));
    var (components, own) := (ComponentRows(profile, p.components), FactRows(keys, facts));
    var (links, projected) := (LinkRows(keys, facts), ProjectionRows(keys, p.projections, WithFacts(rows, profile, p)));
    CountUniform(components, SupportComponent, t);
    if Delivers(t) {
      NoDeliveriesYet(keys, facts, t);
    } else {
      CountFacts(keys, facts, t);
    }
    CountProjections(keys, p.projections, WithFacts(rows, profile, p), t);
    hide Count, ComponentRows, FactRows, LinkRows, ProjectionRows, FactsRowCount, ProjectionsRowCount;
    CountFive(rows, components, own, links, projected, t);
  }

  lemma {:induction false} NoDeliveriesYet(keys: Keys, facts: seq<Fact>, t: Table)
    requires AllLinked(keys, facts) && Delivers(t)
    ensures Count(FactRows(keys, facts), t) == 0 && Count(LinkRows(keys, facts), t) == 0
  {
    hide LinksResolve;
    if facts != [] {
      var (n, last) := (|facts| - 1, facts[|facts| - 1]);
      NoDeliveriesYet(keys, facts[..n], t);
      CountOwn(keys, last, n, t);
      CountLinks(keys, last, t);
      CountAppend(FactRows(keys, facts[..n]), OwnRows(keys, last, n), t);
      CountAppend(LinkRows(keys, facts[..n]), LinksOf(keys, last), t);
    }
  }

  /** No delivery row refers to a fact that was only just inserted. */
  lemma NewFactsAreFresh(rows: seq<Row>, profile: nat, p: Profile)
    requires FactsExist(rows) && Resolves(KeysFor(rows, profile, p), p)
    ensures forall f :: f in AllFacts(p) ==>
              FactPk(KeysFor(rows, profile, p), f.id).Some?
              && Fresh(WithProjections(rows, profile, p), FactPk(KeysFor(rows, profile, p), f.id).value)
  {
    hide *;
    forall f | f in AllFacts(p)
      ensures FactPk(KeysFor(rows, profile, p), f.id).Some?
      ensures Fresh(WithProjections(rows, profile, p), FactPk(KeysFor(rows, profile, p), f.id).value)
    {
      NewKeysAreLater(rows, profile, p, f);
      LaterKeysAreFresh(rows, profile, p, FactPk(KeysFor(rows, profile, p), f.id).value);
    }
  }

  lemma NewKeysAreLater(rows: seq<Row>, profile: nat, p: Profile, f: Fact)
    requires f in AllFacts(p)
    ensures FactPk(KeysFor(rows, profile, p), f.id).Some?
    ensures FactPk(KeysFor(rows, profile, p), f.id).value >= Count(rows, FactOccurrence)
  {
    FactsHaveIds(KeysFor(rows, profile, p), AllFacts(p));
  }

  lemma LaterKeysAreFresh(rows: seq<Row>, profile: nat, p: Profile, fact: nat)
    requires FactsExist(rows) && Resolves(KeysFor(rows, profile, p), p) && fact >= Count(rows, FactOccurrence)
    ensures Fresh(WithProjections(rows, profile, p), fact)
  {
    hide *;
    var (components, own, links, projected) := Layers(rows, profile, p);
    forall r | r in components + own + links + projected ensures !Delivers(TableOf(r)) {
      NothingDeliveredYet(rows, profile, p, r);
    }
    FreshBeyond(rows, components + own + links + projected, fact);
    assert rows + (components + own + links + projected) == rows + components + own + links + projected;
  }

  lemma NothingDeliveredYet(rows: seq<Row>, profile: nat, p: Profile, r: Row)
    requires Resolves(KeysFor(rows, profile, p), p)
    ensures var (components, own, links, projected) := Layers(rows, profile, p);
            r in components + own + links + projected ==> !Delivers(TableOf(r))
  {
    var (keys, facts, t) := (KeysFor(rows, profile, p), AllFacts(p), TableOf(r));
    var (components, own, links, projected) := Layers(rows, profile, p);
    if Delivers(t) {
      CountUniform(components, SupportComponent, t);
      NoDeliveriesYet(keys, facts, t);
      CountProjections(keys, p.projections, WithFacts(rows, profile, p), t);
      ProjectionsDeliverNothing(p.projections, t);
      hide Count, LinkRows, FactRows, ProjectionRows, ComponentRows, AllFacts;
      Counted(components, r);
      Counted(own, r);
      Counted(links, r);
      Counted(projected, r);
    }
  }

  lemma FreshBeyond(rows: seq<Row>, more: seq<Row>, fact: nat)
    requires FactsExist(rows) && fact >= Count(rows, FactOccurrence)
    requires forall r :: r in more ==> !Delivers(TableOf(r))
    ensures Fresh(rows + more, fact)
  {
    hide Count;
    forall r | r in rows + more && (r.RoleRow? || r.OrganizationRow?) ensures r.fact != fact {
      assert Delivers(TableOf(r));
    }
  }

  lemma {:induction false} Counted(rows: seq<Row>, r: Row)
    ensures r in rows ==> Count(rows, TableOf(r)) > 0
  {
    if rows != [] {
      Counted(rows[..|rows| - 1], r);
      assert rows == rows[..|rows| - 1] + [rows[|rows| - 1]];
    }
  }
}
