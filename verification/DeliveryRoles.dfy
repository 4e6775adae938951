/** Materialising delivery roles by their natural keys: upsert_delivery_roles
    (backend/scripts/ingest_existing_profile.py). */
module DeliveryRoles {
  import opened Wrappers
  import opened ProfilePack
  import opened ProfileImport

  /** The natural keys: one role per fact, one organization per exact span of a fact. */
  predicate SameKey(a: Row, b: Row) {
    || (a.RoleRow? && b.RoleRow? && a.fact == b.fact)
    || (a.OrganizationRow? && b.OrganizationRow? && a.fact == b.fact && a.block == b.block && a.start == b.start
       && a.end == b.end)
  }

  predicate Holds(rows: seq<Row>, row: Row) {
    exists r :: r in rows && SameKey(r, row)
  }

  /** The patch of the rows with the key: the row sets every column that is not part of it. */
  function Patch(rows: seq<Row>, row: Row): (patched: seq<Row>)
    ensures |patched| == |rows|
    ensures forall i :: 0 <= i < |rows| ==> patched[i] == if SameKey(rows[i], row) then row else rows[i]
  {
    seq(|rows|, i requires 0 <= i < |rows| => if SameKey(rows[i], row) then row else rows[i])
  }

  function Upsert(rows: seq<Row>, row: Row): (more: seq<Row>) {
    if Holds(rows, row) then Patch(rows, row) else rows + [row]
  }

  function UpsertAll(rows: seq<Row>, more: seq<Row>): (all: seq<Row>) {
    if more == [] then rows else Upsert(UpsertAll(rows, more[..|more| - 1]), more[|more| - 1])
  }

  // ---------------------------------------------------------------- repeating changes nothing

  /** The last row of a list with the key of a given row. */
  function LastWithKey(more: seq<Row>, row: Row): (last: Option<Row>)
    ensures last.Some? <==> Holds(more, row)
    ensures last.Some? ==> last.value in more && SameKey(last.value, row)
  {
    if more == [] then None
    else
      assert more == more[..|more| - 1] + [more[|more| - 1]];
      if SameKey(more[|more| - 1], row) then Some(more[|more| - 1]) else LastWithKey(more[..|more| - 1], row)
  }

  ghost predicate Keyed(more: seq<Row>) {
    forall r :: r in more ==> r.RoleRow? || r.OrganizationRow?
  }

  /** After the upserts every key of the list is there, and a row with such a key is the last one
      of the list; every key that was there before still is. */
  lemma {:induction false} UpsertedExactly(rows: seq<Row>, more: seq<Row>, row: Row)
    requires Keyed(more)
    ensures row in UpsertAll(rows, more) && Holds(more, row) ==> LastWithKey(more, row) == Some(row)
    ensures Holds(UpsertAll(rows, more), row) <==> Holds(rows, row) || Holds(more, row)
    ensures row in UpsertAll(rows, more) && !Holds(more, row) ==> row in rows
  {
    if more != [] {
      var (init, last) := (more[..|more| - 1], more[|more| - 1]);
      assert more == init + [last];
      UpsertedExactly(rows, init, row);
      UpsertKeeps(UpsertAll(rows, init), last, row);
      HoldsOneMore(init, last, row);
    }
  }

  lemma HoldsOneMore(init: seq<Row>, last: Row, row: Row)
    ensures Holds(init + [last], row) <==> Holds(init, row) || SameKey(last, row)
  {
  }

  lemma UpsertKeeps(rows: seq<Row>, last: Row, row: Row)
    requires last.RoleRow? || last.OrganizationRow?
    ensures row in Upsert(rows, last) ==> row == last || (row in rows && !SameKey(row, last))
    ensures Holds(Upsert(rows, last), row) <==> Holds(rows, row) || SameKey(last, row)
  {
    if Holds(rows, last) {
      forall r | r in rows ensures exists q :: q in Patch(rows, last) && (q == r || (q == last && SameKey(r, last))) {
        var i :| 0 <= i < |rows| && rows[i] == r;
        assert Patch(rows, last)[i] in Patch(rows, last);
      }
      var k :| 0 <= k < |rows| && SameKey(rows[k], last);
      assert Patch(rows, last)[k] == last;
    }
  }

  /** Where every key is there and every row with one is the last of the list, upserting a further
      stretch of the list leaves the keys' rows as some earlier row of the list made them ... */
  lemma {:induction false} UpsertingAgain(rows: seq<Row>, more: seq<Row>)
    requires Keyed(more) && forall r :: r in more ==> Holds(rows, r)
    ensures var again := UpsertAll(rows, more);
            && |again| == |rows|
            && forall i :: 0 <= i < |rows| ==>
                 again[i] == if Holds(more, rows[i]) then LastWithKey(more, rows[i]).value else rows[i]
  {
    if more != [] {
      var (init, last) := (more[..|more| - 1], more[|more| - 1]);
      assert more == init + [last] && last in more;
      UpsertingAgain(rows, init);
      UpsertedExactly(rows, init, last);
      var before := UpsertAll(rows, init);
      forall i | 0 <= i < |rows|
        ensures UpsertAll(rows, more)[i] == if Holds(more, rows[i]) then LastWithKey(more, rows[i]).value else rows[i]
      {
        HoldsOneMore(init, last, rows[i]);
        assert SameKey(before[i], last) <==> SameKey(rows[i], last);
      }
    }
  }

  /** ... so that running the whole repair a second time changes no row. */
  lemma RepeatingChangesNothing(rows: seq<Row>, more: seq<Row>)
    requires Keyed(more)
    ensures UpsertAll(UpsertAll(rows, more), more) == UpsertAll(rows, more)
  {
    var once := UpsertAll(rows, more);
    forall r | r in more ensures Holds(once, r) {
      UpsertedExactly(rows, more, r);
    }
    UpsertingAgain(once, more);
    forall i | 0 <= i < |once| ensures UpsertAll(once, more)[i] == once[i] {
      UpsertedExactly(rows, more, once[i]);
    }
  }

  // ---------------------------------------------------------------- how many rows are inserted

  /** An exact span of a fact. */
  type Span = (string, nat, nat)

  function SpanOf(o: Organization): (span: Span) {
    (o.block, o.start, o.end)
  }

  function Spans(organizations: seq<Organization>): (spans: set<Span>) {
    set o | o in organizations :: SpanOf(o)
  }

  function OrganizationRows(fact: nat, organizations: seq<Organization>): (rows: seq<Row>)
    ensures |rows| == |organizations| && forall r :: r in rows ==> r.OrganizationRow? && r.fact == fact
  {
    if organizations == [] then []
    else
      var (n, last) := (|organizations| - 1, organizations[|organizations| - 1]);
      OrganizationRows(fact, organizations[..n])
        + [OrganizationRow(fact, last.block, last.start, last.end, last.value, n)]
  }

  /** The rows of one delivery fact. */
  function RowsOf(fact: nat, f: Fact): (rows: seq<Row>)
    ensures Keyed(rows) && forall r :: r in rows ==> r.fact == fact
  {
    [RoleRow(fact, f.role)] + OrganizationRows(fact, f.organizations)
  }

  /** No role and no organization of a fact is there yet. */
  ghost predicate Fresh(rows: seq<Row>, fact: nat) {
    forall r :: r in rows && (r.RoleRow? || r.OrganizationRow?) ==> r.fact != fact
  }

  /** The spans for which a fact has organization rows. */
  function SpansIn(rows: seq<Row>, fact: nat): (spans: set<Span>) {
    set r | r in rows && r.OrganizationRow? && r.fact == fact :: (r.block, r.start, r.end)
  }

  lemma {:induction false} CountPatched(rows: seq<Row>, row: Row, t: Table)
    ensures Count(Patch(rows, row), t) == Count(rows, t)
  {
    if rows != [] {
      var n := |rows| - 1;
      CountPatched(rows[..n], row, t);
      assert Patch(rows, row)[..n] == Patch(rows[..n], row);
      assert TableOf(Patch(rows, row)[n]) == TableOf(rows[n]);
    }
  }

  lemma CountUpserted(rows: seq<Row>, row: Row, t: Table)
    ensures Count(Upsert(rows, row), t) == Count(rows, t) + (if TableOf(row) == t && !Holds(rows, row) then 1 else 0)
  {
    CountPatched(rows, row, t);
    CountAppend(rows, [row], t);
    CountOne(row, t);
  }

  /** An organization's upsert adds its span to those of its fact and leaves other facts alone. */
  lemma SpansUpserted(rows: seq<Row>, row: Row, fact: nat)
    requires row.OrganizationRow?
    ensures SpansIn(Upsert(rows, row), fact)
            == SpansIn(rows, fact) + (if row.fact == fact then {(row.block, row.start, row.end)} else {})
    ensures Holds(rows, row) <==> (row.block, row.start, row.end) in SpansIn(rows, row.fact)
  {
    var (after, span) := (Upsert(rows, row), (row.block, row.start, row.end));
    UpsertKeeps(rows, row, row);
    forall s | s in SpansIn(after, fact) ensures s in SpansIn(rows, fact) || (row.fact == fact && s == span) {
      var r :| r in after && r.OrganizationRow? && r.fact == fact && (r.block, r.start, r.end) == s;
      UpsertKeeps(rows, row, r);
    }
    forall s | s in SpansIn(rows, fact) || (row.fact == fact && s == span) ensures s in SpansIn(after, fact) {
      var probe := OrganizationRow(fact, s.0, s.1, s.2, "", 0);
      if s in SpansIn(rows, fact) {
        var r :| r in rows && r.OrganizationRow? && r.fact == fact && (r.block, r.start, r.end) == s;
        assert SameKey(r, probe);
      }
      UpsertKeeps(rows, row, probe);
      var q :| q in after && SameKey(q, probe);
    }
  }

  lemma {:induction false} OneSpanMore(rows: seq<Row>, row: Row, t: Table)
    requires row.OrganizationRow?
    ensures var (all, fact) := (Upsert(rows, row), row.fact);
            && SpansIn(all, fact) == SpansIn(rows, fact) + {(row.block, row.start, row.end)}
            && Count(all, t) - Count(rows, t)
               == if t == DeliveryRoleOrganization then |SpansIn(all, fact)| - |SpansIn(rows, fact)| else 0
  {
    assert TableOf(row) == DeliveryRoleOrganization;
    hide Upsert, SpansIn, Count, TableOf;
    SpansUpserted(rows, row, row.fact);
    CountUpserted(rows, row, t);
    OneMoreOrNot(SpansIn(rows, row.fact), (row.block, row.start, row.end));
  }

  lemma RowsGrow(fact: nat, organizations: seq<Organization>) returns (row: Row)
    requires organizations != []
    ensures var (init, last) := (organizations[..|organizations| - 1], organizations[|organizations| - 1]);
            && row.OrganizationRow? && row.fact == fact && (row.block, row.start, row.end) == SpanOf(last)
            && OrganizationRows(fact, organizations) == OrganizationRows(fact, init) + [row]
            && Spans(organizations) == Spans(init) + {SpanOf(last)}
  {
    SpansGrow(organizations);
    var last := organizations[|organizations| - 1];
    row := OrganizationRow(fact, last.block, last.start, last.end, last.value, |organizations| - 1);
  }

  /** Upserting the organizations of a fact inserts one row per span that is new to the fact. */
  lemma {:induction false} OneRowPerSpan(rows: seq<Row>, fact: nat, organizations: seq<Organization>, t: Table)
    ensures var all := UpsertAll(rows, OrganizationRows(fact, organizations));
            && SpansIn(all, fact) == SpansIn(rows, fact) + Spans(organizations)
            && Count(all, t) - Count(rows, t)
               == if t == DeliveryRoleOrganization then |SpansIn(all, fact)| - |SpansIn(rows, fact)| else 0
  {
    if organizations == [] {
      assert SpansIn(rows, fact) + Spans(organizations) == SpansIn(rows, fact);
    } else {
      var init := organizations[..|organizations| - 1];
      OneRowPerSpan(rows, fact, init, t);
      var row := RowsGrow(fact, organizations);
      UpsertOneMore(rows, OrganizationRows(fact, init), row);
      var before := UpsertAll(rows, OrganizationRows(fact, init));
      hide UpsertAll, OrganizationRows, SpansIn, Spans, Count, Upsert;
      OneSpanMore(before, row, t);
    }
  }

  lemma OneMoreOrNot(spans: set<Span>, span: Span)
    ensures |spans + {span}| == |spans| + (if span in spans then 0 else 1)
  {
    if span in spans {
      assert spans + {span} == spans;
    }
  }

  lemma UpsertOneMore(rows: seq<Row>, more: seq<Row>, row: Row)
    ensures UpsertAll(rows, more + [row]) == Upsert(UpsertAll(rows, more), row)
  {
    assert (more + [row])[..|more|] == more;
  }

  lemma SpansGrow(organizations: seq<Organization>)
    requires organizations != []
    ensures Spans(organizations)
            == Spans(organizations[..|organizations| - 1]) + {SpanOf(organizations[|organizations| - 1])}
  {
    assert organizations == organizations[..|organizations| - 1] + [organizations[|organizations| - 1]];
  }

  // ---------------------------------------------------------------- all delivery facts of a profile

  /** The rows of upsert_delivery_roles, in the order in which it goes through the facts. */
  function DeliveryRows(keys: Keys, facts: seq<Fact>): (rows: seq<Row>)
    requires forall f :: f in facts ==> f.id in keys.factIds
    ensures Keyed(rows)
    ensures forall r :: r in rows ==> exists f :: f in facts && FactPk(keys, f.id) == Some(r.fact)
  {
    if facts == [] then []
    else
      var last := facts[|facts| - 1];
      assert facts == facts[..|facts| - 1] + [last];
      DeliveryRows(keys, facts[..|facts| - 1])
        + (if IsDelivery(last) then RowsOf(FactPk(keys, last.id).value, last) else [])
  }

  /** The distinct spans of the organizations, fact by fact. */
  function SpanCount(facts: seq<Fact>): (n: nat) {
    if facts == [] then 0
    else
      var last := facts[|facts| - 1];
      SpanCount(facts[..|facts| - 1]) + (if IsDelivery(last) then |Spans(last.organizations)| else 0)
  }

  lemma {:induction false} UpsertAppend(rows: seq<Row>, a: seq<Row>, b: seq<Row>)
    ensures UpsertAll(rows, a + b) == UpsertAll(UpsertAll(rows, a), b)
  {
    if b == [] {
      assert a + b == a;
    } else {
      UpsertAppend(rows, a, b[..|b| - 1]);
      assert (a + b)[..|a + b| - 1] == a + b[..|b| - 1];
    }
  }

  lemma {:induction false} FreshStays(rows: seq<Row>, more: seq<Row>, fact: nat)
    requires Fresh(rows, fact) && Keyed(more) && forall r :: r in more ==> r.fact != fact
    ensures Fresh(UpsertAll(rows, more), fact)
  {
    hide UpsertAll;
    forall r | r in UpsertAll(rows, more) && (r.RoleRow? || r.OrganizationRow?) ensures r.fact != fact {
      UpsertedExactly(rows, more, r);
    }
  }

  /** A fact that is not there yet gets its role and one row per distinct span. */
  lemma OneFactDelivered(rows: seq<Row>, fact: nat, f: Fact, t: Table)
    requires Fresh(rows, fact)
    ensures Count(UpsertAll(rows, RowsOf(fact, f)), t) - Count(rows, t)
            == (match t case DeliveryRole => 1 case DeliveryRoleOrganization => |Spans(f.organizations)| case _ => 0)
  {
    var role := RoleRow(fact, f.role);
    var organizations := OrganizationRows(fact, f.organizations);
    RoleComesFirst(rows, role);
    CountOne(role, t);
    assert TableOf(role) == DeliveryRole;
    hide UpsertAll, Count, SpansIn, Spans, OrganizationRows, TableOf, Fresh;
    assert RowsOf(fact, f) == [role] + organizations;
    UpsertAppend(rows, [role], organizations);
    CountAppend(rows, [role], t);
    OneRowPerSpan(rows + [role], fact, f.organizations, t);
    assert {} + Spans(f.organizations) == Spans(f.organizations);
  }

  lemma RoleComesFirst(rows: seq<Row>, role: Row)
    requires role.RoleRow? && Fresh(rows, role.fact)
    ensures UpsertAll(rows, [role]) == rows + [role] && SpansIn(rows + [role], role.fact) == {}
  {
    assert [role][..0] == [];
    assert !Holds(rows, role);
    assert UpsertAll(rows, []) == rows;
  }

  lemma FactKeysDiffer(keys: Keys, facts: seq<Fact>)
    requires facts != [] && Distinct(FactIds(facts)) && forall f :: f in facts ==> f.id in keys.factIds
    ensures forall f :: f in facts[..|facts| - 1] ==> FactPk(keys, f.id) != FactPk(keys, facts[|facts| - 1].id)
    ensures Distinct(FactIds(facts[..|facts| - 1]))
  {
    var (n, last) := (|facts| - 1, facts[|facts| - 1]);
    assert last in facts;
    forall f | f in facts[..n] ensures FactPk(keys, f.id) != FactPk(keys, last.id) {
      var i :| 0 <= i < n && facts[i] == f;
      assert FactIds(facts)[i] != FactIds(facts)[n];
    }
    assert FactIds(facts[..n]) == FactIds(facts)[..n];
  }

  /** For facts whose rows are new: one role per delivery fact, and per fact as many organization
      rows as its organizations have distinct spans. */
  lemma {:induction false} DeliveriesAreInserted(rows: seq<Row>, keys: Keys, facts: seq<Fact>, t: Table)
    requires Distinct(FactIds(facts)) && forall f :: f in facts ==> f.id in keys.factIds
    requires forall f :: f in facts ==> Fresh(rows, FactPk(keys, f.id).value)
    ensures Count(UpsertAll(rows, DeliveryRows(keys, facts)), t) - Count(rows, t)
            == (match t
                case DeliveryRole => FactsRowCount(facts, t)
                case DeliveryRoleOrganization => SpanCount(facts)
                case _ => 0)
  {
    hide Fresh, Spans, FactPk, RowsOf, Count, Upsert, IsDelivery;
    if facts != [] {
      var (init, last) := (facts[..|facts| - 1], facts[|facts| - 1]);
      FactKeysDiffer(keys, facts);
      assert facts == init + [last];
      var pk := FactPk(keys, last.id).value;
      var earlier := DeliveryRows(keys, init);
      DeliveriesAreInserted(rows, keys, init, t);
      if IsDelivery(last) {
        FreshStays(rows, earlier, pk);
        UpsertAppend(rows, earlier, RowsOf(pk, last));
        OneFactDelivered(UpsertAll(rows, earlier), pk, last, t);
      } else {
        assert earlier + [] == earlier;
      }
    }
  }

  predicate DistinctSpans(organizations: seq<Organization>) {
    forall i, j :: 0 <= i < j < |organizations| ==> SpanOf(organizations[i]) != SpanOf(organizations[j])
  }

  lemma DistinctSpansGrow(organizations: seq<Organization>)
    requires organizations != []
    ensures var (init, last) := (organizations[..|organizations| - 1], organizations[|organizations| - 1]);
            DistinctSpans(organizations) <==> DistinctSpans(init) && SpanOf(last) !in Spans(init)
  {
    var (init, last) := (organizations[..|organizations| - 1], organizations[|organizations| - 1]);
    hide SpanOf;
    if SpanOf(last) in Spans(init) {
      var o :| o in init && SpanOf(o) == SpanOf(last);
      var i :| 0 <= i < |init| && init[i] == o;
      assert SpanOf(organizations[i]) == SpanOf(organizations[|init|]);
    } else {
      assert forall i :: 0 <= i < |init| ==> init[i] in init && SpanOf(init[i]) in Spans(init);
    }
    if DistinctSpans(organizations) {
      forall i, j | 0 <= i < j < |init| ensures SpanOf(init[i]) != SpanOf(init[j]) {
        assert SpanOf(organizations[i]) != SpanOf(organizations[j]);
      }
    }
  }

  lemma {:induction false} SpansAreCounted(organizations: seq<Organization>)
    ensures |Spans(organizations)| <= |organizations|
    ensures |Spans(organizations)| == |organizations| <==> DistinctSpans(organizations)
  {
    if organizations == [] {
      assert Spans(organizations) == {};
    } else {
      var (init, last) := (organizations[..|organizations| - 1], organizations[|organizations| - 1]);
      hide Spans, DistinctSpans;
      SpansAreCounted(init);
      SpansGrow(organizations);
      DistinctSpansGrow(organizations);
      OneMoreOrNot(Spans(init), SpanOf(last));
    }
  }

  /** The importer inserts as many organization rows as the validator and the verifier count
      exactly when within each delivery fact no exact span repeats. */
  lemma {:induction false} OrganizationsAreCountedExactly(facts: seq<Fact>)
    ensures SpanCount(facts) <= FactsRowCount(facts, DeliveryRoleOrganization)
    ensures SpanCount(facts) == FactsRowCount(facts, DeliveryRoleOrganization)
            <==> forall f :: f in facts && IsDelivery(f) ==> DistinctSpans(f.organizations)
  {
    hide Spans, DistinctSpans;
    if facts != [] {
      var (init, last) := (facts[..|facts| - 1], facts[|facts| - 1]);
      assert facts == init + [last];
      OrganizationsAreCountedExactly(init);
      SpansAreCounted(last.organizations);
    }
  }
}
