/** FIT judging: one bounded repair loop against a model that may answer anything, and the
    seven-relation report built around it (backend/worker/fit.py, backend/worker/llm_call.py). */
module FitJudging {
  import opened Wrappers
  import Q = FitQuantities

  datatype Relation = Fit1 | Fit2 | Fit3 | Fit4 | Fit5 | Fit6 | Fit7

  const RELATIONS: seq<Relation> := [Fit1, Fit2, Fit3, Fit4, Fit5, Fit6, Fit7]

  const LLM_INVALID_RESPONSE := "LLM_INVALID_RESPONSE"
  const SELF_COMPARISON := "SELF_COMPARISON"
  const EVIDENCE_REF_UNRESOLVED := "EVIDENCE_REF_UNRESOLVED"
  const NO_CONDITIONS_SPECIFIED := "NO_CONDITIONS_SPECIFIED"
  const PURPOSE_AXIS_UNRESOLVED := "PURPOSE_AXIS_UNRESOLVED"

  /** A relation id or a status as the model spells it. */
  datatype Spelled<T> = Known(value: T) | Foreign(text: string)

  /** A row that passes the row schema. */
  datatype Row = Row(relation: Spelled<Relation>, status: Spelled<Q.Status>, reason: Option<string>,
                     left: seq<string>, right: seq<string>)

  /** A row of a rejected batch: no id at all, an id with a schema violation, or a good row. */
  datatype RawRow = NoId | BrokenRow(relation: Spelled<Relation>) | GoodRow(row: Row)

  /** The body behind a rejected batch, if it is an object with a list under the envelope key. */
  datatype Body = NotAnObject | NoEnvelope | Envelope(rows: seq<RawRow>)

  /** What one call yields: a schema-conforming batch or a port error. */
  datatype Reply = Answered(rows: seq<Row>) | Failed(reason: string, body: Body)

  datatype Verdict = Verdict(status: Q.Status, reason: Option<string>, left: seq<string>, right: seq<string>)

  /** A side of a comparison by the ids of its facts. */
  type Side = seq<string>
  datatype Sides = Sides(left: Side, right: Side)

  // ---------------------------------------------------------------- salvage_rows

  datatype Salvaged = Salvaged(parsed: seq<Row>, broken: seq<Spelled<Relation>>, dropped: nat)

  function Salvage(rows: seq<RawRow>): (s: Salvaged) {
    if rows == [] then Salvaged([], [], 0)
    else
      var init := Salvage(rows[..|rows| - 1]);
      match rows[|rows| - 1]
      case NoId => init.(dropped := init.dropped + 1)
      case BrokenRow(id) => init.(broken := init.broken + [id])
      case GoodRow(row) => init.(parsed := init.parsed + [row])
  }

  /** Salvage loses no row: every raw row is parsed, broken or dropped ... */
  lemma {:induction false} SalvageAccountsForEveryRow(rows: seq<RawRow>)
    ensures var s := Salvage(rows); |s.parsed| + |s.broken| + s.dropped == |rows|
  {
    if rows != [] {
      SalvageAccountsForEveryRow(rows[..|rows| - 1]);
    }
  }

  /** ... and invents none: the parsed rows are the good ones, the broken ids those of the
      identifiable bad ones, with their repeats, and the count is that of the rows without id. */
  lemma {:induction false} SalvageInventsNothing(rows: seq<RawRow>, row: Row, id: Spelled<Relation>)
    ensures multiset(Salvage(rows).parsed)[row] == multiset(rows)[GoodRow(row)]
    ensures multiset(Salvage(rows).broken)[id] == multiset(rows)[BrokenRow(id)]
    ensures Salvage(rows).dropped == multiset(rows)[NoId]
  {
    if rows != [] {
      var init, last := rows[..|rows| - 1], rows[|rows| - 1];
      SalvageInventsNothing(init, row, id);
      assert rows == init + [last];
      OneMoreCounted(init, last, GoodRow(row));
      OneMoreCounted(init, last, BrokenRow(id));
      OneMoreCounted(init, last, NoId);
      var s := Salvage(init);
      hide Salvage;
      match last {
        case NoId =>
        case BrokenRow(other) => OneMoreCounted(s.broken, other, id);
        case GoodRow(other) => OneMoreCounted(s.parsed, other, row);
      }
    }
  }

  lemma OneMoreCounted<T>(s: seq<T>, last: T, t: T)
    ensures multiset(s + [last])[t] == multiset(s)[t] + (if last == t then 1 else 0)
  {
  }

  method SalvageRows(body: Body) returns (s: Option<Salvaged>)
    ensures s == if body.Envelope? then Some(Salvage(body.rows)) else None
  {
    if !body.Envelope? { return None; }
    var rows := body.rows;
    var parsed: seq<Row>, broken: seq<Spelled<Relation>>, dropped := [], [], 0;
    for i := 0 to |rows|
      invariant Salvaged(parsed, broken, dropped) == Salvage(rows[..i])
    {
      assert rows[..i + 1][..i] == rows[..i];
      match rows[i] {
        case NoId => dropped := dropped + 1;
        case BrokenRow(id) => broken := broken + [id];
        case GoodRow(row) => parsed := parsed + [row];
      }
    }
    assert rows[..|rows|] == rows;
    s := Some(Salvaged(parsed, broken, dropped));
  }

  // ---------------------------------------------------------------- one row, one reply

  /** _validate_verdict: a verdict for this relation, or what is wrong with the row. */
  function ValidateVerdict(row: Row, sides: Sides, known: string -> bool): (r: Result<Verdict>) {
    match row.status
    case Foreign(_) => Err("unknown status")
    case Known(status) =>
      if status == Q.NotApplicable then Err("the model cannot decide NOT_APPLICABLE")
      else if exists id :: id in row.left + row.right && id !in sides.left + sides.right then
        Err("reference outside the sides")
      else if (exists id :: id in row.left && id !in sides.left)
           || (exists id :: id in row.right && id !in sides.right) then
        Result<Verdict>.Err("reference on the wrong side")
      else if status != Q.Insufficient && (row.left == [] || row.right == []) then
        Result<Verdict>.Err("one side is not cited")
      else
        var reason := if row.reason.Some? && known(row.reason.value) then row.reason else None;
        Ok(Verdict(status, reason, row.left, row.right))
  }

  /** A row with its id; no row means the id was readable but the row broke the schema. */
  datatype Identified = Identified(relation: Spelled<Relation>, row: Option<Row>)

  function IdentifiedRows(parsed: seq<Row>, broken: seq<Spelled<Relation>>): (rows: seq<Identified>) {
    seq(|parsed|, i requires 0 <= i < |parsed| => Identified(parsed[i].relation, Some(parsed[i])))
    + seq(|broken|, i requires 0 <= i < |broken| => Identified(broken[i], None))
  }

  /** The identifiable rows of a reply, or None when the whole call has failed. */
  function Readable(reply: Reply): (rows: Option<seq<Identified>>) {
    match reply
    case Answered(rows) => Some(IdentifiedRows(rows, []))
    case Failed(_, Envelope(raw)) => Some(IdentifiedRows(Salvage(raw).parsed, Salvage(raw).broken))
    case Failed(_, _) => None
  }

  /** The rows that name a relation, in order. */
  function Naming(rows: seq<Identified>, relation: Relation): (named: seq<Identified>)
    ensures forall row :: row in named <==> row in rows && row.relation == Known(relation)
  {
    if rows == [] then []
    else
      var init := Naming(rows[..|rows| - 1], relation);
      if rows[|rows| - 1].relation == Known(relation) then init + [rows[|rows| - 1]] else init
  }

  /** What a reply says about one relation: it is accepted only if exactly one row names it,
      that row kept the schema, and the row is a valid verdict on the relation's own sides. */
  function Judge(rows: seq<Identified>, relation: Relation, sides: Sides, known: string -> bool): (r: Result<Verdict>) {
    var named := Naming(rows, relation);
    if Identified(Known(relation), None) in named then Err("a response row broke the schema")
    else if named == [] then Err("the relation is missing from the response")
    else if |named| > 1 then Err("the relation is duplicated in the response")
    else
      assert named[0] in named;
      ValidateVerdict(named[0].row.value, sides, known)
  }

  /** A row is a verdict exactly when its status is one the model may give and every citation is
      from the side it stands on, with both sides cited unless the status is INSUFFICIENT; it keeps
      the row's status and citations, and its reason if the code is known. */
  lemma ValidVerdictsAreGrounded(row: Row, sides: Sides, known: string -> bool)
    ensures ValidateVerdict(row, sides, known).Ok?
            <==> && row.status.Known? && row.status.value != Q.NotApplicable
                 && (forall id :: id in row.left ==> id in sides.left)
                 && (forall id :: id in row.right ==> id in sides.right)
                 && (row.status.value == Q.Insufficient || (row.left != [] && row.right != []))
    ensures forall v :: ValidateVerdict(row, sides, known) == Ok(v) ==>
              && v.status == row.status.value && v.left == row.left && v.right == row.right
              && (forall code :: v.reason == Some(code) <==> row.reason == Some(code) && known(code))
  {
    assert forall id :: id in row.left + row.right <==> id in row.left || id in row.right;
    assert forall id :: id in sides.left + sides.right <==> id in sides.left || id in sides.right;
  }

  ghost predicate OnlyOneNames(rows: seq<Identified>, relation: Relation, i: nat) {
    && i < |rows| && rows[i].relation == Known(relation)
    && forall j :: 0 <= j < |rows| && rows[j].relation == Known(relation) ==> j == i
  }

  /** A relation is accepted exactly when one row of the reply names it and no other does, broken
      rows included, and that row is whole and a valid verdict on the relation's sides. */
  lemma AcceptedExactly(rows: seq<Identified>, relation: Relation, sides: Sides, known: string -> bool,
                        verdict: Verdict)
    ensures Judge(rows, relation, sides, known) == Ok(verdict)
            <==> exists i: nat :: && OnlyOneNames(rows, relation, i) && rows[i].row.Some?
                                  && ValidateVerdict(rows[i].row.value, sides, known) == Ok(verdict)
  {
    var named := Naming(rows, relation);
    NamedOnce(rows, relation);
    hide ValidateVerdict, Naming;
    if |named| == 1 {
      var i: nat :| OnlyOneNames(rows, relation, i);
      assert named == [rows[i]];
      assert named[0] in named;
      assert rows[i].row.None? ==> rows[i] == Identified(Known(relation), None);
    }
  }

  lemma {:induction false} NamingAppend(a: seq<Identified>, b: seq<Identified>, relation: Relation)
    ensures Naming(a + b, relation) == Naming(a, relation) + Naming(b, relation)
  {
    if b == [] {
      assert a + b == a;
    } else {
      var init := b[..|b| - 1];
      NamingAppend(a, init, relation);
      assert (a + b)[..|a + b| - 1] == a + init;
    }
  }

  /** The rows that name a relation, seen from one position. */
  lemma NamingAround(rows: seq<Identified>, relation: Relation, i: nat)
    requires i < |rows|
    ensures Naming(rows, relation)
            == Naming(rows[..i], relation) + Naming([rows[i]], relation) + Naming(rows[i + 1..], relation)
  {
    assert rows == rows[..i] + [rows[i]] + rows[i + 1..];
    NamingAppend(rows[..i] + [rows[i]], rows[i + 1..], relation);
    NamingAppend(rows[..i], [rows[i]], relation);
  }

  lemma {:induction false} NobodyNames(rows: seq<Identified>, relation: Relation)
    ensures Naming(rows, relation) == [] <==> forall j :: 0 <= j < |rows| ==> rows[j].relation != Known(relation)
  {
    var named := Naming(rows, relation);
    if named != [] {
      assert named[0] in named;
    }
    if j :| 0 <= j < |rows| && rows[j].relation == Known(relation) {
      assert rows[j] in named;
    }
  }

  lemma NamedOnceAt(rows: seq<Identified>, relation: Relation, i: nat)
    requires i < |rows| && rows[i].relation == Known(relation)
    ensures |Naming(rows, relation)| == 1 <==> OnlyOneNames(rows, relation, i)
    ensures |Naming(rows, relation)| == 1 ==> Naming(rows, relation) == [rows[i]]
  {
    var (before, after) := (rows[..i], rows[i + 1..]);
    NamingAround(rows, relation, i);
    assert Naming([rows[i]], relation) == [rows[i]];
    NobodyNames(before, relation);
    NobodyNames(after, relation);
    hide Naming;
    if j :| 0 <= j < i && rows[j].relation == Known(relation) {
      assert before[j] == rows[j];
    }
    if j :| i < j < |rows| && rows[j].relation == Known(relation) {
      assert after[j - i - 1] == rows[j];
    }
  }

  lemma NamedOnce(rows: seq<Identified>, relation: Relation)
    ensures |Naming(rows, relation)| == 1 ==> exists i: nat :: OnlyOneNames(rows, relation, i)
    ensures forall i: nat :: OnlyOneNames(rows, relation, i) ==> Naming(rows, relation) == [rows[i]]
  {
    hide Naming;
    NobodyNames(rows, relation);
    forall i: nat | OnlyOneNames(rows, relation, i) ensures Naming(rows, relation) == [rows[i]] {
      NamedOnceAt(rows, relation, i);
    }
    if |Naming(rows, relation)| == 1 {
      var i :| 0 <= i < |rows| && rows[i].relation == Known(relation);
      NamedOnceAt(rows, relation, i);
    }
  }

  /** Isolation: a row about another relation, wherever it stands in the reply and whatever is
      wrong with it, changes nothing for this one. */
  lemma OtherRowsDoNotMatter(before: seq<Identified>, row: Identified, after: seq<Identified>, relation: Relation,
                             sides: Sides, known: string -> bool)
    requires row.relation != Known(relation)
    ensures Judge(before + [row] + after, relation, sides, known) == Judge(before + after, relation, sides, known)
  {
    NamingAppend(before + [row], after, relation);
    NamingAppend(before, [row], relation);
    NamingAppend(before, after, relation);
    assert Naming([row], relation) == [];
    assert Naming(before, relation) + [] == Naming(before, relation);
  }

  // ---------------------------------------------------------------- the repair loop

  type Errors = map<Relation, string>
  type Verdicts = map<Relation, Verdict>

  /** The model: any function of the attempt number and of what it is asked. */
  type Model = (nat, seq<Relation>, Errors) -> Reply

  datatype Judging = Judging(verdicts: Verdicts, replies: seq<Reply>)

  function Rejected(rows: seq<Identified>, remaining: seq<Relation>, sides: map<Relation, Sides>, known: string -> bool)
    : (rejected: seq<Relation>)
    requires forall r :: r in remaining ==> r in sides
    ensures forall r :: r in rejected <==> r in remaining && Judge(rows, r, sides[r], known).Err?
    ensures |rejected| <= |remaining|
  {
    if remaining == [] then []
    else
      var last := remaining[|remaining| - 1];
      assert remaining == remaining[..|remaining| - 1] + [last];
      var init := Rejected(rows, remaining[..|remaining| - 1], sides, known);
      if Judge(rows, last, sides[last], known).Err? then init + [last] else init
  }

  function Accepted(rows: seq<Identified>, remaining: seq<Relation>, sides: map<Relation, Sides>, known: string -> bool)
    : (accepted: Verdicts)
    requires forall r :: r in remaining ==> r in sides
  {
    map r | r in remaining && Judge(rows, r, sides[r], known).Ok? :: Judge(rows, r, sides[r], known).value
  }

  function ErrorsOf(rows: seq<Identified>, remaining: seq<Relation>, sides: map<Relation, Sides>, known: string -> bool)
    : (errors: Errors)
    requires forall r :: r in remaining ==> r in sides
  {
    map r | r in remaining && Judge(rows, r, sides[r], known).Err? :: Judge(rows, r, sides[r], known).message
  }

  function GivenUp(remaining: seq<Relation>, reason: string): (verdicts: Verdicts) {
    map r | r in remaining :: Verdict(Q.Insufficient, Some(reason), [], [])
  }

  /** _compare_relations from its (attempt + 1)-th call on. */
  function Repair(model: Model, sides: map<Relation, Sides>, known: string -> bool, remaining: seq<Relation>,
                  errors: Errors,
                  attempt: nat, maxRepairs: int, verdicts: Verdicts): (j: Judging)
    requires forall r :: r in remaining ==> r in sides
    decreases maxRepairs + 1 - attempt
  {
    if remaining == [] || attempt > maxRepairs then Judging(verdicts + GivenUp(remaining, LLM_INVALID_RESPONSE), [])
    else
      var reply := model(attempt + 1, remaining, errors);
      match Readable(reply)
      case None => Judging(verdicts + GivenUp(remaining, reply.reason), [reply])
      case Some(rows) =>
        var rest := Repair(model, sides, known, Rejected(rows, remaining, sides, known),
             ErrorsOf(rows, remaining, sides, known),
                           attempt + 1, maxRepairs, verdicts + Accepted(rows, remaining, sides, known));
        Judging(rest.verdicts, [reply] + rest.replies)
  }

  // ---------------------------------------------------------------- the loop as the source runs it

  /** The last good row of those that name a relation: what rows[relation_id] = row leaves. */
  function LastGood(named: seq<Identified>): (row: Option<Row>) {
    if named == [] then None
    else if named[|named| - 1].row.Some? then named[|named| - 1].row
    else LastGood(named[..|named| - 1])
  }

  /** The dictionaries seen, rows and invalid_rows of one reply. */
  datatype Index = Index(seen: map<Relation, nat>, rows: map<Relation, Row>, invalid: set<Relation>)

  /** What the three dictionaries hold for one relation, given the rows that name it. */
  ghost predicate Indexes(index: Index, r: Relation, named: seq<Identified>) {
    && (r in index.seen <==> named != [])
    && (r in index.seen ==> index.seen[r] == |named|)
    && (if r in index.rows then Some(index.rows[r]) else None) == LastGood(named)
    && (r in index.invalid <==> Identified(Known(r), None) in named)
  }

  function WithRow(index: Index, r: Relation, row: Option<Row>): (more: Index) {
    var seen := index.seen[r := if r in index.seen then index.seen[r] + 1 else 1];
    if row.None? then Index(seen, index.rows, index.invalid + {r})
    else Index(seen, index.rows[r := row.value], index.invalid)
  }

  lemma {:induction false} OneMoreNamed(rows: seq<Identified>, i: nat, r: Relation)
    requires i < |rows|
    ensures var named := Naming(rows[..i], r);
            Naming(rows[..i + 1], r) == if rows[i].relation == Known(r) then named + [rows[i]] else named
  {
    assert rows[..i + 1][..i] == rows[..i];
  }

  lemma RowIndexed(index: Index, r: Relation, row: Option<Row>, q: Relation, named: seq<Identified>)
    requires Indexes(index, q, named)
    ensures Indexes(WithRow(index, r, row), q, if q == r then named + [Identified(Known(r), row)] else named)
  {
    var more := named + [Identified(Known(r), row)];
    assert more[..|named|] == named;
  }

  method IndexRows(identified: seq<Identified>) returns (index: Index)
    ensures forall r :: Indexes(index, r, Naming(identified, r))
  {
    index := Index(map[], map[], {});
    for i := 0 to |identified|
      invariant forall r :: Indexes(index, r, Naming(identified[..i], r))
    {
      hide Indexes, WithRow, Naming;
      ghost var before := index;
      match identified[i].relation {
        case Foreign(_) =>
        case Known(r) => index := WithRow(index, r, identified[i].row);
      }
      ghost var after := identified[..i + 1];
      forall q ensures Indexes(index, q, Naming(after, q)) {
        OneMoreNamed(identified, i, q);
        if identified[i].relation.Known? {
          RowIndexed(before, identified[i].relation.value, identified[i].row, q, Naming(identified[..i], q));
        }
      }
    }
    assert identified[..|identified|] == identified;
  }

  /** One reply against the remaining relations. */
  method JudgeReply(identified: seq<Identified>, remaining: seq<Relation>, sides: map<Relation, Sides>,
                    known: string -> bool)
    returns (accepted: Verdicts, errors: Errors, rejected: seq<Relation>)
    requires forall r :: r in remaining ==> r in sides
    ensures accepted == Accepted(identified, remaining, sides, known)
    ensures errors == ErrorsOf(identified, remaining, sides, known)
    ensures rejected == Rejected(identified, remaining, sides, known)
  {
    hide ValidateVerdict, Naming, LastGood;
    var index := IndexRows(identified);
    var Index(seen, rows, invalid) := index;
    accepted, errors, rejected := map[], map[], [];
    for i := 0 to |remaining|
      invariant accepted == Accepted(identified, remaining[..i], sides, known)
      invariant errors == ErrorsOf(identified, remaining[..i], sides, known)
      invariant rejected == Rejected(identified, remaining[..i], sides, known)
    {
      var r := remaining[i];
      OneMoreRelation(identified, remaining, i, sides, known);
      OnlyGoodRow(Naming(identified, r), r);
      assert Indexes(index, r, Naming(identified, r));
      var judged: Result<Verdict>;
      if r in invalid {
        judged := Err("a response row broke the schema");
      } else if r !in rows {
        judged := Err("the relation is missing from the response");
      } else if seen[r] > 1 {
        judged := Err("the relation is duplicated in the response");
      } else {
        judged := ValidateVerdict(rows[r], sides[r], known);
      }
      assert judged == Judge(identified, r, sides[r], known);
      match judged {
        case Err(message) =>
          errors := errors[r := message];
          rejected := rejected + [r];
        case Ok(verdict) =>
          accepted := accepted[r := verdict];
      }
    }
    assert remaining[..|remaining|] == remaining;
  }

  lemma OnlyGoodRow(named: seq<Identified>, r: Relation)
    requires forall row :: row in named ==> row.relation == Known(r)
    ensures Identified(Known(r), None) !in named ==> (LastGood(named).None? <==> named == [])
    ensures |named| == 1 ==> LastGood(named) == named[0].row
  {
    if named != [] {
      assert named[|named| - 1] in named;
    }
  }

  lemma OneMoreRelation(rows: seq<Identified>, remaining: seq<Relation>, i: nat, sides: map<Relation, Sides>,
                        known: string -> bool)
    requires i < |remaining| && forall r :: r in remaining ==> r in sides
    ensures var judged := Judge(rows, remaining[i], sides[remaining[i]], known);
            && Accepted(rows, remaining[..i + 1], sides, known)
               == (if judged.Ok? then Accepted(rows, remaining[..i], sides, known)[remaining[i] := judged.value]
                   else Accepted(rows, remaining[..i], sides, known))
            && ErrorsOf(rows, remaining[..i + 1], sides, known)
               == (if judged.Err? then ErrorsOf(rows, remaining[..i], sides, known)[remaining[i] := judged.message]
                   else ErrorsOf(rows, remaining[..i], sides, known))
            && Rejected(rows, remaining[..i + 1], sides, known)
               == (if judged.Err? then Rejected(rows, remaining[..i], sides, known) + [remaining[i]]
                   else Rejected(rows, remaining[..i], sides, known))
  {
    hide Judge;
    var upTo := remaining[..i + 1];
    assert upTo[..i] == remaining[..i] && upTo[i] == remaining[i];
    assert forall r :: r in upTo <==> r in remaining[..i] || r == remaining[i];
  }

  method CompareRelations(model: Model, pending: seq<Relation>, sides: map<Relation, Sides>, known: string -> bool,
                          maxRepairs: int)
    returns (verdicts: Verdicts, replies: seq<Reply>)
    requires forall r :: r in pending ==> r in sides
    ensures Judging(verdicts, replies) == Repair(model, sides, known, pending, map[], 0, maxRepairs, map[])
  {
    hide *;
    verdicts, replies := map[], [];
    var errors: Errors := map[];
    var remaining := pending;
    var attempt := 0;
    ghost var whole := Repair(model, sides, known, pending, map[], 0, maxRepairs, map[]);
    Begun(whole);
    while remaining != [] && attempt <= maxRepairs
      invariant forall r :: r in remaining ==> r in sides
      invariant whole == After(replies, Repair(model, sides, known, remaining, errors, attempt, maxRepairs, verdicts))
      decreases maxRepairs + 1 - attempt
    {
      RepairStep(model, sides, known, remaining, errors, attempt, maxRepairs, verdicts, replies);
      attempt := attempt + 1;
      var reply := model(attempt, remaining, errors);
      var identified := ReadReply(reply);
      if identified.None? {
        verdicts := verdicts + GivenUp(remaining, reply.reason);
        replies := replies + [reply];
        return;
      }
      var accepted;
      accepted, errors, remaining := JudgeReply(identified.value, remaining, sides, known);
      verdicts := verdicts + accepted;
      replies := replies + [reply];
    }
    RepairEnds(model, sides, known, remaining, errors, attempt, maxRepairs, verdicts, replies);
    verdicts := verdicts + GivenUp(remaining, LLM_INVALID_RESPONSE);
  }

  /** The identifiable rows of a reply: those of the batch, or those salvaged from a rejected one. */
  method ReadReply(reply: Reply) returns (identified: Option<seq<Identified>>)
    ensures identified == Readable(reply)
    ensures identified.None? ==> reply.Failed?
  {
    hide Salvage, IdentifiedRows;
    match reply {
      case Answered(rows) => identified := Some(IdentifiedRows(rows, []));
      case Failed(_, body) =>
        var recovered := SalvageRows(body);
        identified := if recovered.None? then None
        else Some(IdentifiedRows(recovered.value.parsed, recovered.value.broken));
    }
  }

  ghost function After(replies: seq<Reply>, rest: Judging): (whole: Judging) {
    Judging(rest.verdicts, replies + rest.replies)
  }

  lemma Begun(whole: Judging)
    ensures After([], whole) == whole
  {
    assert [] + whole.replies == whole.replies;
  }

  lemma RepairEnds(model: Model, sides: map<Relation, Sides>, known: string -> bool, remaining: seq<Relation>,
                   errors: Errors,
                   attempt: nat, maxRepairs: int, verdicts: Verdicts, replies: seq<Reply>)
    requires (forall r :: r in remaining ==> r in sides) && (remaining == [] || attempt > maxRepairs)
    ensures After(replies, Repair(model, sides, known, remaining, errors, attempt, maxRepairs, verdicts))
            == Judging(verdicts + GivenUp(remaining, LLM_INVALID_RESPONSE), replies)
  {
    assert replies + [] == replies;
  }

  lemma RepairStep(model: Model, sides: map<Relation, Sides>, known: string -> bool, remaining: seq<Relation>,
                   errors: Errors,
                   attempt: nat, maxRepairs: int, verdicts: Verdicts, replies: seq<Reply>)
    requires (forall r :: r in remaining ==> r in sides) && remaining != [] && attempt <= maxRepairs
    ensures var reply := model(attempt + 1, remaining, errors);
            After(replies, Repair(model, sides, known, remaining, errors, attempt, maxRepairs, verdicts))
            == match Readable(reply)
               case None => Judging(verdicts + GivenUp(remaining, reply.reason), replies + [reply])
               case Some(rows) =>
                 After(replies + [reply],
                       Repair(model, sides, known, Rejected(rows, remaining, sides, known),
                         ErrorsOf(rows, remaining, sides, known),
                              attempt + 1, maxRepairs, verdicts + Accepted(rows, remaining, sides, known)))
  {
    hide Accepted, Rejected, ErrorsOf, GivenUp, Salvage, IdentifiedRows;
    var reply := model(attempt + 1, remaining, errors);
    var rest := Repair(model, sides, known, remaining, errors, attempt, maxRepairs, verdicts).replies;
    assert rest[0] == reply && rest == [reply] + rest[1..];
    assert replies + ([reply] + rest[1..]) == replies + [reply] + rest[1..];
  }

  // ---------------------------------------------------------------- what the loop guarantees

  ghost function JudgedAt(reply: Reply, r: Relation, sides: Sides, known: string -> bool): (v: Result<Verdict>) {
    match Readable(reply)
    case None => Err("unreadable")
    case Some(rows) => Judge(rows, r, sides, known)
  }

  /** At most max_repairs + 1 calls; exactly one verdict for every relation asked for; a verdict
      that was there before is never altered. */
  lemma {:induction false} RepairIsBoundedAndTotal(model: Model, sides: map<Relation, Sides>, known: string -> bool,
      remaining: seq<Relation>, errors: Errors, attempt: nat, maxRepairs: int, verdicts: Verdicts)
    requires forall r :: r in remaining ==> r in sides
    ensures var j := Repair(model, sides, known, remaining, errors, attempt, maxRepairs, verdicts);
            && (attempt <= maxRepairs + 1 ==> attempt + |j.replies| <= maxRepairs + 1)
            && (attempt > maxRepairs ==> j.replies == [])
            && j.verdicts.Keys == verdicts.Keys + (set r | r in remaining)
            && (forall r :: r in verdicts && r !in remaining ==> j.verdicts[r] == verdicts[r])
    decreases maxRepairs + 1 - attempt
  {
    hide Judge, Salvage, IdentifiedRows;
    if remaining != [] && attempt <= maxRepairs {
      var reply := model(attempt + 1, remaining, errors);
      if Readable(reply).Some? {
        var rows := Readable(reply).value;
        var accepted := Accepted(rows, remaining, sides, known);
        var rejected := Rejected(rows, remaining, sides, known);
        RepairIsBoundedAndTotal(model, sides, known, rejected, ErrorsOf(rows, remaining, sides, known),
                                attempt + 1, maxRepairs, verdicts + accepted);
        assert forall r :: r in remaining <==> r in accepted || r in rejected;
      }
    }
  }

  /** Whatever the model answers, a relation's verdict is the first acceptable one in the replies;
      if none is, it is INSUFFICIENT, either because the last call failed as a whole, with that
      call's reason, or because the repairs ran out. */
  ghost predicate FirstAccepted(replies: seq<Reply>, r: Relation, sides: Sides, known: string -> bool,
                                verdict: Verdict) {
    || (exists k :: 0 <= k < |replies| && JudgedAt(replies[k], r, sides, known) == Ok(verdict)
          && forall m :: 0 <= m < k ==> JudgedAt(replies[m], r, sides, known).Err?)
    || (&& (forall m :: 0 <= m < |replies| ==> JudgedAt(replies[m], r, sides, known).Err?)
        && verdict == Verdict(Q.Insufficient,
             Some(if replies != [] && Readable(replies[|replies| - 1]).None? then replies[|replies| - 1].reason
                  else LLM_INVALID_RESPONSE), [], []))
  }

  lemma {:induction false} VerdictIsFirstAccepted(model: Model, sides: map<Relation, Sides>, known: string -> bool,
      remaining: seq<Relation>, errors: Errors, attempt: nat, maxRepairs: int, verdicts: Verdicts, r: Relation)
    requires r in remaining && forall q :: q in remaining ==> q in sides
    ensures var j := Repair(model, sides, known, remaining, errors, attempt, maxRepairs, verdicts);
            r in j.verdicts && FirstAccepted(j.replies, r, sides[r], known, j.verdicts[r])
    decreases maxRepairs + 1 - attempt
  {
    hide Judge, Salvage, IdentifiedRows;
    RepairIsBoundedAndTotal(model, sides, known, remaining, errors, attempt, maxRepairs, verdicts);
    var j := Repair(model, sides, known, remaining, errors, attempt, maxRepairs, verdicts);
    if attempt <= maxRepairs && Readable(model(attempt + 1, remaining, errors)).Some? {
      var reply := model(attempt + 1, remaining, errors);
      var rows := Readable(reply).value;
      var (accepted, rejected) := (Accepted(rows, remaining, sides, known), Rejected(rows, remaining, sides, known));
      var errors' := ErrorsOf(rows, remaining, sides, known);
      var rest := Repair(model, sides, known, rejected, errors', attempt + 1, maxRepairs, verdicts + accepted);
      RepairIsBoundedAndTotal(model, sides, known, rejected, errors', attempt + 1, maxRepairs, verdicts + accepted);
      if r in rejected {
        VerdictIsFirstAccepted(model, sides, known, rejected, errors', attempt + 1, maxRepairs, verdicts + accepted, r);
        assert FirstAccepted([reply] + rest.replies, r, sides[r], known, rest.verdicts[r]) by {
          Shifted(reply, rest.replies, r, sides[r], known, rest.verdicts[r]);
        }
      } else {
        assert JudgedAt(j.replies[0], r, sides[r], known) == Ok(j.verdicts[r]);
      }
    }
  }

  lemma Shifted(reply: Reply, replies: seq<Reply>, r: Relation, sides: Sides, known: string -> bool, verdict: Verdict)
    requires Readable(reply).Some? && JudgedAt(reply, r, sides, known).Err?
             && FirstAccepted(replies, r, sides, known, verdict)
    ensures FirstAccepted([reply] + replies, r, sides, known, verdict)
  {
    hide JudgedAt, Readable;
    var all := [reply] + replies;
    if k :| 0 <= k < |replies| && JudgedAt(replies[k], r, sides, known) == Ok(verdict)
            && forall m :: 0 <= m < k ==> JudgedAt(replies[m], r, sides, known).Err? {
      assert all[k + 1] == replies[k];
      assert forall m :: 0 < m < k + 1 ==> all[m] == replies[m - 1];
    } else {
      assert forall m :: 0 < m < |all| ==> all[m] == replies[m - 1];
    }
  }
}
