/** The CPL facts that FIT works on, and the ids it knows them by (backend/worker/fit.py). */
module FitFacts {
  import opened Wrappers
  import Numerals
  import Q = FitQuantities

  datatype Path =
    | PurposeGoal | SupportTarget | Beneficiary
    | EligibilityConditions | ParticipationRequirements | Exclusions
    | SupportActivities | SupportMethods | SupportItems
    | ExpectedEffect | PerformanceIndicator
    | SupportContent | SupportScale
    | DeliveryRelations | DeliveryMethods
    | HierarchyNodes | OtherPath

  datatype Member = NoMember | Actor | Role | Action(index: Option<nat>)
  datatype PurposeAxis = TargetCondition | SpecificObjective | Direction | UnknownAxis

  /** A CPL fact; an empty id is an absent one. A fact may belong to a programme node; the facts of
      the hierarchy are the nodes themselves, with their parent and the rank of their level. A
      readable fact is one whose value is text that is not blank. */
  datatype Fact = Fact(path: Path, factId: string, relationId: string, member: Member, evidenceRef: string,
                       axis: Option<PurposeAxis>, block: Option<string>, component: Option<string>,
                       quantities: seq<Q.Span>,
                       node: string, parent: string, level: Option<nat>, readable: bool)

  // ---------------------------------------------------------------- ids

  /** _fit_fact_id: delivery members by their place in the relation, the rest by their own id. */
  function FitFactId(f: Fact): (id: string) {
    if f.relationId != "" && f.member == Actor then f.relationId + ".actor"
    else if f.relationId != "" && f.member == Role then f.relationId + ".role"
    else if f.relationId != "" && f.member.Action? && f.member.index.Some? then
      f.relationId + ".actions[" + Numerals.Digits(f.member.index.value) + "]"
    else if f.factId != "" then f.factId
    else f.evidenceRef
  }

  /** _base_id: what stands before the first dot. */
  function BaseId(id: string): (base: string)
    ensures '.' !in base
    ensures base <= id
    ensures base == id || base + "." <= id
  {
    if id == "" || id[0] == '.' then "" else [id[0]] + BaseId(id[1..])
  }
}
