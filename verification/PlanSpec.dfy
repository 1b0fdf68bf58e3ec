/**
 * What the reconciliation plan of an input is: the specification that the step-by-step builder in
 * PlanBuilder.dfy is proved to compute, and that the theorems in PlanTheorems.dfy are about.
 */
module PlanSpec {
  import opened Wrappers
  import opened Ordering
  import opened Text
  import opened Reachability
  import opened ReconciliationModel
  import opened Partition

  datatype Input = Input(
    zone: string, fromPolicy: string, toPolicy: string, limit: int, total: int,
    highWater: HighWater, candidates: seq<Candidate>, givenTaints: set<Taint>
  )

  function Expected(i: Input): int { Min(i.total, i.limit) }

  /** The checks made before any candidate is looked at, in order. */
  function InputError(i: Input): Option<BuildError> {
    if !IsZoneId(i.zone) || !IsPolicyId(i.fromPolicy) || !IsPolicyId(i.toPolicy) then Some(InvalidIdentifier)
    else if i.limit < 1 || i.limit > 200 then Some(InvalidLimit)
    else if !IsSafeInteger(i.total) then Some(InvalidTotal)
    else if |i.candidates| != i.total && |i.candidates| != Expected(i) then Some(CandidateSetMismatch)
    else None
  }

  /** The candidates a plan is made of: sorted, then cut to the expected number. */
  function Chosen(i: Input): seq<Candidate> {
    Take(SortBy(i.candidates, CandidateBefore), Expected(i))
  }

  ghost function Attach(bases: seq<Base>, cs: seq<Candidate>, digest: Digest): seq<Entry> {
    seq(|bases|, k requires 0 <= k < |bases| => Entry(bases[k], ComponentId(bases, cs, bases[k].source, digest)))
  }

  // ----- the causes of taint -----

  /** The components of the entries that satisfy `p`. */
  ghost function Where(es: seq<Entry>, p: Entry -> bool): set<string> {
    set e | e in es && p(e) :: e.component
  }

  predicate SharesWithEligible(es: seq<Entry>, e: Entry) {
    exists o :: o in es && !IsUnchanged(o) && o.component == e.component
  }

  /** An unsafe entry in one component with an eligible one. */
  function Overlapping(es: seq<Entry>): Entry -> bool {
    e => IsUnchanged(e) && SharesWithEligible(es, e)
  }

  /** The entries that write to `target`, in order. */
  function WritesTo(es: seq<Entry>, target: Id): seq<Entry> {
    if es == [] then []
    else (if IsWrite(es[0]) && es[0].base.target == Some(target) then [es[0]] else []) + WritesTo(es[1..], target)
  }

  function Conflicting(es: seq<Entry>): Entry -> bool {
    e => IsWrite(e) && e.base.target.Some? && |WritesTo(es, e.base.target.value)| >= 2
  }

  /** `new Map(candidates.map(...)).get(source)`: the last candidate with this source. */
  function LastCandidate(cs: seq<Candidate>, source: Id): Option<Candidate> {
    if cs == [] then None
    else if cs[|cs| - 1].source == source then Some(cs[|cs| - 1])
    else LastCandidate(cs[..|cs| - 1], source)
  }

  predicate SubjectMismatch(c: Option<Candidate>, b: Base) {
    && c.Some? && c.value.subject.Some?
    && (
      || (c.value.targetSubject.Some? && c.value.targetSubject != c.value.subject)
      || (b.replacement.Some? && c.value.replacementSubject.Some?
          && c.value.replacementSubject != c.value.subject)
    )
  }

  function Mismatched(cs: seq<Candidate>): Entry -> bool {
    e => !IsUnchanged(e) && SubjectMismatch(LastCandidate(cs, e.base.source), e.base)
  }

  /** `candidates.flatMap((candidate) => candidate.supersession_relations ?? [])` */
  function RelationEdges(cs: seq<Candidate>): seq<(Id, Id)> {
    if cs == [] then [] else cs[0].relations + RelationEdges(cs[1..])
  }

  predicate Plans(e: Entry) { IsWrite(e) && e.base.target.Some? && e.base.replacement.Some? }

  /** The edge from target to replacement of every planned replacement. */
  function PlannedEdges(es: seq<Entry>): seq<(Id, Id)> {
    if es == [] then []
    else
      var edge := if Plans(es[0]) then [(es[0].base.target.value, es[0].base.replacement.value)] else [];
      edge + PlannedEdges(es[1..])
  }

  function Edges(es: seq<Entry>, cs: seq<Candidate>): seq<(Id, Id)> { RelationEdges(cs) + PlannedEdges(es) }

  /** The replacement already leads back to the target. */
  ghost predicate ClosesCycle(E: set<(Id, Id)>, b: Base) {
    b.replacement.Some? && b.target.Some? && Reach(E, b.replacement.value, b.target.value)
  }

  ghost function CycleClosing(E: set<(Id, Id)>): Entry -> bool {
    e => !IsUnchanged(e) && ClosesCycle(E, e.base)
  }

  function FirstEntry(es: seq<Entry>, source: Id): Option<Entry> {
    if es == [] then None
    else if es[0].base.source == source then Some(es[0])
    else FirstEntry(es[1..], source)
  }

  predicate Unproved(c: Candidate) { c.conformanceProved == Some(false) }

  /** The components of the entries whose candidate failed its conformance proof. */
  ghost function UnprovedComponents(es: seq<Entry>, cs: seq<Candidate>): set<string> {
    set c | c in cs && Unproved(c) && FirstEntry(es, c.source).Some? :: FirstEntry(es, c.source).value.component
  }

  /** The components each kind of cause lies in. */
  datatype Causes = Causes(
    overlap: set<string>, conflict: set<string>, mismatch: set<string>, cycle: set<string>, unproved: set<string>)

  ghost function CausesOf(es: seq<Entry>, cs: seq<Candidate>): Causes {
    Causes(
      Where(es, Overlapping(es)), Where(es, Conflicting(es)), Where(es, Mismatched(cs)),
      Where(es, CycleClosing(Elements(Edges(es, cs)))), UnprovedComponents(es, cs))
  }

  function CausalSet(c: Causes): set<string> { c.overlap + c.conflict + c.mismatch + c.cycle + c.unproved }

  /** Every component that some cause of taint lies in. */
  ghost function Causal(es: seq<Entry>, cs: seq<Candidate>): set<string> { CausalSet(CausesOf(es, cs)) }

  /** The taint an unsafe entry of a causal component stands for. */
  function ReasonTaint(r: Reason): Option<Taint> {
    match r
    case ImportedUnsafe => Some(EligibleImportedSharedLineage)
    case CycleUnsafe => Some(EligibleReachableCycle)
    case ZoneUnsafe => Some(EligibleCrossZone)
    case ConflictingIntentUnsafe => Some(ConflictingEligibleIntent)
    case _ => None
  }

  predicate Influences(e: Entry, causal: set<string>) {
    IsUnchanged(e) && e.component in causal && ReasonTaint(e.base.reason).Some?
  }

  ghost function InfluenceTaints(es: seq<Entry>, causal: set<string>): set<Taint> {
    set e | e in es && Influences(e, causal) :: ReasonTaint(e.base.reason).value
  }

  function If(condition: bool, taints: set<Taint>): set<Taint> { if condition then taints else {} }

  function CauseTaints(i: Input, c: Causes): set<Taint> {
    i.givenTaints
    + If(i.total > i.limit, {IncompleteEnumeration})
    + If(c.overlap != {}, {EligibleUnsafeOverlap, UnsafeInfluencesEligible})
    + If(c.conflict != {}, {ConflictingEligibleIntent})
    + If(c.mismatch != {}, {EligibleSubjectUncertainty})
    + If(c.cycle != {}, {EligibleReachableCycle})
    + If(c.unproved != {}, {UnprovedConformance})
  }

  ghost function Taints(i: Input, es: seq<Entry>, cs: seq<Candidate>): set<Taint> {
    CauseTaints(i, CausesOf(es, cs)) + InfluenceTaints(es, Causal(es, cs))
  }

  // ----- the plan -----

  function SourcesIn(es: seq<Entry>, causal: set<string>): seq<Id> {
    if es == [] then []
    else (if es[0].component in causal then [es[0].base.source] else []) + SourcesIn(es[1..], causal)
  }

  ghost function ReasonRows(es: seq<Entry>): seq<(Reason, nat)> {
    var rs := OrderBy(Reasons(es), ReasonBefore);
    seq(|rs|, k requires 0 <= k < |rs| => (rs[k], Count(es, HasReason(rs[k]))))
  }

  ghost function CountsOf(es: seq<Entry>): Counts {
    Counts(
      Count(es, IsWrite), Count(es, IsNoop), Count(es, IsUnchanged),
      Count(es, IsReplace), Count(es, IsInvalidate), Count(es, IsAlreadyApplied), ReasonRows(es))
  }

  ghost function Assemble(i: Input, es: seq<Entry>, cs: seq<Candidate>): Plan {
    var taints, causal := Taints(i, es, cs), Causal(es, cs);
    Plan(
      i.zone, i.fromPolicy, i.toPolicy, i.limit, i.total, |es|, i.total > i.limit, i.highWater, CountsOf(es),
      taints == {}, OrderBy(taints, TaintBefore), OrderBy(causal, Less), SortBy(SourcesIn(es, causal), Less), es)
  }

  ghost function EntriesOf(bases: seq<Base>, cs: seq<Candidate>, digest: Digest): seq<Entry> {
    SortBy(Attach(bases, cs, digest), EntryBefore)
  }

  ghost function DraftOf(i: Input, cs: seq<Candidate>, bases: seq<Base>, digest: Digest): Plan {
    Assemble(i, EntriesOf(bases, cs, digest), cs)
  }

  /** The plan before its own validator sees it. */
  ghost function Draft(i: Input, bases: seq<Base>, digest: Digest): Plan { DraftOf(i, Chosen(i), bases, digest) }

  /** The planner validates its own draft. */
  ghost function Judged(draft: Plan): Result<Plan, BuildError> {
    if ValidPlan(draft) then Ok(draft) else Err(PlanRejected)
  }

  /** What comes of these chosen candidates. */
  ghost function Outcome(i: Input, cs: seq<Candidate>, digest: Digest): Result<Plan, BuildError> {
    match ClassifyAll(cs)
    case Err(e) => Err(e)
    case Ok(bases) =>
      if !Mentionable(bases, cs) then Err(InvalidIdentifier)
      else Judged(DraftOf(i, cs, bases, digest))
  }

  ghost function BuildSpec(i: Input, digest: Digest): Result<Plan, BuildError> {
    if InputError(i).Some? then Err(InputError(i).value) else Outcome(i, Chosen(i), digest)
  }
}
