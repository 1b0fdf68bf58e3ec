/**
 * Policy reconciliation: candidates, entries, plans, the classifier and the plan validator.
 */
module ReconciliationModel {
  import opened Wrappers
  import opened Ordering
  import opened Text

  type Id = string

  datatype Reason =
    | Replace | Invalidate | AlreadyApplied
    | SharedMaterializationUnsafe | MissingUnsafe | AmbiguousUnsafe | ImportedUnsafe | SelfUnsafe
    | CycleUnsafe | ZoneUnsafe | LineageUnsafe | ConflictingIntentUnsafe

  datatype Taint =
    | IncompleteEnumeration | UnstableSnapshot | EligibleUnsafeOverlap | ConflictingEligibleIntent
    | EligibleReachableCycle | EligibleImportedSharedLineage | EligibleCrossZone
    | EligibleSubjectUncertainty | UnsafeInfluencesEligible | NonuniqueComponentPartition
    | UnprovedZeroWrite | UnprovedConformance

  datatype Bucket = EligibleWrite | EligibleNoop | UnsafeUnchanged
  datatype Action = DoReplace | DoInvalidate | DoAlreadyApplied | DoNone
  datatype Classification = ClassReplace | ClassInvalidate | ClassAlreadyApplied

  datatype Candidate = Candidate(
    source: Id,
    target: Option<Id>,
    replacement: Option<Id>,
    classification: Option<Classification>,
    unsafeReason: Option<Reason>,
    policyVersion: Option<string>,
    lineage: seq<Id>,
    relations: seq<(Id, Id)>,
    subject: Option<string>,
    targetSubject: Option<string>,
    replacementSubject: Option<string>,
    conformanceProved: Option<bool>
  )

  /** An entry before its component is known. */
  datatype Base = Base(
    source: Id, target: Option<Id>, replacement: Option<Id>, bucket: Bucket, action: Action, reason: Reason
  )

  datatype Entry = Entry(base: Base, component: string)

  datatype HighWater = HighWater(
    canonicalSequence: int, dispositionRows: int, reviewRows: int, outboxId: int, supersessionEvents: int
  )

  datatype Counts = Counts(
    writes: nat, noops: nat, unsafe: nat, replacements: nat, invalidations: nat, alreadyApplied: nat,
    reasons: seq<(Reason, nat)>
  )

  datatype Plan = Plan(
    zone: string, fromPolicy: string, toPolicy: string,
    limit: int, total: int, classified: int, truncated: bool,
    highWater: HighWater, counts: Counts, admissible: bool,
    taintReasons: seq<Taint>, taintComponents: seq<string>, taintEntries: seq<Id>,
    entries: seq<Entry>
  )

  datatype BuildError =
    | InvalidIdentifier | InvalidLimit | InvalidTotal | CandidateSetMismatch
    | InvalidUnsafeReason | SelfRelationRequiresSelfUnsafe | PlanRejected

  // ----- identifiers -----

  predicate LowerOrDigit(c: char) { 'a' <= c <= 'z' || '0' <= c <= '9' }

  predicate IdTail(s: string) {
    forall i :: 0 <= i < |s| ==> LowerOrDigit(s[i]) || s[i] == '_' || s[i] == '-'
  }

  /** `^<prefix>[a-z0-9][a-z0-9_-]{least,most}$` */
  predicate PrefixedId(s: string, prefix: string, least: nat, most: nat) {
    && |prefix| + 1 + least <= |s| <= |prefix| + 1 + most
    && s[..|prefix|] == prefix
    && LowerOrDigit(s[|prefix|])
    && IdTail(s[|prefix| + 1..])
  }

  predicate IsEventId(s: string) { PrefixedId(s, "evt_", 7, 127) }

  predicate IsZoneId(s: string) { PrefixedId(s, "tz_", 2, 63) }

  predicate IsPolicyId(s: string) {
    3 <= |s| <= 64 && 'a' <= s[0] <= 'z' && IdTail(s[1..])
  }

  /** `cmp:` followed by 64 hexadecimal digits. */
  predicate IsComponentId(s: string) {
    |s| == 68 && s[..4] == "cmp:" && forall i :: 4 <= i < 68 ==> '0' <= s[i] <= '9' || 'a' <= s[i] <= 'f'
  }

  const MAX_SAFE_INTEGER := 9007199254740991

  predicate IsSafeInteger(n: int) { 0 <= n <= MAX_SAFE_INTEGER }

  lemma IdsHaveNoSeparator(s: string)
    ensures IsEventId(s) || IsComponentId(s) ==> s != "" && '\0' !in s
  {
    if IsEventId(s) {
      var tail := s[5..];
      assert s == "evt_" + [s[4]] + tail;
      assert forall i :: 0 <= i < |tail| ==> tail[i] != '\0';
    }
    if IsComponentId(s) {
      assert s == "cmp:" + s[4..];
    }
  }

  // ----- spellings, which decide sort order -----

  function ReasonCode(r: Reason): string {
    match r
    case Replace => "replace"
    case Invalidate => "invalidate"
    case AlreadyApplied => "already_applied"
    case SharedMaterializationUnsafe => "shared_materialization_unsafe"
    case MissingUnsafe => "missing_unsafe"
    case AmbiguousUnsafe => "ambiguous_unsafe"
    case ImportedUnsafe => "imported_unsafe"
    case SelfUnsafe => "self_unsafe"
    case CycleUnsafe => "cycle_unsafe"
    case ZoneUnsafe => "zone_unsafe"
    case LineageUnsafe => "lineage_unsafe"
    case ConflictingIntentUnsafe => "conflicting_intent_unsafe"
  }

  function TaintCode(t: Taint): string {
    match t
    case IncompleteEnumeration => "incomplete_enumeration_global_taint"
    case UnstableSnapshot => "unstable_snapshot_global_taint"
    case EligibleUnsafeOverlap => "eligible_unsafe_overlap_global_taint"
    case ConflictingEligibleIntent => "conflicting_eligible_intent_global_taint"
    case EligibleReachableCycle => "eligible_reachable_cycle_global_taint"
    case EligibleImportedSharedLineage => "eligible_imported_shared_lineage_global_taint"
    case EligibleCrossZone => "eligible_cross_zone_global_taint"
    case EligibleSubjectUncertainty => "eligible_subject_uncertainty_global_taint"
    case UnsafeInfluencesEligible => "unsafe_influences_eligible_global_taint"
    case NonuniqueComponentPartition => "nonunique_component_partition_global_taint"
    case UnprovedZeroWrite => "unproved_zero_write_global_taint"
    case UnprovedConformance => "unproved_conformance_global_taint"
  }

  function BucketCode(b: Bucket): string {
    match b
    case EligibleWrite => "eligible_write"
    case EligibleNoop => "eligible_noop"
    case UnsafeUnchanged => "unsafe_unchanged"
  }

  function ActionCode(a: Action): string {
    match a
    case DoReplace => "replace"
    case DoInvalidate => "invalidate"
    case DoAlreadyApplied => "already_applied"
    case DoNone => "none"
  }

  lemma ReasonCodesDiffer(a: Reason, b: Reason)
    requires ReasonCode(a) == ReasonCode(b)
    ensures a == b
  {
    assert |ReasonCode(a)| == |ReasonCode(b)| && ReasonCode(a)[0] == ReasonCode(b)[0];
  }

  /** Length tells the twelve taint codes apart, but for one pair. */
  function TaintLength(t: Taint): (n: nat)
    ensures n == |TaintCode(t)|
  {
    match t
    case IncompleteEnumeration => 35
    case UnstableSnapshot => 30
    case EligibleUnsafeOverlap => 36
    case ConflictingEligibleIntent => 40
    case EligibleReachableCycle => 37
    case EligibleImportedSharedLineage => 45
    case EligibleCrossZone => 32
    case EligibleSubjectUncertainty => 41
    case UnsafeInfluencesEligible => 39
    case NonuniqueComponentPartition => 42
    case UnprovedZeroWrite => 32
    case UnprovedConformance => 33
  }

  lemma TaintCodesDiffer(a: Taint, b: Taint)
    requires TaintCode(a) == TaintCode(b)
    ensures a == b
  {
    assert TaintLength(a) == TaintLength(b);
    assert TaintCode(EligibleCrossZone)[0] != TaintCode(UnprovedZeroWrite)[0];
  }

  predicate ReasonBefore(a: Reason, b: Reason) { Less(ReasonCode(a), ReasonCode(b)) }

  predicate TaintBefore(a: Taint, b: Taint) { Less(TaintCode(a), TaintCode(b)) }

  function OrEmpty(o: Option<string>): string {
    match o case None => "" case Some(s) => s
  }

  predicate CandidateBefore(a: Candidate, b: Candidate) {
    || Less(a.source, b.source)
    || (a.source == b.source && Less(OrEmpty(a.policyVersion), OrEmpty(b.policyVersion)))
  }

  function KeyFields(e: Entry): seq<string> {
    [e.base.source, BucketCode(e.base.bucket), ActionCode(e.base.action), OrEmpty(e.base.target),
     OrEmpty(e.base.replacement), ReasonCode(e.base.reason), e.component]
  }

  function EntryKey(e: Entry): string { Join(KeyFields(e)) }

  predicate EntryBefore(a: Entry, b: Entry) { Less(EntryKey(a), EntryKey(b)) }

  lemma ReasonsOrder()
    ensures TotalOrder(ReasonBefore)
  {
    forall a: Reason, b: Reason, c: Reason ensures Ranks(ReasonBefore, a, b, c) {
      KeysOrder(ReasonCode(a), ReasonCode(b), ReasonCode(c));
    }
    forall a: Reason, b: Reason ensures Apart(ReasonBefore, a, b) {
      KeysOrder(ReasonCode(a), ReasonCode(b), ReasonCode(a));
      if ReasonCode(a) == ReasonCode(b) {
        ReasonCodesDiffer(a, b);
      }
    }
  }

  lemma TaintsOrder()
    ensures TotalOrder(TaintBefore)
  {
    forall a: Taint, b: Taint, c: Taint ensures Ranks(TaintBefore, a, b, c) {
      KeysOrder(TaintCode(a), TaintCode(b), TaintCode(c));
    }
    forall a: Taint, b: Taint ensures Apart(TaintBefore, a, b) {
      KeysOrder(TaintCode(a), TaintCode(b), TaintCode(a));
      if TaintCode(a) == TaintCode(b) {
        TaintCodesDiffer(a, b);
      }
    }
  }

  lemma EntriesOrder()
    ensures WeakOrder(EntryBefore)
  {
    forall a: Entry, b: Entry, c: Entry ensures Ranks(EntryBefore, a, b, c) {
      KeysOrder(EntryKey(a), EntryKey(b), EntryKey(c));
    }
  }

  lemma CandidatesOrder()
    ensures WeakOrder(CandidateBefore)
  {
    forall a: Candidate, b: Candidate, c: Candidate ensures Ranks(CandidateBefore, a, b, c) {
      KeysOrder(a.source, b.source, c.source);
      KeysOrder(a.source, c.source, b.source);
      KeysOrder(b.source, c.source, a.source);
      KeysOrder(OrEmpty(a.policyVersion), OrEmpty(b.policyVersion), OrEmpty(c.policyVersion));
    }
  }

  // ----- the classifier -----

  predicate OptionalId(o: Option<Id>) { o.Some? ==> IsEventId(o.value) }

  predicate IsUnsafe(r: Reason) { !r.Replace? && !r.Invalidate? && !r.AlreadyApplied? }

  function Classify(c: Candidate): Result<Base, BuildError> {
    if !IsEventId(c.source) || !OptionalId(c.target) || !OptionalId(c.replacement) then Err(InvalidIdentifier)
    else if c.classification == Some(ClassReplace) && c.target.Some? && c.replacement.Some?
      && c.target != Some(c.source) && c.replacement != Some(c.source) && c.target != c.replacement then
      Ok(Base(c.source, c.target, c.replacement, EligibleWrite, DoReplace, Replace))
    else if c.classification == Some(ClassInvalidate) && c.target.Some? && c.replacement.None?
      && c.target != Some(c.source) then
      Ok(Base(c.source, c.target, None, EligibleWrite, DoInvalidate, Invalidate))
    else if c.classification == Some(ClassAlreadyApplied) && c.target.Some?
      && c.target != Some(c.source) && c.replacement != Some(c.source) then
      Ok(Base(c.source, c.target, c.replacement, EligibleNoop, DoAlreadyApplied, AlreadyApplied))
    else
      var reason := if c.unsafeReason.Some? then c.unsafeReason.value else MissingUnsafe;
      if !IsUnsafe(reason) then Err(InvalidUnsafeReason)
      else if (c.target == Some(c.source) || c.replacement == Some(c.source)) && reason != SelfUnsafe then
        Err(SelfRelationRequiresSelfUnsafe)
      else Ok(Base(c.source, c.target, c.replacement, UnsafeUnchanged, DoNone, reason))
  }

  /** The candidates in order, each classified; the first failure is the failure of the whole. */
  function ClassifyAll(cs: seq<Candidate>): Result<seq<Base>, BuildError> {
    if cs == [] then Ok([]) else
      match Classify(cs[0])
      case Err(e) => Err(e)
      case Ok(b) =>
        match ClassifyAll(cs[1..])
        case Err(e) => Err(e)
        case Ok(bs) => Ok([b] + bs)
  }

  lemma {:induction false} ClassifyAllPointwise(cs: seq<Candidate>)
    ensures ClassifyAll(cs).Ok? <==> forall i :: 0 <= i < |cs| ==> Classify(cs[i]).Ok?
    ensures ClassifyAll(cs).Ok? ==>
      && |ClassifyAll(cs).value| == |cs|
      && forall i :: 0 <= i < |cs| ==> Classify(cs[i]) == Ok(ClassifyAll(cs).value[i])
  {
    if cs != [] {
      ClassifyAllPointwise(cs[1..]);
      assert cs == [cs[0]] + cs[1..];
    }
  }

  // ----- the validator -----

  predicate ValidBase(b: Base) {
    && IsEventId(b.source) && OptionalId(b.target) && OptionalId(b.replacement)
    && (
      || (b.bucket.EligibleWrite? && b.action.DoReplace? && b.reason.Replace?
          && b.target.Some? && b.replacement.Some? && b.target != Some(b.source)
          && b.replacement != Some(b.source) && b.target != b.replacement)
      || (b.bucket.EligibleWrite? && b.action.DoInvalidate? && b.reason.Invalidate?
          && b.target.Some? && b.replacement.None? && b.target != Some(b.source))
      || (b.bucket.EligibleNoop? && b.action.DoAlreadyApplied? && b.reason.AlreadyApplied?
          && b.target.Some? && b.target != Some(b.source) && b.replacement != Some(b.source))
      || (b.bucket.UnsafeUnchanged? && b.action.DoNone? && IsUnsafe(b.reason)
          && (b.reason.SelfUnsafe? || (b.target != Some(b.source) && b.replacement != Some(b.source))))
    )
  }

  predicate ValidEntry(e: Entry) { ValidBase(e.base) && IsComponentId(e.component) }

  function Count<T>(s: seq<T>, p: T -> bool): nat {
    if s == [] then 0 else (if p(s[0]) then 1 else 0) + Count(s[1..], p)
  }

  ghost function Reasons(entries: seq<Entry>): set<Reason> {
    set e | e in entries :: e.base.reason
  }

  function HasReason(r: Reason): Entry -> bool { (e: Entry) => e.base.reason == r }

  predicate IsWrite(e: Entry) { e.base.bucket.EligibleWrite? }
  predicate IsNoop(e: Entry) { e.base.bucket.EligibleNoop? }
  predicate IsUnchanged(e: Entry) { e.base.bucket.UnsafeUnchanged? }
  predicate IsReplace(e: Entry) { e.base.action.DoReplace? }
  predicate IsInvalidate(e: Entry) { e.base.action.DoInvalidate? }
  predicate IsAlreadyApplied(e: Entry) { e.base.action.DoAlreadyApplied? }

  predicate RowBefore(a: (Reason, nat), b: (Reason, nat)) { ReasonBefore(a.0, b.0) }

  ghost predicate ValidReasonCounts(entries: seq<Entry>, rows: seq<(Reason, nat)>) {
    && |rows| == |Reasons(entries)|
    && (forall i :: 0 <= i < |rows| ==>
          rows[i].0 in Reasons(entries) && rows[i].1 == Count(entries, HasReason(rows[i].0)))
    && StepsUp(rows, RowBefore)
  }

  ghost predicate ValidCounts(entries: seq<Entry>, c: Counts) {
    && ValidReasonCounts(entries, c.reasons)
    && c.writes == Count(entries, IsWrite)
    && c.noops == Count(entries, IsNoop)
    && c.unsafe == Count(entries, IsUnchanged)
    && c.replacements == Count(entries, IsReplace)
    && c.invalidations == Count(entries, IsInvalidate)
    && c.alreadyApplied == Count(entries, IsAlreadyApplied)
    && c.replacements + c.invalidations == c.writes
    && c.alreadyApplied == c.noops
  }

  predicate SafeCounts(c: Counts) {
    && IsSafeInteger(c.writes) && IsSafeInteger(c.noops) && IsSafeInteger(c.unsafe)
    && IsSafeInteger(c.replacements) && IsSafeInteger(c.invalidations) && IsSafeInteger(c.alreadyApplied)
    && forall i :: 0 <= i < |c.reasons| ==> IsSafeInteger(c.reasons[i].1)
  }

  predicate SafeHighWater(h: HighWater) {
    && IsSafeInteger(h.canonicalSequence) && IsSafeInteger(h.dispositionRows) && IsSafeInteger(h.reviewRows)
    && IsSafeInteger(h.outboxId) && IsSafeInteger(h.supersessionEvents)
  }

  predicate EntriesValid(es: seq<Entry>) { forall i :: 0 <= i < |es| ==> ValidEntry(es[i]) }

  predicate ComponentIds(s: seq<string>) { forall i :: 0 <= i < |s| ==> IsComponentId(s[i]) }

  predicate EventIds(s: seq<string>) { forall i :: 0 <= i < |s| ==> IsEventId(s[i]) }

  predicate ValidHeader(p: Plan) {
    && IsZoneId(p.zone) && IsPolicyId(p.fromPolicy) && IsPolicyId(p.toPolicy)
    && 1 <= p.limit <= 200
    && IsSafeInteger(p.total) && IsSafeInteger(p.classified)
    && SafeHighWater(p.highWater) && SafeCounts(p.counts)
    && p.classified == |p.entries| == Min(p.total, p.limit)
    && p.truncated == (p.total > p.limit)
  }

  ghost predicate ValidTaintLists(reasons: seq<Taint>, components: seq<string>, entries: seq<Id>) {
    && ComponentIds(components) && EventIds(entries)
    && StepsUp(reasons, TaintBefore) && StepsUp(components, Less) && StepsUp(entries, Less)
  }

  /** Every rule of `validatePlan`. */
  ghost predicate ValidPlan(p: Plan) {
    && ValidHeader(p)
    && EntriesValid(p.entries) && StepsUp(p.entries, EntryBefore)
    && ValidCounts(p.entries, p.counts)
    && ValidTaintLists(p.taintReasons, p.taintComponents, p.taintEntries)
    && p.admissible == (p.taintReasons == [])
  }

  /** Whatever the classifier accepts, the validator's entry rules accept. */
  lemma ClassifyMeetsValidator(c: Candidate)
    requires Classify(c).Ok?
    ensures ValidBase(Classify(c).value)
    ensures Classify(c).value.source == c.source
    ensures Classify(c).value.target == c.target && Classify(c).value.replacement == c.replacement
  {
  }

  /** The classifier neither drops nor invents a valid intent: every valid entry is the class of some candidate. */
  lemma ValidatorMeetsClassify(b: Base)
    requires ValidBase(b)
    ensures exists c :: Classify(c) == Ok(b)
  {
    var intent := match b.action
      case DoReplace => Some(ClassReplace)
      case DoInvalidate => Some(ClassInvalidate)
      case DoAlreadyApplied => Some(ClassAlreadyApplied)
      case DoNone => None;
    var unsafe := if IsUnsafe(b.reason) then Some(b.reason) else None;
    var c := Candidate(b.source, b.target, b.replacement, intent, unsafe, None, [], [], None, None, None, None);
    assert Classify(c) == Ok(b);
  }

  /** Entries of the same shape have the same key only when they are the same entry. */
  lemma EntryKeysDiffer(a: Entry, b: Entry)
    requires ValidEntry(a) && ValidEntry(b) && EntryKey(a) == EntryKey(b)
    ensures a == b
  {
    FieldsAreSeparable(a);
    FieldsAreSeparable(b);
    var f, g := KeyFields(a), KeyFields(b);
    JoinIsInjective(f, g);
    assert f[0] == g[0] && f[1] == g[1] && f[2] == g[2] && f[3] == g[3] && f[4] == g[4] && f[5] == g[5] && f[6] == g[6];
    ReasonCodesDiffer(a.base.reason, b.base.reason);
    assert |BucketCode(a.base.bucket)| == |BucketCode(b.base.bucket)|;
    assert |ActionCode(a.base.action)| == |ActionCode(b.base.action)|;
    OptionalFieldsDiffer(a.base.target, b.base.target);
    OptionalFieldsDiffer(a.base.replacement, b.base.replacement);
  }

  lemma OptionalFieldsDiffer(a: Option<Id>, b: Option<Id>)
    requires OptionalId(a) && OptionalId(b) && OrEmpty(a) == OrEmpty(b)
    ensures a == b
  {
    IdsHaveNoSeparator(OrEmpty(a));
  }

  lemma FieldsAreSeparable(e: Entry)
    requires ValidEntry(e)
    ensures Separable(KeyFields(e))
  {
    var f := KeyFields(e);
    IdsHaveNoSeparator(f[0]);
    IdsHaveNoSeparator(f[6]);
    IdsHaveNoSeparator(OrEmpty(e.base.target));
    IdsHaveNoSeparator(OrEmpty(e.base.replacement));
    CodesHaveNoSeparator(e.base);
  }

  lemma CodesHaveNoSeparator(b: Base)
    ensures '\0' !in BucketCode(b.bucket) && '\0' !in ActionCode(b.action) && '\0' !in ReasonCode(b.reason)
  {
    ReasonsHaveNoSeparator(b.reason);
  }

  lemma ReasonsHaveNoSeparator(r: Reason)
    ensures '\0' !in ReasonCode(r)
  {
    match r
    case SharedMaterializationUnsafe =>
    case MissingUnsafe =>
    case AmbiguousUnsafe =>
    case ImportedUnsafe =>
    case ConflictingIntentUnsafe =>
    case _ => ShortReasonsHaveNoSeparator(r);
  }

  lemma ShortReasonsHaveNoSeparator(r: Reason)
    requires |ReasonCode(r)| < 16 && !r.MissingUnsafe? && !r.AmbiguousUnsafe? && !r.ImportedUnsafe?
    ensures '\0' !in ReasonCode(r)
  {
  }
}
