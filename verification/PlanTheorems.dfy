/**
 * What a reconciliation plan guarantees: its own validator accepts it, an admissible plan is free of
 * conflicts and cannot close a supersession cycle, and the order of the input does not matter.
 */
module PlanTheorems {
  import opened Wrappers
  import opened Ordering
  import opened Text
  import opened Reachability
  import opened Components
  import opened ReconciliationModel
  import opened Partition
  import opened PlanSpec

  /** The builder reaches its last step, with these classified candidates. */
  ghost predicate Drafted(i: Input, bases: seq<Base>) {
    && InputError(i).None?
    && ClassifyAll(Chosen(i)) == Ok(bases)
    && Mentionable(bases, Chosen(i))
  }

  ghost function EntryOf(bases: seq<Base>, cs: seq<Candidate>, digest: Digest, b: Base): Entry {
    Entry(b, ComponentId(bases, cs, b.source, digest))
  }

  lemma DraftLengths(i: Input, bases: seq<Base>, digest: Digest)
    requires Drafted(i, bases)
    ensures |EntriesOf(bases, Chosen(i), digest)| == |bases| == |Chosen(i)| == Expected(i)
  {
    SortKeeps(i.candidates, CandidateBefore);
    SortKeeps(Attach(bases, Chosen(i), digest), EntryBefore);
    ClassifyAllPointwise(Chosen(i));
  }

  lemma BaseOfCandidate(i: Input, bases: seq<Base>, k: nat)
    requires Drafted(i, bases) && k < |Chosen(i)|
    ensures |bases| == |Chosen(i)| && bases[k] in bases && bases[k].source == Chosen(i)[k].source
    ensures ValidBase(bases[k])
  {
    ClassifyAllPointwise(Chosen(i));
    ClassifyMeetsValidator(Chosen(i)[k]);
  }

  /** Every entry of a draft is the entry of one of its bases. */
  lemma EntryHasBase(i: Input, bases: seq<Base>, digest: Digest, e: Entry)
    requires Drafted(i, bases) && e in EntriesOf(bases, Chosen(i), digest)
    ensures e.base in bases && ValidBase(e.base) && e == EntryOf(bases, Chosen(i), digest, e.base)
  {
    var k := EntryIsAttached(bases, Chosen(i), digest, e);
    DraftLengths(i, bases, digest);
    BaseOfCandidate(i, bases, k);
  }

  lemma EntryIsAttached(bases: seq<Base>, cs: seq<Candidate>, digest: Digest, e: Entry) returns (k: nat)
    requires e in EntriesOf(bases, cs, digest)
    ensures k < |bases| && e == EntryOf(bases, cs, digest, bases[k])
  {
    var a := Attach(bases, cs, digest);
    SortKeeps(a, EntryBefore);
    k :| 0 <= k < |a| && a[k] == e;
  }

  /** Every base of a draft has its entry there. */
  lemma BaseHasEntry(i: Input, bases: seq<Base>, digest: Digest, b: Base)
    requires Drafted(i, bases) && b in bases
    ensures EntryOf(bases, Chosen(i), digest, b) in EntriesOf(bases, Chosen(i), digest)
  {
    var a := Attach(bases, Chosen(i), digest);
    SortKeeps(a, EntryBefore);
    var k :| 0 <= k < |bases| && bases[k] == b;
    assert a[k] in a;
  }

  // ----- the builder never rejects a plan with distinct sources -----

  lemma EntriesApart(es: seq<Entry>)
    requires forall e :: e in es ==> ValidEntry(e)
    ensures Separates(EntryBefore, Elements(es))
  {
    forall a, b | a in Elements(es) && b in Elements(es) ensures Apart(EntryBefore, a, b) {
      KeysOrder(EntryKey(a), EntryKey(b), EntryKey(a));
      if EntryKey(a) == EntryKey(b) {
        EntryKeysDiffer(a, b);
      }
    }
  }

  lemma {:induction false} InSourcesIn(es: seq<Entry>, causal: set<string>, x: Id)
    ensures x in SourcesIn(es, causal) <==> exists e :: e in es && e.component in causal && e.base.source == x
  {
    if es != [] {
      InSourcesIn(es[1..], causal, x);
      assert es == [es[0]] + es[1..];
    }
  }

  /** Two tainted entries repeat a source. */
  ghost predicate SourceRepeats(es: seq<Entry>, causal: set<string>) {
    exists a, b :: a in es && b in es && a != b && a.base.source == b.base.source
      && a.component in causal && b.component in causal
  }

  lemma HeadRepeats(e: Entry, rest: seq<Entry>, causal: set<string>)
    requires e !in rest
    ensures SourceRepeats([e] + rest, causal) <==>
      SourceRepeats(rest, causal) || (e.component in causal && e.base.source in SourcesIn(rest, causal))
  {
    InSourcesIn(rest, causal, e.base.source);
    if e.component in causal && e.base.source in SourcesIn(rest, causal) {
      var b :| b in rest && b.component in causal && b.base.source == e.base.source;
      assert b in [e] + rest && e in [e] + rest;
    }
  }

  lemma {:induction false} SourcesInDistinct(es: seq<Entry>, causal: set<string>)
    requires Distinct(es)
    ensures Distinct(SourcesIn(es, causal)) <==> !SourceRepeats(es, causal)
  {
    if es != [] {
      var e, rest := es[0], es[1..];
      assert es == [e] + rest;
      HeadAndTailDistinct(e, rest);
      SourcesInDistinct(rest, causal);
      HeadRepeats(e, rest, causal);
      HeadAndTailDistinct(e.base.source, SourcesIn(rest, causal));
      assert [] + SourcesIn(rest, causal) == SourcesIn(rest, causal);
    }
  }

  lemma HeadAndTailDistinct<T>(x: T, s: seq<T>)
    ensures Distinct([x] + s) <==> x !in s && Distinct(s)
  {
    var t := [x] + s;
    assert t[0] == x && forall k :: 0 <= k < |s| ==> t[k + 1] == s[k];
  }

  lemma ReasonTableIsValid(es: seq<Entry>)
    ensures ValidReasonCounts(es, ReasonRows(es))
  {
    ReasonsOrder();
    OrderByLists(Reasons(es), ReasonBefore);
    var rs, rows := OrderBy(Reasons(es), ReasonBefore), ReasonRows(es);
    forall k | 0 <= k < |rows| ensures rows[k].0 in Reasons(es) && rows[k].1 == Count(es, HasReason(rows[k].0)) {
      assert rs[k] in rs;
    }
    forall k | 0 < k < |rows| ensures RowBefore(rows[k - 1], rows[k]) {
      assert ReasonBefore(rs[k - 1], rs[k]);
    }
  }

  lemma {:induction false} CountEquations(es: seq<Entry>)
    requires forall e :: e in es ==> ValidBase(e.base)
    ensures Count(es, IsReplace) + Count(es, IsInvalidate) == Count(es, IsWrite)
    ensures Count(es, IsAlreadyApplied) == Count(es, IsNoop)
  {
    if es != [] {
      assert es[0] in es && forall e :: e in es[1..] ==> e in es;
      CountEquations(es[1..]);
    }
  }

  lemma {:induction false} CountBound<T>(s: seq<T>, p: T -> bool)
    ensures Count(s, p) <= |s|
  {
    if s != [] {
      CountBound(s[1..], p);
    }
  }

  lemma CountsAreValid(es: seq<Entry>)
    requires |es| <= 200 && forall e :: e in es ==> ValidBase(e.base)
    ensures ValidCounts(es, CountsOf(es)) && SafeCounts(CountsOf(es))
  {
    ReasonTableIsValid(es);
    CountEquations(es);
    CountBound(es, IsWrite);
    CountBound(es, IsNoop);
    CountBound(es, IsUnchanged);
    CountBound(es, IsReplace);
    CountBound(es, IsInvalidate);
    CountBound(es, IsAlreadyApplied);
    forall k | 0 <= k < |CountsOf(es).reasons| ensures IsSafeInteger(CountsOf(es).reasons[k].1) {
      CountBound(es, HasReason(CountsOf(es).reasons[k].0));
    }
  }

  lemma {:induction false} FirstEntryOccurs(es: seq<Entry>, source: Id)
    ensures match FirstEntry(es, source)
      case Some(e) => e in es && e.base.source == source
      case None => forall e :: e in es ==> e.base.source != source
  {
    if es != [] {
      FirstEntryOccurs(es[1..], source);
      assert es == [es[0]] + es[1..];
    }
  }

  lemma CausalComponentsOccur(es: seq<Entry>, cs: seq<Candidate>, c: string)
    requires c in Causal(es, cs)
    ensures exists e :: e in es && e.component == c
  {
    if c in UnprovedComponents(es, cs) {
      var d :| d in cs && Unproved(d) && FirstEntry(es, d.source).Some?
        && FirstEntry(es, d.source).value.component == c;
      FirstEntryOccurs(es, d.source);
    }
  }

  lemma TaintReasonsAreValid(taints: set<Taint>)
    ensures StepsUp(OrderBy(taints, TaintBefore), TaintBefore)
    ensures OrderBy(taints, TaintBefore) == [] <==> taints == {}
  {
    TaintsOrder();
    OrderByLists(taints, TaintBefore);
  }

  lemma TaintComponentsAreValid(es: seq<Entry>, cs: seq<Candidate>)
    requires forall e :: e in es ==> IsComponentId(e.component)
    ensures StepsUp(OrderBy(Causal(es, cs), Less), Less) && ComponentIds(OrderBy(Causal(es, cs), Less))
  {
    var listed := OrderBy(Causal(es, cs), Less);
    StringsListed(Causal(es, cs));
    forall k | 0 <= k < |listed| ensures IsComponentId(listed[k]) {
      CausalComponentsOccur(es, cs, listed[k]);
    }
  }

  lemma TaintEntriesAreValidIff(es: seq<Entry>, causal: set<string>)
    requires Distinct(es) && forall e :: e in es ==> IsEventId(e.base.source)
    ensures EventIds(SortBy(SourcesIn(es, causal), Less))
    ensures StepsUp(SortBy(SourcesIn(es, causal), Less), Less) <==> !SourceRepeats(es, causal)
  {
    var sources := SourcesIn(es, causal);
    var sorted := SortBy(sources, Less);
    SortKeeps(sources, Less);
    LessOrders();
    SortStepsUpIffDistinct(sources, Less);
    SourcesInDistinct(es, causal);
    forall k | 0 <= k < |sorted| ensures IsEventId(sorted[k]) {
      assert sorted[k] in sorted;
      InSourcesIn(es, causal, sorted[k]);
    }
  }

  lemma HeaderIsValid(i: Input, es: seq<Entry>, cs: seq<Candidate>)
    requires InputError(i).None? && |es| == Expected(i) && SafeHighWater(i.highWater) && SafeCounts(CountsOf(es))
    ensures ValidHeader(Assemble(i, es, cs))
  {
  }

  lemma DraftEntriesAreValid(i: Input, bases: seq<Base>, digest: Digest)
    requires Drafted(i, bases) && forall vs :: IsComponentId(digest(vs))
    ensures forall e :: e in EntriesOf(bases, Chosen(i), digest) ==> ValidEntry(e)
    ensures EntriesValid(EntriesOf(bases, Chosen(i), digest))
  {
    forall e | e in EntriesOf(bases, Chosen(i), digest) ensures ValidEntry(e) {
      EntryHasBase(i, bases, digest, e);
    }
  }

  /** The rules that hold of every draft, whatever repeats in it. */
  lemma DraftRules(i: Input, bases: seq<Base>, digest: Digest)
    requires Drafted(i, bases) && SafeHighWater(i.highWater)
    requires forall vs :: IsComponentId(digest(vs))
    ensures ValidHeader(Assemble(i, EntriesOf(bases, Chosen(i), digest), Chosen(i)))
    ensures ValidCounts(EntriesOf(bases, Chosen(i), digest), CountsOf(EntriesOf(bases, Chosen(i), digest)))
  {
    var es := EntriesOf(bases, Chosen(i), digest);
    DraftLengths(i, bases, digest);
    DraftEntriesAreValid(i, bases, digest);
    CountsAreValid(es);
    HeaderIsValid(i, es, Chosen(i));
  }

  /** No two different entries with one source are tainted. */
  ghost predicate TaintsOnce(i: Input, bases: seq<Base>, digest: Digest) {
    !SourceRepeats(EntriesOf(bases, Chosen(i), digest), Causal(EntriesOf(bases, Chosen(i), digest), Chosen(i)))
  }

  lemma TaintListsAreValidIff(es: seq<Entry>, causal: set<string>, taints: set<Taint>)
    requires Distinct(es) && forall e :: e in es ==> IsEventId(e.base.source)
    requires StepsUp(OrderBy(causal, Less), Less) && ComponentIds(OrderBy(causal, Less))
    ensures ValidTaintLists(
        OrderBy(taints, TaintBefore), OrderBy(causal, Less), SortBy(SourcesIn(es, causal), Less))
      <==> !SourceRepeats(es, causal)
  {
    TaintReasonsAreValid(taints);
    TaintEntriesAreValidIff(es, causal);
  }

  lemma AssembledIsValidIff(i: Input, es: seq<Entry>, cs: seq<Candidate>)
    requires ValidHeader(Assemble(i, es, cs)) && ValidCounts(es, CountsOf(es)) && EntriesValid(es)
    requires forall e :: e in es ==> ValidEntry(e)
    requires StepsUp(es, EntryBefore) ==> Distinct(es)
    ensures ValidPlan(Assemble(i, es, cs)) <==> StepsUp(es, EntryBefore) && !SourceRepeats(es, Causal(es, cs))
  {
    TaintReasonsAreValid(Taints(i, es, cs));
    TaintComponentsAreValid(es, cs);
    if StepsUp(es, EntryBefore) {
      TaintListsAreValidIff(es, Causal(es, cs), Taints(i, es, cs));
    }
  }

  lemma EntriesStepUpIff(i: Input, bases: seq<Base>, digest: Digest)
    requires Drafted(i, bases) && forall vs :: IsComponentId(digest(vs))
    ensures StepsUp(EntriesOf(bases, Chosen(i), digest), EntryBefore) <==> Distinct(bases)
    ensures Distinct(bases) ==> Distinct(EntriesOf(bases, Chosen(i), digest))
  {
    var a := Attach(bases, Chosen(i), digest);
    DraftEntriesAreValid(i, bases, digest);
    SortKeeps(a, EntryBefore);
    EntriesApart(a);
    EntriesOrder();
    SortStepsUpIffDistinct(a, EntryBefore);
    SortIsDistinct(a, EntryBefore);
    AttachedDistinct(bases, Chosen(i), digest);
  }

  /**
   * The validator accepts the builder's own draft exactly when no two candidates classify to the same
   * entry and no two different entries with one source lie in a tainted component.
   */
  lemma DraftIsValidIff(i: Input, bases: seq<Base>, digest: Digest)
    requires Drafted(i, bases) && SafeHighWater(i.highWater)
    requires forall vs :: IsComponentId(digest(vs))
    ensures ValidPlan(Draft(i, bases, digest)) <==> Distinct(bases) && TaintsOnce(i, bases, digest)
  {
    var es := EntriesOf(bases, Chosen(i), digest);
    DraftRules(i, bases, digest);
    DraftEntriesAreValid(i, bases, digest);
    EntriesStepUpIff(i, bases, digest);
    AssembledIsValidIff(i, es, Chosen(i));
  }

  lemma AttachedDistinct(bases: seq<Base>, cs: seq<Candidate>, digest: Digest)
    ensures Distinct(Attach(bases, cs, digest)) <==> Distinct(bases)
  {
    var a := Attach(bases, cs, digest);
    assert forall k :: 0 <= k < |a| ==> a[k].base == bases[k];
    assert forall j, k :: 0 <= j < |a| && 0 <= k < |a| && bases[j] == bases[k] ==> a[j] == a[k];
  }

  ghost predicate DistinctSources(cs: seq<Candidate>) {
    forall j, k :: 0 <= j < k < |cs| ==> cs[j].source != cs[k].source
  }

  /** With distinct sources the builder never rejects its own plan. */
  lemma BuilderAcceptsDistinctSources(i: Input, bases: seq<Base>, digest: Digest)
    requires Drafted(i, bases) && SafeHighWater(i.highWater)
    requires forall vs :: IsComponentId(digest(vs))
    requires DistinctSources(i.candidates)
    ensures BuildSpec(i, digest) == Ok(Draft(i, bases, digest))
    ensures ValidPlan(Draft(i, bases, digest))
  {
    ChosenSourcesDistinct(i);
    DraftLengths(i, bases, digest);
    BasesKeepSources(i, bases);
    assert Distinct(bases);
    OneEntryPerSource(i, bases, digest);
    DraftIsValidIff(i, bases, digest);
    ValidDraftIsBuilt(i, bases, digest);
  }

  lemma ValidDraftIsBuilt(i: Input, bases: seq<Base>, digest: Digest)
    requires Drafted(i, bases) && ValidPlan(Draft(i, bases, digest))
    ensures BuildSpec(i, digest) == Ok(Draft(i, bases, digest))
  {
  }

  lemma BasesKeepSources(i: Input, bases: seq<Base>)
    requires Drafted(i, bases) && DistinctSources(Chosen(i))
    ensures forall j, k :: 0 <= j < k < |bases| ==> bases[j].source != bases[k].source
  {
    ClassifyAllPointwise(Chosen(i));
    forall j, k | 0 <= j < k < |bases| ensures bases[j].source != bases[k].source {
      BaseOfCandidate(i, bases, j);
      BaseOfCandidate(i, bases, k);
    }
  }

  lemma OneEntryPerSource(i: Input, bases: seq<Base>, digest: Digest)
    requires Drafted(i, bases)
    requires forall j, k :: 0 <= j < k < |bases| ==> bases[j].source != bases[k].source
    ensures TaintsOnce(i, bases, digest)
  {
    var es := EntriesOf(bases, Chosen(i), digest);
    forall x, y | x in es && y in es && x.base.source == y.base.source ensures x == y {
      EntryHasBase(i, bases, digest, x);
      EntryHasBase(i, bases, digest, y);
    }
  }

  lemma ChosenSourcesDistinct(i: Input)
    requires DistinctSources(i.candidates)
    ensures DistinctSources(Chosen(i))
  {
    var s := SortBy(i.candidates, CandidateBefore);
    SortKeeps(i.candidates, CandidateBefore);
    SortIsDistinct(i.candidates, CandidateBefore);
    forall j, k | 0 <= j < k < |s| ensures s[j].source != s[k].source {
      assert s[j] in i.candidates && s[k] in i.candidates && s[j] != s[k];
    }
  }

  // ----- what admissibility means -----

  /** A cause of taint at entry `c`: a fact about it that blocks the plan. */
  ghost predicate IsCause(es: seq<Entry>, cs: seq<Candidate>, c: Entry) {
    || Overlapping(es)(c)
    || Conflicting(es)(c)
    || Mismatched(cs)(c)
    || CycleClosing(Elements(Edges(es, cs)))(c)
    || exists d :: d in cs && Unproved(d) && d.source == c.base.source
  }

  /** The causal components are the components of the causes. */
  lemma CausalIsComponentsOfCauses(i: Input, bases: seq<Base>, digest: Digest, c: string)
    requires Drafted(i, bases)
    ensures var cs := Chosen(i);
      var es := EntriesOf(bases, cs, digest);
      c in Causal(es, cs) <==> exists e :: e in es && IsCause(es, cs, e) && e.component == c
  {
    var cs := Chosen(i);
    var es := EntriesOf(bases, cs, digest);
    if c in Causal(es, cs) {
      CausalHasCause(es, cs, c);
    }
    forall e | e in es && IsCause(es, cs, e) && e.component == c ensures c in Causal(es, cs) {
      if exists d :: d in cs && Unproved(d) && d.source == e.base.source {
        var d :| d in cs && Unproved(d) && d.source == e.base.source;
        FirstEntryOccurs(es, d.source);
        EntryHasBase(i, bases, digest, e);
        EntryHasBase(i, bases, digest, FirstEntry(es, d.source).value);
        assert c in UnprovedComponents(es, cs);
      }
    }
  }

  lemma UnprovedHasCause(es: seq<Entry>, cs: seq<Candidate>, c: string) returns (e: Entry)
    requires c in UnprovedComponents(es, cs)
    ensures e in es && e.component == c && IsCause(es, cs, e)
  {
    var d :| d in cs && Unproved(d) && FirstEntry(es, d.source).Some?
      && FirstEntry(es, d.source).value.component == c;
    FirstEntryOccurs(es, d.source);
    e := FirstEntry(es, d.source).value;
  }

  lemma WhereHasEntry(es: seq<Entry>, p: Entry -> bool, c: string) returns (e: Entry)
    requires c in Where(es, p)
    ensures e in es && e.component == c && p(e)
  {
    e :| e in es && p(e) && e.component == c;
  }

  lemma CausalHasCause(es: seq<Entry>, cs: seq<Candidate>, c: string)
    requires c in Causal(es, cs)
    ensures exists e :: e in es && IsCause(es, cs, e) && e.component == c
  {
    var cycle := CycleClosing(Elements(Edges(es, cs)));
    if c in UnprovedComponents(es, cs) {
      var e := UnprovedHasCause(es, cs, c);
    } else {
      var p := if c in Where(es, Overlapping(es)) then Overlapping(es)
        else if c in Where(es, Conflicting(es)) then Conflicting(es)
        else if c in Where(es, Mismatched(cs)) then Mismatched(cs)
        else cycle;
      var e := WhereHasEntry(es, p, c);
      assert IsCause(es, cs, e);
    }
  }

  /** A plan is admissible exactly when nothing was imposed, nothing was cut off, and no entry is a cause. */
  lemma AdmissibleIffNoCause(i: Input, bases: seq<Base>, digest: Digest)
    requires Drafted(i, bases)
    ensures Draft(i, bases, digest).admissible <==>
      && i.givenTaints == {} && i.total <= i.limit
      && forall e :: e in EntriesOf(bases, Chosen(i), digest) ==>
           !IsCause(EntriesOf(bases, Chosen(i), digest), Chosen(i), e)
  {
    var cs := Chosen(i);
    var es := EntriesOf(bases, cs, digest);
    var causes := CausesOf(es, cs);
    var causal := Causal(es, cs);
    if causal == {} {
      assert causes.overlap == {} && causes.conflict == {} && causes.mismatch == {} && causes.cycle == {}
        && causes.unproved == {};
      assert InfluenceTaints(es, causal) == {};
      assert Taints(i, es, cs) == i.givenTaints + If(i.total > i.limit, {IncompleteEnumeration});
      forall e | e in es ensures !IsCause(es, cs, e) {
        CausalIsComponentsOfCauses(i, bases, digest, e.component);
      }
    } else {
      var c :| c in causal;
      CausalIsComponentsOfCauses(i, bases, digest, c);
      CauseLeavesTaint(i, causes);
    }
  }

  lemma CauseLeavesTaint(i: Input, c: Causes)
    requires CausalSet(c) != {}
    ensures CauseTaints(i, c) != {}
  {
    var t := if c.overlap != {} then EligibleUnsafeOverlap
      else if c.conflict != {} then ConflictingEligibleIntent
      else if c.mismatch != {} then EligibleSubjectUncertainty
      else if c.cycle != {} then EligibleReachableCycle
      else UnprovedConformance;
    assert t in CauseTaints(i, c);
  }

  ghost predicate WritesAt(es: seq<Entry>, k: nat, t: Id)
    requires k < |es|
  {
    IsWrite(es[k]) && es[k].base.target == Some(t)
  }

  lemma {:induction false} RivalsAreGrouped(es: seq<Entry>, t: Id)
    ensures |WritesTo(es, t)| >= 2 <==>
      exists j, k :: 0 <= j < k < |es| && WritesAt(es, j, t) && WritesAt(es, k, t)
    ensures |WritesTo(es, t)| >= 1 <==> exists k :: 0 <= k < |es| && WritesAt(es, k, t)
  {
    if es != [] {
      var rest := es[1..];
      RivalsAreGrouped(rest, t);
      assert forall k :: 0 <= k < |rest| ==> WritesAt(rest, k, t) == WritesAt(es, k + 1, t);
      if |WritesTo(rest, t)| >= 1 {
        var k :| 0 <= k < |rest| && WritesAt(rest, k, t);
        assert WritesAt(es, k + 1, t);
      }
      if |WritesTo(rest, t)| >= 2 {
        var j, k :| 0 <= j < k < |rest| && WritesAt(rest, j, t) && WritesAt(rest, k, t);
        assert WritesAt(es, j + 1, t) && WritesAt(es, k + 1, t);
      }
      forall k | 0 < k < |es| && WritesAt(es, k, t) ensures |WritesTo(rest, t)| >= 1 {
        assert WritesAt(rest, k - 1, t);
      }
      forall j, k | 0 < j < k < |es| && WritesAt(es, j, t) && WritesAt(es, k, t) ensures |WritesTo(rest, t)| >= 2 {
        assert WritesAt(rest, j - 1, t) && WritesAt(rest, k - 1, t);
      }
      assert WritesAt(es, 0, t) <==> |WritesTo(es, t)| == |WritesTo(rest, t)| + 1;
    }
  }

  /** No two writes of the plan share a target. */
  ghost predicate WritesDiffer(es: seq<Entry>) {
    forall j, k :: 0 <= j < k < |es| && IsWrite(es[j]) && IsWrite(es[k]) ==> es[j].base.target != es[k].base.target
  }

  lemma NoRivalWrites(es: seq<Entry>)
    requires forall e :: e in es ==> ValidBase(e.base) && !Conflicting(es)(e)
    ensures WritesDiffer(es)
  {
    forall j, k | 0 <= j < k < |es| && IsWrite(es[j]) && IsWrite(es[k])
      ensures es[j].base.target != es[k].base.target
    {
      assert es[j] in es;
      var t := es[j].base.target.value;
      RivalsAreGrouped(es, t);
      assert !Conflicting(es)(es[j]) && WritesAt(es, j, t);
      assert !WritesAt(es, k, t);
    }
  }

  /** No eligible entry is connected to an unsafe one. */
  ghost predicate EligibleApartFromUnsafe(bases: seq<Base>, cs: seq<Candidate>) {
    forall a, b :: a in bases && b in bases && a.bucket != UnsafeUnchanged && b.bucket == UnsafeUnchanged ==>
      !SourcesConnected(bases, cs, a.source, b.source)
  }

  /** Known subjects agree, and no replacement of an eligible entry leads back to its target. */
  ghost predicate EligibleIsSound(es: seq<Entry>, cs: seq<Candidate>) {
    forall e :: e in es && !IsUnchanged(e) ==>
      !SubjectMismatch(LastCandidate(cs, e.base.source), e.base) && !ClosesCycle(Elements(Edges(es, cs)), e.base)
  }

  /** Complete, and free of every kind of conflict. */
  ghost predicate ConflictFree(i: Input, bases: seq<Base>, digest: Digest) {
    var es := EntriesOf(bases, Chosen(i), digest);
    && i.givenTaints == {} && i.total <= i.limit
    && WritesDiffer(es)
    && EligibleApartFromUnsafe(bases, Chosen(i))
    && EligibleIsSound(es, Chosen(i))
    && forall c :: c in Chosen(i) ==> !Unproved(c)
  }

  lemma CauselessStaysApart(i: Input, bases: seq<Base>, digest: Digest, a: Base, b: Base)
    requires Drafted(i, bases) && a in bases && b in bases
    requires a.bucket != UnsafeUnchanged && b.bucket == UnsafeUnchanged
    requires var es := EntriesOf(bases, Chosen(i), digest);
      !IsCause(es, Chosen(i), EntryOf(bases, Chosen(i), digest, b))
    ensures !SourcesConnected(bases, Chosen(i), a.source, b.source)
  {
    BaseHasEntry(i, bases, digest, a);
    ConnectedShareComponent(bases, Chosen(i), digest, a, b);
  }

  lemma CauselessIsConflictFree(i: Input, bases: seq<Base>, digest: Digest)
    requires Drafted(i, bases)
    requires var es := EntriesOf(bases, Chosen(i), digest);
      forall e :: e in es ==> !IsCause(es, Chosen(i), e)
    ensures WritesDiffer(EntriesOf(bases, Chosen(i), digest))
    ensures EligibleApartFromUnsafe(bases, Chosen(i))
    ensures EligibleIsSound(EntriesOf(bases, Chosen(i), digest), Chosen(i))
    ensures forall c :: c in Chosen(i) ==> !Unproved(c)
  {
    var cs := Chosen(i);
    var es := EntriesOf(bases, cs, digest);
    forall e | e in es ensures ValidBase(e.base) && !Conflicting(es)(e) {
      EntryHasBase(i, bases, digest, e);
      assert !IsCause(es, cs, e);
    }
    NoRivalWrites(es);
    forall a, b | a in bases && b in bases && a.bucket != UnsafeUnchanged && b.bucket == UnsafeUnchanged
      ensures !SourcesConnected(bases, cs, a.source, b.source)
    {
      BaseHasEntry(i, bases, digest, b);
      CauselessStaysApart(i, bases, digest, a, b);
    }
    forall e | e in es && !IsUnchanged(e)
      ensures !SubjectMismatch(LastCandidate(cs, e.base.source), e.base)
      ensures !ClosesCycle(Elements(Edges(es, cs)), e.base)
    {
      assert !IsCause(es, cs, e);
    }
    NothingUnproved(i, bases, digest);
  }

  lemma ApartMeansNoOverlap(i: Input, bases: seq<Base>, digest: Digest, e: Entry)
    requires Drafted(i, bases) && EligibleApartFromUnsafe(bases, Chosen(i))
    requires CollisionFree(Vertices(bases, Chosen(i)), Links(bases, Chosen(i)), Less, digest)
    requires e in EntriesOf(bases, Chosen(i), digest)
    ensures !Overlapping(EntriesOf(bases, Chosen(i), digest))(e)
  {
    var cs := Chosen(i);
    var es := EntriesOf(bases, cs, digest);
    EntryHasBase(i, bases, digest, e);
    forall o | o in es && IsUnchanged(e) && !IsUnchanged(o) ensures o.component != e.component {
      EntryHasBase(i, bases, digest, o);
      LessOrders();
      SameComponentIffConnected(
        Vertices(bases, cs), Links(bases, cs), o.base.source, e.base.source, Less, digest);
      assert !SourcesConnected(bases, cs, o.base.source, e.base.source);
    }
  }

  lemma DifferentTargetsDoNotConflict(es: seq<Entry>, e: Entry)
    requires WritesDiffer(es)
    ensures !Conflicting(es)(e)
  {
    if IsWrite(e) && e.base.target.Some? {
      RivalsAreGrouped(es, e.base.target.value);
    }
  }

  lemma ConflictFreeHasNoCause(i: Input, bases: seq<Base>, digest: Digest, e: Entry)
    requires Drafted(i, bases) && ConflictFree(i, bases, digest)
    requires CollisionFree(Vertices(bases, Chosen(i)), Links(bases, Chosen(i)), Less, digest)
    requires e in EntriesOf(bases, Chosen(i), digest)
    ensures !IsCause(EntriesOf(bases, Chosen(i), digest), Chosen(i), e)
  {
    ApartMeansNoOverlap(i, bases, digest, e);
    DifferentTargetsDoNotConflict(EntriesOf(bases, Chosen(i), digest), e);
  }

  /**
   * A plan is admissible exactly when it is complete and conflict-free: no imposed taint, nothing cut
   * off, no two writes on one target, no eligible entry connected to an unsafe one, known subjects
   * agree, no replacement leads back to its target, and no conformance proof failed.
   */
  lemma AdmissibleIffConflictFree(i: Input, bases: seq<Base>, digest: Digest)
    requires Drafted(i, bases)
    requires CollisionFree(Vertices(bases, Chosen(i)), Links(bases, Chosen(i)), Less, digest)
    ensures Draft(i, bases, digest).admissible <==> ConflictFree(i, bases, digest)
  {
    AdmissibleIffNoCause(i, bases, digest);
    if Draft(i, bases, digest).admissible {
      CauselessIsConflictFree(i, bases, digest);
    }
    if ConflictFree(i, bases, digest) {
      forall e | e in EntriesOf(bases, Chosen(i), digest)
        ensures !IsCause(EntriesOf(bases, Chosen(i), digest), Chosen(i), e)
      {
        ConflictFreeHasNoCause(i, bases, digest, e);
      }
    }
  }

  lemma ConnectedShareComponent(bases: seq<Base>, cs: seq<Candidate>, digest: Digest, a: Base, b: Base)
    ensures SourcesConnected(bases, cs, a.source, b.source) ==>
      EntryOf(bases, cs, digest, a).component == EntryOf(bases, cs, digest, b).component
  {
    if SourcesConnected(bases, cs, a.source, b.source) {
      SameCluster(Vertices(bases, cs), Links(bases, cs), a.source, b.source);
    }
  }

  lemma NothingUnproved(i: Input, bases: seq<Base>, digest: Digest)
    requires Drafted(i, bases)
    requires forall e :: e in EntriesOf(bases, Chosen(i), digest) ==>
      !IsCause(EntriesOf(bases, Chosen(i), digest), Chosen(i), e)
    ensures forall c :: c in Chosen(i) ==> !Unproved(c)
  {
    var cs := Chosen(i);
    forall c | c in cs ensures !Unproved(c) {
      var k :| 0 <= k < |cs| && cs[k] == c;
      BaseOfCandidate(i, bases, k);
      BaseHasEntry(i, bases, digest, bases[k]);
      assert !IsCause(EntriesOf(bases, cs, digest), cs, EntryOf(bases, cs, digest, bases[k]));
    }
  }

  // ----- supersession stays acyclic -----

  /** The supersession relations a list of candidates carries. */
  ghost function Relations(cs: seq<Candidate>): set<(Id, Id)> {
    set c, r | c in cs && r in c.relations :: r
  }

  /** The supersession edges a plan would add: target to replacement, for every planned replacement. */
  ghost function Additions(es: seq<Entry>): set<(Id, Id)> {
    set e | e in es && Plans(e) :: (e.base.target.value, e.base.replacement.value)
  }

  lemma {:induction false} RelationEdgesList(cs: seq<Candidate>)
    ensures Elements(RelationEdges(cs)) == Relations(cs)
  {
    if cs != [] {
      RelationEdgesList(cs[1..]);
      assert forall c :: c in cs <==> c == cs[0] || c in cs[1..];
      forall r ensures r in RelationEdges(cs) <==> r in Relations(cs) {
        assert r in RelationEdges(cs) <==> r in cs[0].relations || r in RelationEdges(cs[1..]);
        assert r in RelationEdges(cs[1..]) <==> r in Relations(cs[1..]) by {
          assert r in Elements(RelationEdges(cs[1..])) <==> r in RelationEdges(cs[1..]);
        }
      }
    }
  }

  lemma {:induction false} PlannedEdgesList(es: seq<Entry>)
    ensures Elements(PlannedEdges(es)) == Additions(es)
  {
    if es != [] {
      PlannedEdgesList(es[1..]);
      assert forall e :: e in es <==> e == es[0] || e in es[1..];
      forall r ensures r in PlannedEdges(es) <==> r in Additions(es) {
        assert r in PlannedEdges(es) <==>
          (Plans(es[0]) && r == (es[0].base.target.value, es[0].base.replacement.value)) || r in PlannedEdges(es[1..]);
        assert r in Elements(PlannedEdges(es[1..])) <==> r in PlannedEdges(es[1..]);
      }
    }
  }

  lemma EdgesList(es: seq<Entry>, cs: seq<Candidate>)
    ensures Elements(Edges(es, cs)) == Relations(cs) + Additions(es)
  {
    RelationEdgesList(cs);
    PlannedEdgesList(es);
    forall r ensures r in Edges(es, cs) <==> r in Relations(cs) + Additions(es) {
      assert r in Elements(RelationEdges(cs)) <==> r in RelationEdges(cs);
      assert r in Elements(PlannedEdges(es)) <==> r in PlannedEdges(es);
    }
  }

  /**
   * When the relations the plan looked at are acyclic, applying the plan keeps supersession acyclic
   * exactly when the cycle check flags no planned replacement.
   */
  lemma PlanKeepsAcyclicIff(i: Input, bases: seq<Base>, digest: Digest)
    requires Drafted(i, bases) && !Cyclic(Relations(Chosen(i)))
    ensures var es := EntriesOf(bases, Chosen(i), digest);
      !Cyclic(Relations(Chosen(i)) + Additions(es)) <==>
        forall e :: e in es && Plans(e) ==> !CycleClosing(Elements(Edges(es, Chosen(i))))(e)
  {
    var cs := Chosen(i);
    var es := EntriesOf(bases, cs, digest);
    EdgesList(es, cs);
    AddingEdgesKeepsAcyclic(Relations(cs), Additions(es));
    var E := Relations(cs) + Additions(es);
    if forall e :: e in es && Plans(e) ==> !CycleClosing(E)(e) {
      forall f | f in Additions(es) ensures !Reach(E, f.1, f.0) {
        var e :| e in es && Plans(e) && f == (e.base.target.value, e.base.replacement.value);
        assert !CycleClosing(E)(e);
      }
    }
    if forall f :: f in Additions(es) ==> !Reach(E, f.1, f.0) {
      forall e | e in es && Plans(e) ensures !CycleClosing(E)(e) {
        assert (e.base.target.value, e.base.replacement.value) in Additions(es);
      }
    }
  }

  /** When nothing is cut off, the chosen candidates carry all the relations. */
  lemma UncutKeepsRelations(i: Input)
    requires InputError(i).None? && i.total <= i.limit
    ensures Relations(Chosen(i)) == Relations(i.candidates)
  {
    SortKeeps(i.candidates, CandidateBefore);
    assert Chosen(i) == SortBy(i.candidates, CandidateBefore);
  }

  /**
   * If the supersession relations carried by the candidates are acyclic and the plan is admissible,
   * then adding every planned target-to-replacement edge leaves supersession acyclic.
   */
  lemma AdmissiblePlanKeepsSupersessionAcyclic(i: Input, bases: seq<Base>, digest: Digest)
    requires Drafted(i, bases) && Draft(i, bases, digest).admissible
    requires !Cyclic(Relations(i.candidates))
    ensures !Cyclic(Relations(i.candidates) + Additions(Draft(i, bases, digest).entries))
  {
    var cs := Chosen(i);
    var es := EntriesOf(bases, cs, digest);
    AdmissibleIffNoCause(i, bases, digest);
    UncutKeepsRelations(i);
    PlanKeepsAcyclicIff(i, bases, digest);
    forall e | e in es && Plans(e) ensures !CycleClosing(Elements(Edges(es, cs)))(e) {
      assert !IsCause(es, cs, e);
    }
  }

  // ----- which entries are tainted -----

  /**
   * In any plan the tainted entry ids are the sources of the entries connected to a cause, where two
   * events are connected through target, replacement, lineage and supersession links.
   */
  lemma TaintedIffConnectedToCause(i: Input, bases: seq<Base>, digest: Digest, b: Base)
    requires Drafted(i, bases) && b in bases
    requires CollisionFree(Vertices(bases, Chosen(i)), Links(bases, Chosen(i)), Less, digest)
    ensures b.source in Draft(i, bases, digest).taintEntries <==>
      exists c :: c in Draft(i, bases, digest).entries
        && IsCause(Draft(i, bases, digest).entries, Chosen(i), c)
        && SourcesConnected(bases, Chosen(i), b.source, c.base.source)
  {
    var cs := Chosen(i);
    var es := EntriesOf(bases, cs, digest);
    var mine := ComponentId(bases, cs, b.source, digest);
    TaintedIffComponentIsCausal(i, bases, digest, b);
    CausalIsComponentsOfCauses(i, bases, digest, mine);
    forall c | c in es ensures c.component == mine <==> SourcesConnected(bases, cs, b.source, c.base.source) {
      SharesComponentIffConnected(i, bases, digest, b, c);
    }
  }

  lemma TaintedIffComponentIsCausal(i: Input, bases: seq<Base>, digest: Digest, b: Base)
    requires Drafted(i, bases) && b in bases
    ensures b.source in Draft(i, bases, digest).taintEntries <==>
      ComponentId(bases, Chosen(i), b.source, digest)
        in Causal(EntriesOf(bases, Chosen(i), digest), Chosen(i))
  {
    var es := EntriesOf(bases, Chosen(i), digest);
    var causal := Causal(es, Chosen(i));
    SortKeeps(SourcesIn(es, causal), Less);
    InSourcesIn(es, causal, b.source);
    BaseHasEntry(i, bases, digest, b);
    forall e | e in es && e.base.source == b.source
      ensures e.component == ComponentId(bases, Chosen(i), b.source, digest)
    {
      EntryHasBase(i, bases, digest, e);
    }
  }

  lemma SharesComponentIffConnected(i: Input, bases: seq<Base>, digest: Digest, b: Base, c: Entry)
    requires Drafted(i, bases) && b in bases && c in EntriesOf(bases, Chosen(i), digest)
    requires CollisionFree(Vertices(bases, Chosen(i)), Links(bases, Chosen(i)), Less, digest)
    ensures c.component == ComponentId(bases, Chosen(i), b.source, digest) <==>
      SourcesConnected(bases, Chosen(i), b.source, c.base.source)
  {
    LessOrders();
    EntryHasBase(i, bases, digest, c);
    SameComponentIffConnected(
      Vertices(bases, Chosen(i)), Links(bases, Chosen(i)), b.source, c.base.source, Less, digest);
  }

  // ----- the order of the input does not matter -----

  /** `d` lists the same lineage ids and relations as `c`, perhaps in another order. */
  ghost predicate Similar(c: Candidate, d: Candidate) {
    && c.(lineage := [], relations := []) == d.(lineage := [], relations := [])
    && Elements(c.lineage) == Elements(d.lineage)
    && Elements(c.relations) == Elements(d.relations)
  }

  ghost predicate AllSimilar(cs: seq<Candidate>, ds: seq<Candidate>) {
    |cs| == |ds| && forall k :: 0 <= k < |cs| ==> Similar(cs[k], ds[k])
  }

  /** The same candidates, listed in another order, each perhaps with its lists in another order. */
  ghost predicate Reordered(cs: seq<Candidate>, ds: seq<Candidate>) {
    && |cs| == |ds|
    && (forall c {:trigger HasSimilar(ds, c)} :: c in cs ==> HasSimilar(ds, c))
    && (forall d {:trigger HasSimilar(cs, d)} :: d in ds ==> HasSimilar(cs, d))
  }

  ghost predicate HasSimilar(cs: seq<Candidate>, d: Candidate) { exists c :: c in cs && Similar(c, d) }

  /** What candidates are sorted by. */
  function SortKey(c: Candidate): (Id, string) { (c.source, OrEmpty(c.policyVersion)) }

  predicate KeyBefore(a: (Id, string), b: (Id, string)) { Less(a.0, b.0) || (a.0 == b.0 && Less(a.1, b.1)) }

  /** No source occurs twice under one policy version. */
  ghost predicate DistinctKeys(cs: seq<Candidate>) {
    forall j, k :: 0 <= j < k < |cs| ==> SortKey(cs[j]) != SortKey(cs[k])
  }

  ghost function SortKeys(cs: seq<Candidate>): seq<(Id, string)> {
    seq(|cs|, k requires 0 <= k < |cs| => SortKey(cs[k]))
  }

  lemma SortKeysOrder()
    ensures WeakOrder(KeyBefore)
  {
    forall a: (Id, string), b: (Id, string), c: (Id, string) ensures Ranks(KeyBefore, a, b, c) {
      KeysOrder(a.0, b.0, c.0);
      KeysOrder(a.0, c.0, b.0);
      KeysOrder(b.0, c.0, a.0);
      KeysOrder(a.1, b.1, c.1);
    }
  }

  lemma SortedKeysAscend(cs: seq<Candidate>)
    requires DistinctKeys(cs)
    ensures Ascending(SortKeys(SortBy(cs, CandidateBefore)), KeyBefore)
  {
    var s := SortBy(cs, CandidateBefore);
    SortKeeps(cs, CandidateBefore);
    SortIsDistinct(cs, CandidateBefore);
    CandidatesOrder();
    SortOrders(cs, CandidateBefore);
    forall j, k | 0 <= j < k < |s| ensures KeyBefore(SortKeys(s)[j], SortKeys(s)[k]) {
      assert s[j] in cs && s[k] in cs && s[j] != s[k];
      assert SortKey(s[j]) != SortKey(s[k]);
      assert !CandidateBefore(s[k], s[j]);
      KeysOrder(s[j].source, s[k].source, s[j].source);
      KeysOrder(SortKey(s[j]).1, SortKey(s[k]).1, SortKey(s[j]).1);
    }
  }

  lemma KeyOccurs(cs: seq<Candidate>, x: (Id, string))
    ensures x in SortKeys(cs) <==> exists c :: c in cs && SortKey(c) == x
  {
    if x in SortKeys(cs) {
      var k :| 0 <= k < |cs| && SortKeys(cs)[k] == x;
      assert cs[k] in cs;
    }
    if c :| c in cs && SortKey(c) == x {
      var k :| 0 <= k < |cs| && cs[k] == c;
      assert SortKeys(cs)[k] == x;
    }
  }

  lemma SortedKeysAgree(cs: seq<Candidate>, ds: seq<Candidate>)
    requires DistinctKeys(cs) && DistinctKeys(ds) && Reordered(cs, ds)
    ensures SortKeys(SortBy(cs, CandidateBefore)) == SortKeys(SortBy(ds, CandidateBefore))
    ensures Distinct(SortKeys(SortBy(ds, CandidateBefore)))
  {
    var s, t := SortBy(cs, CandidateBefore), SortBy(ds, CandidateBefore);
    SortKeeps(cs, CandidateBefore);
    SortKeeps(ds, CandidateBefore);
    SortedKeysAscend(cs);
    SortedKeysAscend(ds);
    SortKeysOrder();
    forall x ensures x in SortKeys(s) <==> x in SortKeys(t) {
      KeyOccurs(s, x);
      KeyOccurs(t, x);
      if c :| c in s && SortKey(c) == x {
        assert HasSimilar(ds, c);
      }
      if d :| d in t && SortKey(d) == x {
        assert HasSimilar(cs, d);
      }
    }
    AscendingIsUnique(SortKeys(s), SortKeys(t), KeyBefore);
    AscendingIsDistinct(SortKeys(t), KeyBefore);
  }

  lemma SortingForgetsOrder(cs: seq<Candidate>, ds: seq<Candidate>)
    requires DistinctKeys(cs) && DistinctKeys(ds) && Reordered(cs, ds)
    ensures AllSimilar(SortBy(cs, CandidateBefore), SortBy(ds, CandidateBefore))
  {
    var s, t := SortBy(cs, CandidateBefore), SortBy(ds, CandidateBefore);
    SortKeeps(cs, CandidateBefore);
    SortKeeps(ds, CandidateBefore);
    SortedKeysAgree(cs, ds);
    forall k | 0 <= k < |s| ensures Similar(s[k], t[k]) {
      assert s[k] in s && s[k] in cs && HasSimilar(ds, s[k]);
      var d :| d in ds && Similar(d, s[k]);
      PlacedByKey(s, t, k, d);
    }
  }

  lemma PlacedByKey(s: seq<Candidate>, t: seq<Candidate>, k: nat, d: Candidate)
    requires SortKeys(s) == SortKeys(t) && Distinct(SortKeys(t)) && |s| == |t|
    requires k < |s| && d in t && SortKey(d) == SortKey(s[k])
    ensures t[k] == d
  {
    var m :| 0 <= m < |t| && t[m] == d;
    assert SortKeys(t)[m] == SortKey(d);
    assert SortKeys(s)[k] == SortKey(s[k]);
    assert SortKeys(t)[k] == SortKeys(t)[m];
  }

  lemma {:induction false} SimilarClassify(cs: seq<Candidate>, ds: seq<Candidate>)
    requires AllSimilar(cs, ds)
    ensures ClassifyAll(cs) == ClassifyAll(ds)
  {
    if cs != [] {
      assert Similar(cs[0], ds[0]);
      assert forall k :: 0 <= k < |cs| - 1 ==> cs[1..][k] == cs[k + 1] && ds[1..][k] == ds[k + 1];
      SimilarClassify(cs[1..], ds[1..]);
    }
  }

  lemma {:induction false} SimilarFirst(cs: seq<Candidate>, ds: seq<Candidate>, source: Id)
    requires AllSimilar(cs, ds)
    ensures FirstCandidate(cs, source).Some? <==> FirstCandidate(ds, source).Some?
    ensures FirstCandidate(cs, source).Some? ==>
      Similar(FirstCandidate(cs, source).value, FirstCandidate(ds, source).value)
  {
    if cs != [] {
      assert Similar(cs[0], ds[0]);
      assert forall k :: 0 <= k < |cs| - 1 ==> cs[1..][k] == cs[k + 1] && ds[1..][k] == ds[k + 1];
      SimilarFirst(cs[1..], ds[1..], source);
    }
  }

  lemma {:induction false} SimilarLast(cs: seq<Candidate>, ds: seq<Candidate>, e: Entry)
    requires AllSimilar(cs, ds)
    ensures SubjectMismatch(LastCandidate(cs, e.base.source), e.base) <==>
      SubjectMismatch(LastCandidate(ds, e.base.source), e.base)
  {
    if cs != [] {
      var n := |cs| - 1;
      assert Similar(cs[n], ds[n]);
      assert forall k :: 0 <= k < n ==> cs[..n][k] == cs[k] && ds[..n][k] == ds[k];
      SimilarLast(cs[..n], ds[..n], e);
    }
  }

  lemma SimilarLinks(b: Base, c: Option<Candidate>, d: Option<Candidate>)
    requires c.Some? <==> d.Some?
    requires c.Some? ==> Similar(c.value, d.value)
    ensures MentionsEvents(c) <==> MentionsEvents(d)
    ensures forall l :: l in LinkList(b, c) <==> l in LinkList(b, d)
  {
    if c.Some? {
      var x, y := c.value, d.value;
      SameMembers(x.lineage, y.lineage);
      SameMembers(x.relations, y.relations);
      MentionsMembers(x);
      MentionsMembers(y);
      LinkMembers(b, x);
      LinkMembers(b, y);
    }
  }

  lemma SameMembers<T>(s: seq<T>, t: seq<T>)
    requires Elements(s) == Elements(t)
    ensures forall x :: x in s <==> x in t
  {
    forall x ensures x in s <==> x in t {
      assert x in s <==> x in Elements(s);
      assert x in t <==> x in Elements(t);
    }
  }

  lemma MentionsMembers(c: Candidate)
    ensures MentionsEvents(Some(c)) <==>
      (forall id :: id in c.lineage ==> IsEventId(id))
      && (forall r :: r in c.relations ==> IsEventId(r.0) && IsEventId(r.1))
  {
    if MentionsEvents(Some(c)) {
    }
    if (forall id :: id in c.lineage ==> IsEventId(id))
      && (forall r :: r in c.relations ==> IsEventId(r.0) && IsEventId(r.1))
    {
      forall i | 0 <= i < |c.lineage| ensures IsEventId(c.lineage[i]) {
        assert c.lineage[i] in c.lineage;
      }
      forall i | 0 <= i < |c.relations| ensures IsEventId(c.relations[i].0) && IsEventId(c.relations[i].1) {
        assert c.relations[i] in c.relations;
      }
    }
  }

  lemma LinkMembers(b: Base, c: Candidate)
    ensures forall l :: l in LinkList(b, Some(c)) <==>
      (l.0 == b.source && (Some(l.1) == b.target || Some(l.1) == b.replacement || l.1 in c.lineage))
      || l in c.relations
  {
    var links := seq(|c.lineage|, i requires 0 <= i < |c.lineage| => (b.source, c.lineage[i]));
    forall l ensures l in links <==> l.0 == b.source && l.1 in c.lineage {
      if l.0 == b.source && l.1 in c.lineage {
        var i :| 0 <= i < |c.lineage| && c.lineage[i] == l.1;
        assert links[i] == l;
      }
    }
  }

  lemma SimilarGraphs(bases: seq<Base>, cs: seq<Candidate>, ds: seq<Candidate>)
    requires AllSimilar(cs, ds)
    ensures Mentionable(bases, cs) <==> Mentionable(bases, ds)
    ensures Links(bases, cs) == Links(bases, ds)
  {
    forall b | b in bases
      ensures MentionsEvents(FirstCandidate(cs, b.source)) <==> MentionsEvents(FirstCandidate(ds, b.source))
      ensures forall l ::
        l in LinkList(b, FirstCandidate(cs, b.source)) <==> l in LinkList(b, FirstCandidate(ds, b.source))
    {
      SimilarFirst(cs, ds, b.source);
      SimilarLinks(b, FirstCandidate(cs, b.source), FirstCandidate(ds, b.source));
    }
  }

  lemma SimilarRelations(cs: seq<Candidate>, ds: seq<Candidate>)
    requires AllSimilar(cs, ds)
    ensures Relations(cs) == Relations(ds)
  {
    RelationsInclude(cs, ds);
    RelationsInclude(ds, cs);
  }

  lemma RelationsInclude(cs: seq<Candidate>, ds: seq<Candidate>)
    requires |cs| == |ds| && forall k :: 0 <= k < |cs| ==> Elements(cs[k].relations) == Elements(ds[k].relations)
    ensures Relations(cs) <= Relations(ds)
  {
    forall r | r in Relations(cs) ensures r in Relations(ds) {
      var c :| c in cs && r in c.relations;
      var k :| 0 <= k < |cs| && cs[k] == c;
      assert r in Elements(cs[k].relations);
      assert r in Elements(ds[k].relations);
      assert ds[k] in ds;
    }
  }

  lemma SimilarCauses(es: seq<Entry>, cs: seq<Candidate>, ds: seq<Candidate>)
    requires AllSimilar(cs, ds)
    ensures CausesOf(es, cs) == CausesOf(es, ds)
  {
    SimilarRelations(cs, ds);
    EdgesList(es, cs);
    EdgesList(es, ds);
    forall e | e in es ensures Mismatched(cs)(e) <==> Mismatched(ds)(e) {
      SimilarLast(cs, ds, e);
    }
    assert Where(es, Mismatched(cs)) == Where(es, Mismatched(ds));
    SimilarUnproved(es, cs, ds);
  }

  lemma SimilarUnproved(es: seq<Entry>, cs: seq<Candidate>, ds: seq<Candidate>)
    requires AllSimilar(cs, ds)
    ensures UnprovedComponents(es, cs) == UnprovedComponents(es, ds)
  {
    UnprovedInclude(es, cs, ds);
    UnprovedInclude(es, ds, cs);
  }

  lemma UnprovedInclude(es: seq<Entry>, cs: seq<Candidate>, ds: seq<Candidate>)
    requires |cs| == |ds|
    requires forall k :: 0 <= k < |cs| ==> cs[k].source == ds[k].source && (Unproved(cs[k]) <==> Unproved(ds[k]))
    ensures UnprovedComponents(es, cs) <= UnprovedComponents(es, ds)
  {
    forall x | x in cs && Unproved(x) ensures exists y :: y in ds && Unproved(y) && y.source == x.source {
      var k :| 0 <= k < |cs| && cs[k] == x;
      assert ds[k] in ds;
    }
  }

  /**
   * When no source occurs twice under one policy version, listing the candidates in another order, and the
   * lineage ids and relations inside each candidate in another order, gives the very same outcome.
   */
  lemma PlanForgetsOrder(i: Input, j: Input, digest: Digest)
    requires j == i.(candidates := j.candidates)
    requires DistinctKeys(i.candidates) && DistinctKeys(j.candidates)
    requires Reordered(i.candidates, j.candidates)
    ensures BuildSpec(i, digest) == BuildSpec(j, digest)
  {
    ChosenForgetsOrder(i, j);
    SimilarOutcomes(i, j, Chosen(i), Chosen(j), digest);
  }

  lemma SimilarOutcomes(i: Input, j: Input, cs: seq<Candidate>, ds: seq<Candidate>, digest: Digest)
    requires j == i.(candidates := j.candidates) && AllSimilar(cs, ds)
    ensures Outcome(i, cs, digest) == Outcome(j, ds, digest)
  {
    SimilarClassify(cs, ds);
    if ClassifyAll(cs).Ok? {
      var bases := ClassifyAll(cs).value;
      SimilarGraphs(bases, cs, ds);
      SimilarDrafts(i, j, cs, ds, bases, digest);
    }
  }

  lemma ChosenForgetsOrder(i: Input, j: Input)
    requires j == i.(candidates := j.candidates)
    requires DistinctKeys(i.candidates) && DistinctKeys(j.candidates)
    requires Reordered(i.candidates, j.candidates)
    ensures AllSimilar(Chosen(i), Chosen(j)) && InputError(i) == InputError(j)
  {
    SortingForgetsOrder(i.candidates, j.candidates);
    SimilarPrefixes(
      SortBy(i.candidates, CandidateBefore), SortBy(j.candidates, CandidateBefore), Expected(i));
  }

  lemma SimilarPrefixes(cs: seq<Candidate>, ds: seq<Candidate>, n: int)
    requires AllSimilar(cs, ds)
    ensures AllSimilar(Take(cs, n), Take(ds, n))
  {
  }

  lemma SimilarDrafts(
    i: Input, j: Input, cs: seq<Candidate>, ds: seq<Candidate>, bases: seq<Base>, digest: Digest)
    requires j == i.(candidates := j.candidates) && AllSimilar(cs, ds)
    ensures DraftOf(i, cs, bases, digest) == DraftOf(j, ds, bases, digest)
  {
    SimilarEntries(bases, cs, ds, digest);
    SimilarAssembly(i, j, EntriesOf(bases, cs, digest), cs, ds);
  }

  lemma SimilarEntries(bases: seq<Base>, cs: seq<Candidate>, ds: seq<Candidate>, digest: Digest)
    requires AllSimilar(cs, ds)
    ensures EntriesOf(bases, cs, digest) == EntriesOf(bases, ds, digest)
  {
    SimilarGraphs(bases, cs, ds);
    assert Attach(bases, cs, digest) == Attach(bases, ds, digest);
  }

  lemma SimilarAssembly(i: Input, j: Input, es: seq<Entry>, cs: seq<Candidate>, ds: seq<Candidate>)
    requires j == i.(candidates := j.candidates) && AllSimilar(cs, ds)
    ensures Assemble(i, es, cs) == Assemble(j, es, ds)
  {
    SimilarCauses(es, cs, ds);
    assert Taints(i, es, cs) == Taints(j, es, ds);
  }
}
